# libcdl in Dafny

A model of the core of libcdl, the eCos configuration engine, with proofs. Configuration data comes
as packages of options written in CDL. The library parses the expressions in them, keeps all options
in one hierarchy with references between them, and lets packages come and go within transactions that
can be cancelled.

The modules, from the bottom up:

- `Wrappers`, `Ascii`, `Word64`, `Numerals`, `Tallies`: results and options, character classes, 64-bit
  integers, numbers written as digits, and counting in sequences.
- `Syntax`, `Grammar`: tokens, expression trees, the recursive-descent grammar on tokens, the printer
  with the fewest brackets, and their round trip.
- `Integers`, `Floats`, `Versions`, `Substrings`: the number conversions, the texts that spell a
  floating zero, the version comparison, and the substring search with its inference loop.
- `Numbers`, `Lexicon`, `Phrases`, `Clauses`: notations, defined without the code that reads them: which
  texts are integers, tokens and sequences of tokens, and which tokens are expressions, goals and lists.
  Reading is proved against them in both directions.
- `Lexical`, `Spelling`, `Tokenizers`: scanning by position, spelling tokens out, and the tokenizer
  with its single character of backup.
- `Vectors`, `Programs`, `Parsing`: the flat vector of sub-expressions linked by index, the object
  that a parse fills in, and the parser that pushes and now and then rewrites its last entry.
- `Evaluation`, `Laws`, `Sequels`, `Goals`: evaluation of the vector against evaluation of the tree, what
  every operator means in terms of integers, bits and texts, and goal and list expressions, which restart
  the tokenizer part-way through a string.
- `References`, `Hierarchy`, `Loading`, `Packages`, `Positions`, `Reversal`: references with referrers
  and unresolved conflicts, the tree of containers, the updates that loading and unloading send to every
  property, packages as a whole, what is directly below the toplevel, and taking packages out and putting
  them back.
- `Rollback`: the log of operations that a transaction cancels from the back, and the compound
  operations of a configuration built on it.
- `Activation`, `EvalConflicts`, `BuildSteps`, `TraceRing`: propagation of activity, the conflicts of
  failing evaluations, the splitter for custom build steps, and the trace vector.

Code that changes state in place is a class whose methods are proved against functions on values; the
properties are lemmas about those functions, or invariants that every method keeps. `Packages.Whole`
gathers what holds between operations: no reference that could be bound is unbound, referrers and
references agree with multiplicity, live conflicts stand for exactly the open references, parent fields
and contents agree and form a tree, and every package is completely in or completely out. `Load`,
`Unload`, `Reload`, `CancelLoad`, their catch blocks, `AdoptConflicts` and `DiscardConflicts` all keep it,
so it holds over every run of them.

Where the code and its comments part, the model follows the code:

- After the word `to` a list expression goes on one character late (`Goals.TightRange`).
- A goal of a single part reads the text "false" as true and the text "0.0" as false; an operand of &&
  does the opposite (`Goals.TruthsAgreeIff`).
- A conflict for a failing evaluation is replaced even when the message is the same, because the
  comparison is with the whole explanation (`EvalConflicts.SameMessageReplaces`).
- Version strings that start with an upper-case V can be put in a circle (`Versions.ClashMakesCircle`,
  `Versions.TransitiveIff`).
- A loadable that was unloaded need not fit back in: only an assertion guards the position at which it
  is put back, and that can be past the end (`Reversal.PastTheEnd`, `Packages.Reload`). It is in range
  whenever its unload began in calm (`Rollback.Configuration.CancelBack`), that is while no node is
  directly below the toplevel whose parent property names a known node (`Positions.StuckIff`).
- A node that is moved to the front of the toplevel and stands there already ends up one place too far
  back, because the position is found before the node is taken out (`Hierarchy.AheadIff`).
- The erase loop of a substring inference never ends when the stripped needle is empty and occurs
  (`Substrings.LoopEndsIff`).
- A hexadecimal escape in a string runs on into the escaped newline (`Lexical.ReadEscape`).
- The overflow test of string_to_integer does not catch every overflow; the conversion is modelled with
  its wrap-around, and the minimum integer does not survive a round trip (`Integers.RoundTripIff`).

## Model

| member | source | states |
|---|---|---|
| `Tokenizers.Tokenizer.NextChar` | `src/ecos/host/libcdl/expr.cxx:316-328` | Moves the current position on by one character, and stays at the end of the data. |
| `Tokenizers.Tokenizer.BackupChar` | `src/ecos/host/libcdl/expr.cxx:329-337` | Moves the current position back by one character, whether or not the end of the data was reached. |
| `Tokenizers.Tokenizer.ProcessEscape` | `src/ecos/host/libcdl/expr.cxx:560-640` | An escape adds the text, and ends at the character, that the position-level scanner gives for it, the fall-through of a hexadecimal escape into the escaped newline included. |
| `Tokenizers.Tokenizer.ProcessString` | `src/ecos/host/libcdl/expr.cxx:544-650` | A string constant is the scanned text up to the closing quote, or raises when the quote is missing. |
| `Tokenizers.Tokenizer.CheckNumberTermination` | `src/ecos/host/libcdl/expr.cxx:669-691` | A number must be followed by white space, an operator or a bracket, or the end of the data. |
| `Tokenizers.Tokenizer.ProcessNumber` | `src/ecos/host/libcdl/expr.cxx:692-815` | Hexadecimal, octal and decimal constants get the scanned value and format; digits 8 and 9 after a leading zero raise. |
| `Tokenizers.Tokenizer.ProcessAlphanumeric` | `src/ecos/host/libcdl/expr.cxx:821-880` | A name extends over letters, digits and underscores; the words for operators and functions become their own tokens. |
| `Tokenizers.Tokenizer.ProcessPunctuation` | `src/ecos/host/libcdl/expr.cxx:934-1108` | Each punctuation token has the kind and the length that its first two characters give; a single equals sign raises. |
| `Tokenizers.Tokenizer.NextToken` | `src/ecos/host/libcdl/expr.cxx:886-1110` | The character-by-character tokenizer computes exactly the lexeme that scanning from the current position gives, with its start recorded as token_start. |
| `Tokenizers.Tokenizer.Advance` | `src/ecos/host/libcdl/expr.cxx:886-1110` | Moving on drops the first of the upcoming tokens and raises exactly when the next one is bad. |
| `Tokenizers.Tokenizer.Initialise` | `src/ecos/host/libcdl/expr.cxx:1113-1125` | Tokenizing from an index yields exactly the tokens of the string from there, and raises exactly when the first one is bad. |
| `Tokenizers.Tokenizer.Place` | `src/ecos/host/libcdl/expr.cxx:907-926` | At any moment the current token and those to come are the last of all lexemes, and rescanning from token_start gives the same tokens. |
| `Lexical.Restart` | `src/ecos/host/libcdl/expr.cxx:1113-1125` | Resuming at the start of any lexeme gives the rest of the lexemes; resuming at its end gives those after it. |
| `Lexical.LexemesInOrder` | `src/ecos/host/libcdl/expr.cxx:907-926` | Later lexemes start at later positions, so resuming makes progress. |
| `Lexical.SkipOneIff` | `src/ecos/host/libcdl/expr.cxx:316-337` | Resuming one character late gives the same lexemes if and only if that character is white space or the data has ended. |
| `Spelling.ScanSpelled` | `src/ecos/host/libcdl/expr.cxx:886-1110` | A token written out and followed by a space is scanned back as that token. |
| `Spelling.ParseUndoesText` | `src/ecos/host/libcdl/expr.cxx:2537-2560` | Any tree, printed as characters with the fewest brackets and one space between tokens, is tokenized and parsed back to itself with its signs absorbed. |
| `Lexicon.ScansWritten` | `src/ecos/host/libcdl/expr.cxx:544-1110` | Every token, in whatever way it is written, with all escapes of a string and all radices of a number, is scanned as that token, if what comes next may follow it. |
| `Lexicon.ScannedWasWritten` | `src/ecos/host/libcdl/expr.cxx:544-1110` | Conversely the characters that any good token was scanned from are a way of writing it, and what comes next may follow it. |
| `Lexicon.TokensIff` | `src/ecos/host/libcdl/expr.cxx:544-1125` | A text has certain tokens, and no bad data, if and only if it consists of ways of writing them, with white space in between, each of which the rest may follow. |
| `Grammar.RoundTrip` | `src/ecos/host/libcdl/expr.cxx:1253-1705` | At every precedence level the printed form of a tree in front of tokens that cannot continue it parses to the tree and leaves exactly those tokens. |
| `Grammar.ParseUndoesShow` | `src/ecos/host/libcdl/expr.cxx:1203-1723` | Parsing the minimally bracketed tokens of any well-formed tree consumes all of them and gives the tree with signs absorbed into constants. |
| `Grammar.ReparseIsIdentity` | `src/ecos/host/libcdl/expr.cxx:1203-1723` | Printing whatever was parsed and parsing it again changes nothing. |
| `Grammar.ParseIsGood` | `src/ecos/host/libcdl/expr.cxx:1253-1705` | Whatever is parsed is canonical: operators have their operands, calls pass their checks, no sign is left in front of a constant; and the tokens left over are the last of those given. |
| `Grammar.ArgsAreGood` | `src/ecos/host/libcdl/expr.cxx:1203-1250` | The arguments of a call are canonical and the tokens after them are left over. |
| `Phrases.LevelIsTier` | `src/ecos/host/libcdl/expr.cxx:1413-1681` | The levels of the grammar are twelve tiers of binary operators, from the multiplying ones to implies. |
| `Phrases.ReadsBack` | `src/ecos/host/libcdl/expr.cxx:1253-1723` | Tokens that write a tree, with any pairs of brackets wherever an operand may stand, are parsed to that tree with its signs absorbed, whatever follows that cannot go on with it. |
| `Phrases.WasWritten` | `src/ecos/host/libcdl/expr.cxx:1253-1723` | Conversely the tokens that any successful parse uses up write some well-formed tree, and the parse gives that tree with its signs absorbed. |
| `Phrases.AcceptsIff` | `src/ecos/host/libcdl/expr.cxx:1203-1723` | A sequence of tokens is accepted as an expression, and gives a certain tree, if and only if it writes a well-formed tree that this one is with its signs absorbed. |
| `Clauses.ListIff` | `src/ecos/host/libcdl/expr.cxx:2896-2953` | A sequence of tokens is accepted as a list, and gives certain items, if and only if it writes such expressions and ranges one after the other, none of which goes on into the next. |
| `Clauses.GoalIff` | `src/ecos/host/libcdl/expr.cxx:3273-3307` | A sequence of tokens is accepted as a goal, and has certain parts, if and only if it writes such expressions one after the other. |
| `Programs.Program.PushConstant` | `src/ecos/host/libcdl/expr.cxx:1179-1190` | Pushing a constant adds one single-entry tree to the row of trees that the vectors lay out. |
| `Programs.Program.PushReference` | `src/ecos/host/libcdl/expr.cxx:1164-1190` | Pushing a reference adds its name to the references and one tree to the row. |
| `Programs.Program.PushNode` | `src/ecos/host/libcdl/expr.cxx:1179-1190` | Pushing a node over the last trees of the row, by their root indices, turns them into one tree and leaves the rest of the row laid out. |
| `Programs.Program.PushBinary` | `src/ecos/host/libcdl/expr.cxx:1413-1432` | A binary node over a saved lhs index and the current index stands for the operator over the last two trees. |
| `Programs.Program.PushCond` | `src/ecos/host/libcdl/expr.cxx:1687-1711` | A conditional node over three saved indices stands for the conditional over the last three trees. |
| `Programs.Program.MakeActive` | `src/ecos/host/libcdl/expr.cxx:1386-1400` | Turning the reference pushed last into an activity test rewrites only the last tree; anything but a plain reference is refused. |
| `Programs.Program.ApplySign` | `src/ecos/host/libcdl/expr.cxx:1321-1383` | A sign in front of a constant rewrites the constant in place and nothing that is already linked; otherwise a unary node is pushed. |
| `Programs.Program.IsReference` | `src/ecos/host/libcdl/expr.cxx:1203-1250` | The entry of a first argument is a reference entry exactly if the argument is a plain reference. |
| `Programs.LaidNode` | `src/ecos/host/libcdl/expr.cxx:1179-1201` | The post-order layout of a row of trees survives pushing a node over its last n trees. |
| `Programs.LaidRewrite` | `src/ecos/host/libcdl/expr.cxx:1321-1399` | Rewriting the current entry touches no other tree of the row. |
| `Parsing.Parser.ParseUnary` | `src/ecos/host/libcdl/expr.cxx:1253-1401` | Pushes exactly the tree that the grammar gives, consumes exactly its tokens, or raises exactly its error; which tree that is for which tokens, extra brackets included, `Phrases.ReadsBack` and `Phrases.AcceptsIff` say without the grammar. |
| `Parsing.Parser.ParseActive` | `src/ecos/host/libcdl/expr.cxx:1386-1400` | The question mark form, against the grammar. |
| `Parsing.Parser.ParsePrefixed` | `src/ecos/host/libcdl/expr.cxx:1321-1383` | The signs, indirection, negation and complement, against the grammar. |
| `Parsing.Parser.ParseFunction` | `src/ecos/host/libcdl/expr.cxx:1203-1250` | A call with its arity, brackets, commas and argument check, against the grammar. |
| `Parsing.Parser.ParseArgs` | `src/ecos/host/libcdl/expr.cxx:1203-1250` | The argument loop pushes exactly the arguments and records their root indices. |
| `Parsing.Parser.ParseBinary` | `src/ecos/host/libcdl/expr.cxx:1413-1681` | The twelve left-associative levels, each a loop over its operators, against the grammar. |
| `Parsing.Parser.ParseConditional` | `src/ecos/host/libcdl/expr.cxx:1687-1711` | The right-associative conditional, against the grammar. |
| `Parsing.Parser.ParseAt` | `src/ecos/host/libcdl/expr.cxx:1253-1723` | Every parsing function leaves first_subexpression at the root of the tree it pushed, and nothing else on top of what was there. |
| `Vectors.LayoutIsGood` | `src/ecos/host/libcdl/expr.cxx:1179-1201` | In the layout of a well-formed tree every entry has its children before it, as many as it needs, and its references in range. |
| `Vectors.DecodeLayout` | `src/ecos/host/libcdl/expr.cxx:1763-1790` | Reading the vector back from a root gives the tree that was laid out. |
| `Vectors.TreeVector` | `src/ecos/host/libcdl/expr.cxx:2562-2580` | A vector that holds one well-formed tree can be evaluated and decodes to that tree from its last entry. |
| `Vectors.EachUsedOnce` | `src/ecos/host/libcdl/expr.cxx:1179-1201` | Every entry but the root is the child of exactly one entry, exactly once: nothing is shared. |
| `Evaluation.FlatIsTree` | `src/ecos/host/libcdl/expr.cxx:1763-2364` | Evaluating the vector by index equals evaluating the decoded tree, with errors and short cuts included; what the tree evaluates to is the subject of `Laws`. |
| `Evaluation.DecodeIsWellFormed` | `src/ecos/host/libcdl/expr.cxx:1763-2364` | Every entry of a good vector stands for a well-formed tree, so evaluation by index is total and ends. |
| `Evaluation.ParsedMeansTree` | `src/ecos/host/libcdl/expr.cxx:2537-2580` | The vector that a parse leaves evaluates to the value of the parsed tree. |
| `Laws.Constants` | `src/ecos/host/libcdl/expr.cxx:1772-1778` | A constant is the text or the integer, with the display format, that it was written with. |
| `Laws.References` | `src/ecos/host/libcdl/expr.cxx:1784-1830` | A reference that leads nowhere counts as 0, and one to a node without a value raises. An option that is inactive counts as 0; otherwise it is 1, whether it is enabled, or its data, by its flavor. |
| `Laws.Activity` | `src/ecos/host/libcdl/expr.cxx:1906-1930` | A question mark in front of a name tells whether it leads to an active node. |
| `Laws.Indirections` | `src/ecos/host/libcdl/expr.cxx:1878-1905` | An indirection goes by the name that its operand shows, and raises if there is no such node or it has no value. |
| `Laws.Negations` | `src/ecos/host/libcdl/expr.cxx:1831-1844` | A minus sign gives the negative number, up to multiples of two to the power of 64. |
| `Laws.PlusSigns` | `src/ecos/host/libcdl/expr.cxx:1845-1853` | A plus sign only notes the number that a text spells. |
| `Laws.Negation` | `src/ecos/host/libcdl/expr.cxx:1854-1865` | ! turns truth into untruth: zero, the empty text, "0" and the words for false are untrue, all else is true. |
| `Laws.Complements` | `src/ecos/host/libcdl/expr.cxx:1866-1877` | ~x is -x - 1. |
| `Laws.NoInteger` | `src/ecos/host/libcdl/expr.cxx:1831-1877` | -, + and ~ raise for an operand that is no integer. |
| `Laws.Products` | `src/ecos/host/libcdl/expr.cxx:1931-1955` | * multiplies, up to multiples of two to the power of 64. |
| `Laws.Division` | `src/ecos/host/libcdl/expr.cxx:1956-2004` | x = (x / y) * y + x % y, where the remainder is smaller than the divisor and has the sign of x, unless it is zero. |
| `Laws.DivisionByNone` | `src/ecos/host/libcdl/expr.cxx:1956-2004` | Division by zero raises, for the quotient and for the remainder. |
| `Laws.Sums` | `src/ecos/host/libcdl/expr.cxx:2005-2031` | + adds, up to multiples of two to the power of 64. |
| `Laws.Differences` | `src/ecos/host/libcdl/expr.cxx:2032-2051` | - subtracts the right operand from the left one. |
| `Laws.AddUndoesSubtract` | `src/ecos/host/libcdl/expr.cxx:2005-2051` | (x - y) + y is x, whether or not the difference fits. |
| `Laws.LeftShifts` | `src/ecos/host/libcdl/expr.cxx:2052-2067` | Shifting left multiplies by a power of two. |
| `Laws.RightShifts` | `src/ecos/host/libcdl/expr.cxx:2068-2083` | Shifting right divides by it and rounds down. |
| `Laws.RightUndoesLeft` | `src/ecos/host/libcdl/expr.cxx:2052-2083` | Shifting right undoes shifting left, if nothing was shifted out. |
| `Laws.Comparisons` | `src/ecos/host/libcdl/expr.cxx:2084-2127` | < and <= are those of the integers. |
| `Laws.ComparisonsTurned` | `src/ecos/host/libcdl/expr.cxx:2084-2127` | > and >= are the same with the operands exchanged. |
| `Laws.Equality` | `src/ecos/host/libcdl/expr.cxx:2128-2201` | == compares as integers if both operands count as such and as texts otherwise, and != is its opposite. |
| `Laws.Bitwise` | `src/ecos/host/libcdl/expr.cxx:2202-2246` | Each of the 64 bits of a result of the bitwise and, exclusive or and or is what the operator makes of the two bits in its place. |
| `Laws.ShortCuts` | `src/ecos/host/libcdl/expr.cxx:2247-2280` | Logical and and or give 0 or 1, and look at the right operand, errors included, only if the left one does not decide. |
| `Laws.Connectives` | `src/ecos/host/libcdl/expr.cxx:2281-2334` | xor, eqv and implies, by truth tables, with both operands evaluated. |
| `Laws.Conditionals` | `src/ecos/host/libcdl/expr.cxx:2335-2347` | A conditional is the branch that its condition chooses, and the other branch is not looked at. |
| `Laws.Concatenation` | `src/ecos/host/libcdl/expr.cxx:2348-2358` | The dot joins the texts that its operands show. |
| `Laws.NoIntegers` | `src/ecos/host/libcdl/expr.cxx:1931-2246` | Arithmetic, comparisons by size, shifts and bitwise operators raise if one of the operands is no integer. |
| `Laws.OperandsRaise` | `src/ecos/host/libcdl/expr.cxx:1931-2358` | An operand that raises makes the operator raise, the left one first; only logical and and or may do without the right one. |
| `Laws.OperandRaises` | `src/ecos/host/libcdl/expr.cxx:1831-1905` | An operand that raises makes a unary operator raise the same. |
| `Laws.ArgumentsRaise` | `src/ecos/host/libcdl/func.cxx:311-822` | An argument that raises makes the call raise the same, the first argument first. |
| `Laws.SameBits` | `src/ecos/host/libcdl/expr.cxx:2202-2246` | The bits of a word determine it, so that the bitwise operators are determined by `Laws.Bitwise`. |
| `Laws.Formats` | `src/ecos/host/libcdl/expr.cxx:1931-2246` | An integer result is displayed like the left operand or, if that is in the default format, like the right one. |
| `Laws.Queries` | `src/ecos/host/libcdl/func.cxx:509-645` | is_loaded, is_active and is_enabled tell whether a name leads anywhere, to something active, and to something enabled. |
| `Laws.DataQueries` | `src/ecos/host/libcdl/func.cxx:724-746` | get_data gives the data of an option as a text, active or not, and 0 if there is none. |
| `Laws.WordSearch` | `src/ecos/host/libcdl/func.cxx:311-326` | is_substr tells whether the text has its second argument in it, on its own on the sides where it has a space. |
| `Laws.ExactSearch` | `src/ecos/host/libcdl/func.cxx:404-419` | is_xsubstr tells whether the text has its second argument in it as it is. |
| `Laws.VersionComparison` | `src/ecos/host/libcdl/func.cxx:807-822` | version_cmp compares the texts that its arguments show as versions. |
| `Laws.FoldKeepsValue` | `src/ecos/host/libcdl/expr.cxx:1321-1383` | Absorbing signs into constants, as the parser does, never changes what a tree evaluates to, errors included. |
| `Sequels.ContinueParse` | `src/ecos/host/libcdl/expr.cxx:1727-1750` | Parses one expression from an index, joins it to the one before if asked to, and reports the first token left over, its index, and the index one past the character after it. |
| `Sequels.ParseExpression` | `src/ecos/host/libcdl/expr.cxx:2562-2580` | Parsing from an index leaves the compiled form of exactly the expression that stands there. |
| `Sequels.Parse` | `src/ecos/host/libcdl/expr.cxx:2536-2560` | A whole string parses to its expression, and data is left over exactly when tokens are. |
| `Sequels.ParseGoal` | `src/ecos/host/libcdl/expr.cxx:3273-3307` | The loop that restarts the tokenizer at token_start ends, and leaves the conjunction of the expressions that the tokens spell out. |
| `Sequels.ParseItem` | `src/ecos/host/libcdl/expr.cxx:2910-2943` | One item of a list: an expression, or a range whose high end is parsed from token_end. |
| `Sequels.ParseList` | `src/ecos/host/libcdl/expr.cxx:2896-2953` | The two vectors of a list expression hold exactly the plain items and the ranges of the list as it is read, in order. |
| `Sequels.LeftoverLies` | `src/ecos/host/libcdl/expr.cxx:1743-1746` | The token where an expression stops lies strictly after its start, so repeated parsing makes progress. |
| `Sequels.PromptIsItems` | `src/ecos/host/libcdl/expr.cxx:2896-2953` | Were parsing to go on right after `to`, a list would be exactly the items its tokens spell out. |
| `Sequels.ReadsAllHighsIffSpaced` | `src/ecos/host/libcdl/expr.cxx:2910-2943` | Every high end is parsed from the very lexemes that follow its `to` if and only if each `to` that parsing reaches is followed by white space or the end of the data. |
| `Sequels.LateIsPrompt` | `src/ecos/host/libcdl/expr.cxx:2896-2953` | When every high end is parsed from the lexemes that follow its `to`, going on one character late makes no difference. |
| `Sequels.ListIsItems` | `src/ecos/host/libcdl/expr.cxx:2896-2953` | When white space follows every `to` that is reached, a list is exactly the items and ranges that its tokens spell out. |
| `Sequels.CompiledMeansTree` | `src/ecos/host/libcdl/expr.cxx:2562-2580` | What was compiled evaluates to the value of the tree. |
| `Goals.GoalIsConjunction` | `src/ecos/host/libcdl/expr.cxx:3273-3307` | A goal parses to the left-nested conjunction of all its parts. |
| `Goals.GoalMeansAllParts` | `src/ecos/host/libcdl/expr.cxx:3386-3404` | A goal of several parts holds if its parts do, evaluated from left to right until one is false or raises. |
| `Goals.GoalMeansOnlyPart` | `src/ecos/host/libcdl/expr.cxx:3386-3404` | A goal of one part holds if its part does, if and only if the value of that part is not a text that the two tests of truth read differently: a word for false, or a zero, integer or floating, not spelled "0". |
| `Goals.TruthsAgreeIff` | `src/ecos/host/libcdl/value.cxx:469-500` | get_bool_value() and the goal's own reading of a value differ exactly on the words for false and on integer and floating zeros not spelled "0". |
| `Goals.FloatingZeroIsAmbiguous` | `src/ecos/host/libcdl/cdlmisc.cxx:362-387` | The text 0.0 is false to a goal, which tries it as a floating number, and true to get_bool_value(). |
| `Goals.TightRange` | `src/ecos/host/libcdl/expr.cxx:2918-2935` | The list `1 to-5` is parsed as the range from 1 to 5 although its tokens spell the range from 1 to -5. |
| `Integers.StringToInteger` | `src/ecos/host/libcdl/cdlmisc.cxx:197-346` | The pointer-driven conversion accepts exactly what its functional description accepts, with the same value, 64-bit wrap-around included. |
| `Numbers.ReadsIff` | `src/ecos/host/libcdl/cdlmisc.cxx:197-346` | A text is read as an integer if and only if, up to its first NUL, it is white space, an optional plus, an optional minus, the prefix of a radix and digits that write it, and no digit makes its 64-bit word smaller. |
| `Numbers.FittingIsRead` | `src/ecos/host/libcdl/cdlmisc.cxx:197-346` | In particular every number that fits is read with its sign, in any radix, with digits of either case and any leading white space. |
| `Integers.IntegerToString` | `src/ecos/host/libcdl/cdlmisc.cxx:433-540` | The conversion through the 24-byte buffer, filled from the back, yields the digits of the value in the requested format, with every write inside the buffer. |
| `Numbers.ShownAs` | `src/ecos/host/libcdl/cdlmisc.cxx:433-540` | What is shown is the sign and the decimal digits without leading zeros; a zero and the octal digits, of which a negative number has none; or 0x and the 8 or 16 capital hexadecimal digits of the word. |
| `Integers.BufferIsLargeEnough` | `src/ecos/host/libcdl/cdlmisc.cxx:433-540` | No 64-bit value needs more than the buffer holds. |
| `Integers.RoundTripIff` | `src/ecos/host/libcdl/cdlmisc.cxx:197-540` | string_to_integer undoes integer_to_string if and only if the value is not the minimum and, in hexadecimal or octal, is not negative. |
| `Versions.CompareVersions` | `src/ecos/host/libcdl/cdlmisc.cxx:878-1014` | The hand-written comparison computes the recursive one, whose meaning the lemmas below pin down: `Versions.NumbersDecide`, `Versions.CharactersDecide` and `Versions.LongerIs`. |
| `Versions.NumbersDecide` | `src/ecos/host/libcdl/cdlmisc.cxx:954-977` | After a common start the larger number is newer, whatever leading zeros the two have and whatever follows them; equal numbers do not decide. |
| `Versions.CharactersDecide` | `src/ecos/host/libcdl/cdlmisc.cxx:979-1011` | Where two versions differ in a character, a separator is newer than any other character, and otherwise the larger character code is. |
| `Versions.LongerIs` | `src/ecos/host/libcdl/cdlmisc.cxx:929-952` | A version that goes on with a separator is newer than what it begins with, one that goes on with anything else is older. |
| `Versions.LeadingVIsIgnored` | `src/ecos/host/libcdl/cdlmisc.cxx:910-917` | A v in front of both versions, in either case, does not matter. |
| `Versions.CompareAfter` | `src/ecos/host/libcdl/cdlmisc.cxx:919-1011` | After a common start that does not end inside a number two versions compare as what is left of them. |
| `Versions.CompareIsKeyOrder` | `src/ecos/host/libcdl/cdlmisc.cxx:878-1014` | Comparing two version strings is lexicographic comparison of their token sequences, a leading v in either case counting as v, if and only if neither starts with an upper-case V while the other starts with a character between V and v that is no separator. |
| `Versions.Antisymmetric` | `src/ecos/host/libcdl/cdlmisc.cxx:878-1014` | Exchanging the arguments always changes the sign of the result. |
| `Versions.OrderedWithoutClash` | `src/ecos/host/libcdl/cdlmisc.cxx:878-1014` | Among strings that do not clash in this way the comparison is transitive, zero exactly for equal token sequences, and has "current" strictly newest. |
| `Versions.TransitiveIff` | `src/ecos/host/libcdl/cdlmisc.cxx:878-1014` | Among any versions that occur with their lower-case forms, the comparison is transitive if and only if no two of them clash. |
| `Versions.TotalPreorder` | `src/ecos/host/libcdl/cdlmisc.cxx:878-1014` | In particular it orders all strings that do not start with an upper-case V, so sorting those is well defined. |
| `Versions.ClashMakesCircle` | `src/ecos/host/libcdl/cdlmisc.cxx:878-1014` | Any two strings that clash and the lower-case form of the first are put in a circle. |
| `Versions.SeparatorsAreInterchangeable` | `src/ecos/host/libcdl/cdlmisc.cxx:878-1014` | Which of full stop, hyphen and underscore a version uses as separators does not change its comparison with any version, on either side. |
| `Versions.FitsIntIff` | `src/ecos/host/libcdl/cdlmisc.cxx:959-975` | Reading a run of digits into an int overflows nowhere on the way if and only if its value is at most 2147483647; up to there the comparison in ints is the one proved here. |
| `Versions.LexZeroIsEqual` | `src/ecos/host/libcdl/cdlmisc.cxx:878-1014` | The comparison is zero exactly for equal token sequences. |
| `Substrings.IsSubstrFind` | `src/ecos/host/libcdl/func.cxx:255-308` | Finds the leftmost match whose stripped ends respect the required boundaries, and npos exactly if there is none. |
| `Substrings.FindBounded` | `src/ecos/host/libcdl/func.cxx:270-300` | The search loop skips no match. |
| `Substrings.IsSubstrEdit` | `src/ecos/host/libcdl/func.cxx:330-385` | The inference loop turns the haystack into its specified edit and ends, wherever it can end. |
| `Substrings.IsXSubstrEdit` | `src/ecos/host/libcdl/func.cxx:422-475` | The same without boundaries. |
| `Substrings.FoundIff` | `src/ecos/host/libcdl/func.cxx:255-308` | A needle is found if and only if its core stands somewhere in the text, next to white space or the ends of the text on the sides where it begins or ends with a space. |
| `Substrings.EditIs` | `src/ecos/host/libcdl/func.cxx:360-375` | A text for which the goal holds is left alone; a needle that has to be there and is not is appended. |
| `Substrings.EditTakesLeftmost` | `src/ecos/host/libcdl/func.cxx:363-375` | A needle that has to go loses its leftmost core, and so on with what is left. |
| `Substrings.EditAchievesGoal` | `src/ecos/host/libcdl/func.cxx:363-375` | For either function and either goal, whenever the erase loop ends the needle occurs after the edit if and only if that was the goal. |
| `Substrings.EraseAllRemovesCopies` | `src/ecos/host/libcdl/func.cxx:363-375` | When the goal is false, what is lost is exactly some number of copies of the stripped needle. |
| `Substrings.LoopEndsIff` | `src/ecos/host/libcdl/func.cxx:363-375` | The erase loop ends if and only if the stripped needle is not empty or does not occur to begin with. |
| `Substrings.RoundsRepeat` | `src/ecos/host/libcdl/func.cxx:363-375` | With a needle that is empty after stripping every round leaves the haystack as it was, so a loop that has begun goes on for ever. |
| `Substrings.TwoSpaces` | `src/ecos/host/libcdl/func.cxx:255-308` | A needle of two spaces does not occur in "ab", where the loop ends at once, and occurs in "a ", where it never ends. |
| `References.Bindings.Unbind` | `src/ecos/host/libcdl/refer.cxx:268-290` | Unbinding erases the first matching referrer at the destination and clears the destination. |
| `References.NoteCounts` | `src/ecos/host/libcdl/conflict.cxx:90-119` | A new conflict makes one more live conflict for its property and name, and none for any other. |
| `References.Bindings.ClearUnresolved` | `src/ecos/host/libcdl/transact.cxx:1432-1466` | The first live conflict is deleted if the transaction made it and marked as cleared otherwise. |
| `References.Bindings.Loaded` | `src/ecos/host/libcdl/expr.cxx:2602-2616` | A Loaded update binds each reference whose name is known and makes one conflict for each other. |
| `References.Bindings.Unloading` | `src/ecos/host/libcdl/expr.cxx:2618-2632` | An Unloading update unbinds every bound reference and makes no conflict. |
| `References.Bindings.Created` | `src/ecos/host/libcdl/expr.cxx:2634-2662` | A Created update binds the first reference that waits for the name and clears one conflict for it. |
| `References.Bindings.Destroyed` | `src/ecos/host/libcdl/expr.cxx:2665-2679` | A Destroyed update unbinds the first reference to the node and makes one conflict. |
| `References.OnlyIsFirst` | `src/ecos/host/libcdl/property.cxx:585-655` | For a property with one reference the two ways of updating agree. |
| `References.BindCounts` | `src/ecos/host/libcdl/refer.cxx:244-262` | Binding keeps referrers and references tied and takes one open reference away. |
| `References.UnbindCounts` | `src/ecos/host/libcdl/refer.cxx:268-290` | Unbinding keeps referrers and references tied and leaves one more open reference. |
| `References.LoadKeeps` | `src/ecos/host/libcdl/expr.cxx:2602-2616` | After loading a property each reference is bound to what its name stands for or has a conflict of its own, name by name and with multiplicity. |
| `References.CreateKeeps` | `src/ecos/host/libcdl/expr.cxx:2634-2662` | Settling one conflict keeps open references and live conflicts equal in number for every property and name. |
| `References.DestroyKeeps` | `src/ecos/host/libcdl/expr.cxx:2665-2679` | A Destroyed update keeps them equal too, and takes exactly one referrer of the node away. |
| `References.AdoptedLive` | `src/ecos/host/libcdl/transact.cxx:2134-2184` | Committing a transaction changes no live conflict. |
| `References.Bindings.Adopt` | `src/ecos/host/libcdl/transact.cxx:2134-2184` | The transaction's conflicts join those of the toplevel, and those marked as cleared are deleted. |
| `Hierarchy.Tree.Contains` | `src/ecos/host/libcdl/base.cxx:776-802` | Recursive contains() finds a node exactly if the container is one of its proper ancestors, and ends. |
| `Hierarchy.Tree.ChangeParent` | `src/ecos/host/libcdl/base.cxx:1970-1999` | Reparenting keeps parent fields and contents vectors in agreement and makes no cycle, and puts the node at the given position or at the end. |
| `Hierarchy.Tree.OnFound` | `src/ecos/host/libcdl/base.cxx:3646-3688` | A node moves below the destination of its parent property unless that is no container or lies below the node; exactly then a Data conflict is made and the node stays. |
| `Hierarchy.Tree.OnMissing` | `src/ecos/host/libcdl/base.cxx:3599-3644` | Without a destination a node becomes an orphan, or, if the property names nothing, goes to the position of the first node that was not specifically put below the toplevel; its Data conflicts go. |
| `Hierarchy.Tree.OnUnloading` | `src/ecos/host/libcdl/base.cxx:3573-3588` | On unloading a loadable goes below the toplevel and any other node below its loadable. |
| `Hierarchy.Tree.FrontFits` | `src/ecos/host/libcdl/base.cxx:3609-3625` | The front position is still a position after the node was taken out, because the container for orphans has no parent property. |
| `Hierarchy.AheadIff` | `src/ecos/host/libcdl/base.cxx:3609-3625` | At that position it stands ahead of everything that was not specifically put below the toplevel if and only if it was not among the nodes in front already. |
| `Hierarchy.BelowChild` | `src/ecos/host/libcdl/base.cxx:776-802` | A node is properly below another if and only if it is one of that node's contents or below one of them. |
| `Hierarchy.MoveKeeps` | `src/ecos/host/libcdl/base.cxx:1970-1999` | A move of a node below one that is not below it keeps the hierarchy sound. |
| `Hierarchy.MovedIs` | `src/ecos/host/libcdl/base.cxx:1970-1999` | After a move the node stands at the position asked for, or at the end if none was; in every contents vector all others keep their order. |
| `Hierarchy.AttachUndoesDetach` | `src/ecos/host/libcdl/base.cxx:1819-1916` | A node taken out and put back at the recorded position leaves every contents vector as it was. |
| `Hierarchy.Tree.AddNode` | `src/ecos/host/libcdl/base.cxx:1769-1811` | A new node goes to the end of its parent's contents. |
| `Loading.Toplevel.UpdateLoaded` | `src/ecos/host/libcdl/property.cxx:585-655` | A Loaded update of any property keeps references, conflicts and places in order and accounts for one more property. |
| `Loading.Toplevel.UpdateCreated` | `src/ecos/host/libcdl/property.cxx:585-655` | So does a Created update, the move of a node with a parent property included. |
| `Loading.Toplevel.UpdateDestroyed` | `src/ecos/host/libcdl/property.cxx:585-655` | So does a Destroyed update; it takes exactly one referrer away and touches no other node's referrers. |
| `Loading.Toplevel.UpdateUnloading` | `src/ecos/host/libcdl/property.cxx:585-655` | So does an Unloading update, which moves nothing but a node with a parent property. |
| `Loading.Toplevel.ResolveAt` | `src/ecos/host/libcdl/base.cxx:1210-1235` | While the new conflicts are iterated over, the conflict that an update deletes is the one the iteration stands at. |
| `Loading.Toplevel.ResolveStandingAt` | `src/ecos/host/libcdl/base.cxx:1237-1252` | The same for the conflicts of the toplevel, where it is marked. |
| `Loading.Toplevel.Bind` | `src/ecos/host/libcdl/base.cxx:1184-1278` | After binding a loadable every reference of every loaded node that can be bound is bound. |
| `Loading.Toplevel.DesertNode` | `src/ecos/host/libcdl/base.cxx:1291-1303` | The loop over the referrers of a node ends, because each update removes exactly one. |
| `Loading.Toplevel.UnloadAll` | `src/ecos/host/libcdl/base.cxx:1304-1313` | The loadable comes first and moves below the toplevel, so that no later move of its nodes can make a cycle. |
| `Loading.Toplevel.Unbind` | `src/ecos/host/libcdl/base.cxx:1281-1359` | After unbinding a loadable it is isolated: it lies directly below the toplevel, its nodes below each other, no other node below them, no reference leads to or from them and no conflict is left of them. All other references are as they were. |
| `Loading.NoneWaitsIsComplete` | `src/ecos/host/libcdl/base.cxx:1206-1252` | When no live conflict names a known node, no reference that could be bound is unbound. |
| `Packages.RemoveLoadable` | `src/ecos/host/libcdl/base.cxx:1868-1885` | Takes all names and toplevel fields of a package back to front, and records where the loadable was among the contents and among the loadables. |
| `Packages.AddLoadable` | `src/ecos/host/libcdl/base.cxx:1891-1938` | Puts them back front to back, at the recorded positions, on the conditions that the assertions state: a position past the end is undefined. |
| `Packages.AddNode` | `src/ecos/host/libcdl/base.cxx:1769-1811` | Adding a node keeps references and places in order. |
| `Packages.Enter` | `src/ecos/host/libcdl/base.cxx:1769-1811` | Entering the nodes of a script one by one counts a name that is taken as an error and leaves that node out; without errors exactly the declared nodes have been entered, and there are none exactly if all names are new and distinct. |
| `Packages.Abandon` | `src/ecos/host/libcdl/config.cxx:867-886` | The catch block of a load takes out and deletes whatever was entered, and everything is as it was. |
| `Packages.Load` | `src/ecos/host/libcdl/config.cxx:770-886` | Loading enters the nodes and binds; with errors in the script, or names that are taken, it takes out and deletes what was entered. Everything stays in order, and the register is the one before, with the package at the end if the load succeeded. |
| `Packages.Unload` | `src/ecos/host/libcdl/config.cxx:940-950` | Unloading leaves everything in order and the register without the package; the package stays recorded, at a position that is in range right after, and no node becomes stuck directly below the toplevel. |
| `Packages.UnloadInVain` | `src/ecos/host/libcdl/config.cxx:952-963` | The catch block of an unload binds the package again, after putting it back if it had been removed, and table, toplevel fields and order of the loadables are what they were. |
| `Packages.Reload` | `src/ecos/host/libcdl/base.cxx:1426-1438` | Cancelling an unload is defined if and only if the recorded position is at most the size of the toplevel's contents; then it puts the package back at its recorded places and binds it again, with everything in order. |
| `Packages.CancelLoad` | `src/ecos/host/libcdl/base.cxx:1385-1400` | Cancelling a load unbinds, removes and deletes the package, with everything in order. |
| `Packages.DeletePackage` | `src/ecos/host/libcdl/base.cxx:1047-1084` | The loadable destructor deletes the nodes from the back; every node is empty when its turn comes, and in the end the loadable owns only itself. |
| `Packages.Childless` | `src/ecos/host/libcdl/base.cxx:740-749` | Whatever lies below a node of an isolated package is a younger node of the same package, so it has been deleted before. |
| `Packages.DestroyNode` | `src/ecos/host/libcdl/base.cxx:1944-1966` | remove_node() on an empty node erases it from its owner and its parent. |
| `Packages.UnloadUndoesLoad` | `src/ecos/host/libcdl/base.cxx:1769-1885` | Removing a package that was just added restores table, toplevel fields and loadables. |
| `Packages.ReloadUndoesUnload` | `src/ecos/host/libcdl/base.cxx:1819-1938` | Adding a package that was just removed, at the recorded place, restores them too. |
| `Packages.BoundIffKnown` | `src/ecos/host/libcdl/expr.cxx:2588-2689` | Between operations a reference of a loaded node is bound exactly when its name is in the table, and then to that entry; the live conflicts of a property equal its open references, name by name. |
| `Packages.BindingsAreDetermined` | `src/ecos/host/libcdl/expr.cxx:2588-2689` | Bindings and live conflicts depend only on the table of names, not on the order of loads and unloads that led to it. |
| `Packages.AllBelowTop` | `src/ecos/host/libcdl/base.cxx:1970-1999` | Every loaded node is below the toplevel: the hierarchy is a tree at all times. |
| `Packages.ParentIsAsAsked` | `src/ecos/host/libcdl/base.cxx:3548-3693` | A node whose parent property names a known node is below that node or carries a Data conflict; one that names an unknown node is an orphan, and one that names nothing is directly below the toplevel; without a parent property a loadable is directly below the toplevel and any other node is below its own package. |
| `Packages.AdoptConflicts` | `src/ecos/host/libcdl/transact.cxx:2134-2184` | Committing leaves everything in order. |
| `Packages.DiscardedLive` | `src/ecos/host/libcdl/transact.cxx:1779-1794` | When the table is what it was when the transaction started, the unresolved conflicts that stood then are again exactly as many as those that open references need. |
| `Packages.DiscardConflicts` | `src/ecos/host/libcdl/transact.cxx:1779-1794` | Discarding the conflicts of a cancelled transaction and lifting its marks leaves everything in order. |
| `Reversal.AddedUndoesRemoved` | `src/ecos/host/libcdl/base.cxx:1819-1938` | Putting back what was just taken out is in range and restores table, toplevel fields, toplevel contents in order and loadables in order. |
| `Reversal.ReverseRestores` | `src/ecos/host/libcdl/base.cxx:1819-1938` | So does putting back any sequence of packages in reverse order. |
| `Reversal.PresentAreRemovable` | `src/ecos/host/libcdl/base.cxx:1819-1938` | Any sequence of distinct packages that are present qualifies. |
| `Reversal.PastTheEnd` | `src/ecos/host/libcdl/base.cxx:1902-1907` | Where a refused move went to the orphans in the meantime the recorded position can be past the end: 3 in contents of size 2. |
| `Positions.StuckIff` | `src/ecos/host/libcdl/base.cxx:3652-3686` | A node is stuck, directly below the toplevel with its move refused, if and only if it is there and its parent property names a known node. |
| `Positions.RoomIsKept` | `src/ecos/host/libcdl/base.cxx:1832-1907` | The contents of the toplevel always hold at least the orphans' container, the loadables without a parent property and the nodes whose parent property names nothing, and nothing else in calm, that is while no node is stuck. |
| `Positions.NoneLeaves` | `src/ecos/host/libcdl/config.cxx:770-886` | When a package was loaded and has gone again, everything that was directly below the toplevel still is. |
| `Reversal.LoadedAreRestored` | `src/ecos/host/libcdl/base.cxx:1819-1938` | In a configuration that is in order, any distinct loaded packages directly below the toplevel can be taken out one after the other, and putting them back in reverse order restores everything. |
| `Rollback.Configuration.LoadPackage` | `src/ecos/host/libcdl/config.cxx:724-886` | A load succeeds if and only if the package is known, its script is found and has no errors, its names are free and the operation can be recorded. It is then logged together with what cancels it, its name leads to the new package, and that is the last of the loadables; otherwise register, log and packages are as they were, and whatever fitted back into the toplevel's contents still does. |
| `Rollback.Configuration.UndoLoad` | `src/ecos/host/libcdl/config.cxx:867-886` | A package that was bound and could not be recorded is unbound, taken out and deleted, and the contents of the toplevel are no shorter than before it was loaded. |
| `Rollback.Configuration.UnloadPackage` | `src/ecos/host/libcdl/config.cxx:940-966` | An unload that succeeds is logged, with the moment at which it began, and could be cancelled at once; one that fails after unbinding or after removal is undone. Unloads keep calm: none makes a node stuck. |
| `Rollback.Configuration.CancelLast` | `src/ecos/host/libcdl/transact.cxx:1590-1603` | Cancelling the last operation is defined if and only if the position of a package that has to be put back is in range, which it is if that unload began in calm. Then it restores the register, and the hardware name if the operation changed it, and leaves a log that can still be cancelled. |
| `Rollback.Configuration.CancelBack` | `src/ecos/host/libcdl/config.cxx:1088-1095` | The do/while loop cancels exactly the operations up to and including the given one and restores the register before it; all of it is defined if every unload among them began in calm. |
| `Rollback.Configuration.DropHardware` | `src/ecos/host/libcdl/config.cxx:1049-1056` | The backward loop that unloads while it iterates succeeds if and only if no unloading of a flagged package goes wrong, and leaves exactly the packages that are not flagged, in their order. |
| `Rollback.Configuration.LoadTarget` | `src/ecos/host/libcdl/config.cxx:1060-1080` | It succeeds if and only if all packages can be loaded that the database knows and whose names are not in use when their turn comes. Then every package of the target is in the table; in any case those that are new come after those that were there, and the flags grow by exactly the new ones. |
| `Rollback.Configuration.SetHardware` | `src/ecos/host/libcdl/config.cxx:1029-1096` | All or nothing, with the exact condition for success: if anything goes wrong, table, toplevel fields, order of the loadables, hardware name, log and flags are what they were; otherwise the packages of the old hardware are gone, all others stay, those of the target are there, and a package is flagged if and only if it was not loaded before. It is defined if it begins in calm, as the unloads come first and keep it. |
| `Rollback.Configuration.UnloadHardware` | `src/ecos/host/libcdl/config.cxx:1192-1228` | It succeeds if and only if no unloading goes wrong, and then leaves exactly the packages that were not flagged before the call, in their order; otherwise all is as it was. No flag changes. |
| `Rollback.Configuration.SetAndUnloadHardware` | `src/ecos/host/libcdl/config.cxx:1029-1228` | Setting the hardware and unloading it again leaves exactly those earlier packages that were not flagged, in their order, and succeeds whenever the packages can be loaded and no unloading goes wrong. |
| `Rollback.Configuration.ChangeVersion` | `src/ecos/host/libcdl/config.cxx:977-1015` | A version change succeeds if and only if the old version can be unloaded and the new one loaded after it. Then the new version, which is not flagged, is at the end of the loadables in place of the old one; otherwise the old one is where it was. It is always defined, because a load that fails takes nothing from below the toplevel. No other flag changes. |
| `Rollback.Configuration.CancelAll` | `src/ecos/host/libcdl/transact.cxx:1763-1794` | If every unload of a transaction began in calm, cancelling it is defined: it restores the register and the hardware name that it started from, discards its unresolved conflicts and lifts its marks, and what stands then is again what the open references need. |
| `Rollback.Configuration.Commit` | `src/ecos/host/libcdl/transact.cxx:2134-2210` | Committing deletes exactly the packages that were unloaded and keeps everything in order. |
| `Rollback.SameTableSameBindings` | `src/ecos/host/libcdl/config.cxx:1085-1096` | Where the table of names is restored, so is every binding and every live conflict of a property loaded before and after. |
| `Activation.Propagation.SetActive` | `src/ecos/host/libcdl/transact.cxx:688-710` | Sets the activity of one node and queues it. |
| `Activation.Propagation.Update` | `src/ecos/host/libcdl/base.cxx:883-921` | Makes the activity of all contents of a container what test_active says, and queues those that changed. |
| `Activation.Propagation.Enable` | `src/ecos/host/libcdl/transact.cxx:593-630` | A container that is enabled or disabled is queued, so that every node is in line with its parent or its parent is queued. |
| `Activation.Propagation.Want` | `src/ecos/host/libcdl/value.cxx:2009-2035` | So it stays when the conditions of a node change and the node is checked again. |
| `Activation.Propagation.Moved` | `src/ecos/host/libcdl/base.cxx:3638-3644` | So it stays when a node is moved to another parent and is checked there. |
| `Activation.Propagation.Activate` | `src/ecos/host/libcdl/base.cxx:1265-1275` | The last loop of bind() brings it about for the nodes of a new package. |
| `Activation.Propagation.Propagate` | `src/ecos/host/libcdl/transact.cxx:1638-1712` | From there, draining the queue ends, with every node exactly as active as test_active says. |
| `Activation.Propagation.SettledMeansDeserved` | `src/ecos/host/libcdl/base.cxx:500-519` | Once the queue is drained, a node is active if and only if its own conditions hold and everything above it is active and enabled. |
| `EvalConflicts.Transaction.Eval` | `src/ecos/host/libcdl/expr.cxx:2702-2742` | The bookkeeping around an evaluation, step by step, computes its functional description. |
| `EvalConflicts.LiveIffRaised` | `src/ecos/host/libcdl/expr.cxx:2702-2742` | After an evaluation the property has one live conflict if it raised and none otherwise; other properties are not touched. |
| `EvalConflicts.OthersStay` | `src/ecos/host/libcdl/expr.cxx:2702-2742` | The conflicts of other properties stay as they are and in their order, and no conflict of the configuration is unmarked. |
| `EvalConflicts.RunLiveIffLastRaised` | `src/ecos/host/libcdl/expr.cxx:2702-2742` | After any sequence of evaluations at most one conflict is live, and one is exactly if the last evaluation raised. |
| `EvalConflicts.CarriedNext` | `src/ecos/host/libcdl/expr.cxx:2725-2735` | What the live conflict carries depends only on what it carried before and on the outcome. |
| `EvalConflicts.RunTellsLatestIff` | `src/ecos/host/libcdl/conflict.cxx:783-815` | After each of any number of evaluations the live conflict carries the latest message, if and only if none of them raises the whole explanation of the conflict that was there. |
| `EvalConflicts.PlainMessagesTellLatest` | `src/ecos/host/libcdl/conflict.cxx:783-815` | That is so whenever no message starts like an explanation, with the name of the node and the property. |
| `EvalConflicts.SameMessageReplaces` | `src/ecos/host/libcdl/conflict.cxx:783-815` | The same message raised again replaces the conflict, because an explanation always differs from its message. |
| `BuildSteps.SplitCustomBuildStep` | `src/ecos/host/libcdl/build.cxx:238-339` | The pointer-driven splitter computes the recursive one, with the same errors; what that is for which data, blanks in front of lines included, `BuildSteps.SplitOfWritten` says without it. |
| `BuildSteps.SplitOfWritten` | `src/ecos/host/libcdl/build.cxx:238-339` | White space, a target, blanks, a colon, blanks, dependencies, a newline or semicolon, and lines with any blanks in front are split into target, dependencies, and every line without its blanks and with a newline. |
| `BuildSteps.SplitIsWritten` | `src/ecos/host/libcdl/build.cxx:238-339` | Conversely whatever is split without an error has been written in this way. |
| `BuildSteps.SplitToDeps` | `src/ecos/host/libcdl/build.cxx:276-339` | After target and colon: no dependencies, no newline or semicolon after them, or no character after that raise the three errors, each in its turn. |
| `BuildSteps.SplitWithoutColon` | `src/ecos/host/libcdl/build.cxx:248-275` | A target that no colon follows raises. |
| `BuildSteps.SplitOfNothing` | `src/ecos/host/libcdl/build.cxx:243-252` | Data of white space only raise. |
| `BuildSteps.SplitIsNormal` | `src/ecos/host/libcdl/build.cxx:238-339` | The target has no colon or blank, the dependencies are not empty and have no newline or semicolon, each rules line ends in a newline and starts with no blank. |
| `BuildSteps.SplitUndoesJoin` | `src/ecos/host/libcdl/build.cxx:238-339` | Joining any such triple and splitting it gives the triple back. |
| `BuildSteps.SplitIsStable` | `src/ecos/host/libcdl/build.cxx:238-339` | Whatever was split can be joined and split again without a change. |
| `BuildSteps.SplitsToIff` | `src/ecos/host/libcdl/build.cxx:238-339` | A triple comes out of splitting some string if and only if it is in that normal form. |
| `TraceRing.Trace.Write` | `src/ecos/host/infra/trace.cxx:170-346` | A trace call appends to the log; the ring keeps the latest calls. |
| `TraceRing.Trace.Dump` | `src/ecos/host/infra/trace.cxx:659-678` | The dump emits exactly the last min(n, N) of n calls, newest first, for a ring of any size N. |

## Left out

- Numbers with a fraction or an exponent, and double values altogether, count as bad or are absent: their conversions belong to the C library.
- Characters are those below 128 in the "C" locale.
- The texts of parse and evaluation errors, error locations and warnings are reduced to their kinds.
- Evaluation: shift counts are taken modulo 64, and the minimum integer divided by -1 wraps around; the C++ program leaves both undefined.
- Evaluation.FlatIsTree: no transaction context; goal evaluation that raises without one leaves its result unset in the original.
- Versions.CompareVersions: digit runs are compared as unbounded numbers, where the original accumulates them in an int; up to 2147483647 the two agree (`Versions.FitsIntIff`).
- Substrings.IsSubstrFind: a needle that is empty, or a single space, before stripping makes the original index out of range and is excluded.
- Substrings.IsSubstrEdit: runs of the erase loop that never end are excluded from the method; `Substrings.LoopEndsIff` says exactly which they are.
- Tokenizers.Tokenizer.NextToken: token_start of empty data is -1 as an integer, where the original wraps an unsigned one around.
- Nodes are identified by numbers and their fields are maps over these numbers, so aliasing between node objects is not modelled. Numbers grow in the order of construction.
- What a parsed script contains is a parameter: which nodes it constructs, below which containers, and with which references. Tcl, file search and the database are outside.
- Tokenizers.Tokenizer.ProcessNumber: a number with a fraction or an exponent raises, where the original makes a double constant.
- Goals.TruthsAgreeIff: of floating numbers only which texts spell zero is modelled, as ISO C99 defines strtod(); double values that an expression computes are not.
- Rollback.Configuration.LoadPackage: an exception in the middle of bind(), the limbo, and the value that a package gets in the end.
- Rollback.Configuration.UnloadPackage: an exception in the middle of unbind(), which the original does not undo, and the limbo.
- Packages.AddLoadable: what insertion at a position past the end does is undefined in the original, and nothing is said of it here; `Packages.Reload` says exactly when that happens.
- Rollback.Configuration.CancelAll: only unresolved conflicts are discarded and restored. The Data conflicts of refused parent moves stay with the places that nodes have after the cancel; which of two mutually exclusive moves is the refused one can change, so those from before need not fit.
- Rollback.Configuration.SetHardware: option settings of the target, the limbo, and value changes of packages are left out.
- The references of the parts of a list or goal expression are treated as one sequence, in the order in which they are updated.
- Sub-transactions: a transaction has no parent here.
- Loading.Toplevel.Bind: the Init update, which evaluates defaults, is left out; the activity test at its end is `Activation.Propagation.Activate`, apart from the rest.
- Activation.Propagation.Propagate: changes that referrers make while the queue is drained, and nodes that are not loaded, are left out.
- EvalConflicts.Transaction.Eval: evaluation always has a transaction, a node and a property.
- TraceRing.Trace.Write: one thread only.
- The inference engine, values and their sources, save files, header generation, dialogs and wizards, interfaces, cleanup_orphans(), check_this() and the memory-leak counters would add easy members or belong to other parts.
