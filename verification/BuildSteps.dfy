/** Custom build steps: one string that is taken apart into a target, its dependencies and the
    rules to make it. */
module BuildSteps {
  import opened Wrappers
  import opened Ascii
  import Integers

  datatype Step = Step(target: string, deps: string, rules: string)

  datatype SplitError = NoData | NoColon(target: string) | NoDependencies(target: string) | NoRuleLines | NoRules

  predicate Blank(c: char) {
    c == ' ' || c == '\t'
  }

  predicate InTarget(c: char) {
    c != ':' && !Blank(c)
  }

  predicate InDeps(c: char) {
    c != '\n' && c != ';'
  }

  predicate InLine(c: char) {
    c != '\n'
  }

  /** The longest prefix of characters of a class, and what comes after it. */
  function Prefix(s: string, p: char -> bool): (r: string)
    ensures r <= s && forall c | c in r :: p(c)
  {
    if s != [] && p(s[0]) then [s[0]] + Prefix(s[1..], p) else []
  }

  function After(s: string, p: char -> bool): (r: string)
    ensures |r| <= |s| && (r != [] ==> !p(r[0]))
  {
    if s != [] && p(s[0]) then After(s[1..], p) else s
  }

  lemma {:induction false} PrefixAfter(s: string, p: char -> bool)
    ensures Prefix(s, p) + After(s, p) == s
    ensures forall c :: c in s <==> c in Prefix(s, p) || c in After(s, p)
  {
    if s != [] && p(s[0]) {
      PrefixAfter(s[1..], p);
    }
  }

  /** Characters of a class in front of one that is not are what is found there again. */
  lemma {:induction false} Spans(r: string, rest: string, p: char -> bool)
    requires (forall c | c in r :: p(c)) && (rest == [] || !p(rest[0]))
    ensures Prefix(r + rest, p) == r && After(r + rest, p) == rest
  {
    if r == [] {
      assert r + rest == rest;
    } else {
      assert (r + rest)[1..] == r[1..] + rest;
      Spans(r[1..], rest, p);
    }
  }

  // ---------------------------------------------------------------------------------------
  // Taking apart.

  /** The rules: leading blanks of each line go, and each line gets a newline. */
  function Lines(s: string): (r: string)
    ensures s != [] ==> r != []
    decreases |s|
  {
    if s == [] then []
    else
      var line := After(s, Blank);
      var rest := After(line, InLine);
      Prefix(line, InLine) + "\n" + Lines(if rest == [] then [] else rest[1..])
  }

  function Split(data: string): Result<Step, SplitError> {
    var s := After(Integers.CString(data), IsSpace);
    if s == [] then Failure(NoData) else SplitData(s)
  }

  /** From the target on. */
  function SplitData(s: string): Result<Step, SplitError> {
    var target := Prefix(s, InTarget);
    var colon := After(After(s, InTarget), Blank);
    if colon == [] || colon[0] != ':' then Failure(NoColon(target))
    else SplitRest(target, After(colon[1..], Blank))
  }

  /** From the dependencies on. */
  function SplitRest(target: string, line: string): Result<Step, SplitError> {
    var deps := Prefix(line, InDeps);
    var rest := After(line, InDeps);
    if deps == [] then Failure(NoDependencies(target)) else
    if rest == [] then Failure(NoRuleLines) else
    var rules := Lines(rest[1..]);
    if rules == [] then Failure(NoRules) else
    Success(Step(target, deps, rules))
  }

  method Skip(s: string, start: nat, p: char -> bool) returns (ptr: nat)
    requires start <= |s|
    ensures start <= ptr <= |s| && s[ptr..] == After(s[start..], p) && s[start..ptr] == Prefix(s[start..], p)
  {
    ptr := start;
    while ptr < |s| && p(s[ptr])
      invariant start <= ptr <= |s|
      invariant After(s[start..], p) == After(s[ptr..], p)
    {
      assert s[ptr..][1..] == s[ptr + 1..];
      ptr := ptr + 1;
    }
    SplitPoint(s, start, ptr, p);
  }

  lemma SplitPoint(s: string, start: nat, ptr: nat, p: char -> bool)
    requires start <= ptr <= |s| && After(s[start..], p) == s[ptr..]
    ensures s[start..ptr] == Prefix(s[start..], p)
  {
    PrefixAfter(s[start..], p);
    var r := Prefix(s[start..], p);
    assert r == s[start..][..|r|];
  }

  /** CdlBuildableBody::split_custom_build_step */
  method SplitCustomBuildStep(data: string) returns (r: Result<Step, SplitError>)
    ensures r == Split(data)
  {
    var s := Integers.CString(data);
    assert s[0..] == s;
    var ptr := Skip(s, 0, IsSpace);
    if ptr == |s| {
      return Failure(NoData);
    }
    r := SplitTarget(s, ptr);
  }

  method SplitTarget(s: string, start: nat) returns (r: Result<Step, SplitError>)
    requires start <= |s|
    ensures r == SplitData(s[start..])
  {
    var end := Skip(s, start, InTarget);
    var target := s[start..end];
    var ptr := Skip(s, end, Blank);
    if ptr == |s| || s[ptr] != ':' {
      return Failure(NoColon(target));
    }
    assert s[ptr..][1..] == s[ptr + 1..];
    ptr := Skip(s, ptr + 1, Blank);
    r := SplitDependencies(target, s, ptr);
  }

  method SplitDependencies(target: string, s: string, ptr: nat) returns (r: Result<Step, SplitError>)
    requires ptr <= |s|
    ensures r == SplitRest(target, s[ptr..])
  {
    var end := Skip(s, ptr, InDeps);
    var deps := s[ptr..end];
    if deps == "" {
      return Failure(NoDependencies(target));
    }
    if end == |s| {
      return Failure(NoRuleLines);
    }
    assert s[end..][1..] == s[end + 1..];
    var rules := CollectRules(s, end + 1);
    if rules == "" {
      return Failure(NoRules);
    }
    r := Success(Step(target, deps, rules));
  }

  method CollectRules(s: string, start: nat) returns (rules: string)
    requires start <= |s|
    ensures rules == Lines(s[start..])
  {
    rules := "";
    var ptr := start;
    while ptr < |s|
      invariant start <= ptr <= |s|
      invariant Lines(s[start..]) == rules + Lines(s[ptr..])
    {
      var line, next := CollectLine(s, ptr);
      assert rules + (line + Lines(s[next..])) == rules + line + Lines(s[next..]);
      rules := rules + line;
      ptr := next;
    }
  }

  method CollectLine(s: string, ptr: nat) returns (line: string, next: nat)
    requires ptr < |s|
    ensures ptr < next <= |s| && Lines(s[ptr..]) == line + Lines(s[next..])
  {
    var start := Skip(s, ptr, Blank);
    var end := Skip(s, start, InLine);
    line := s[start..end] + "\n";
    next := if end < |s| then end + 1 else end;
    assert end < |s| ==> s[end..][1..] == s[end + 1..];
    assert end == |s| ==> s[end..] == [];
  }

  // ---------------------------------------------------------------------------------------
  // The parts are a normal form.

  /** Lines that end in a newline and start with no blank. */
  predicate NormalLines(rules: string)
    decreases |rules|
  {
    rules == [] ||
    (var rest := After(rules, InLine);
     rest != [] && !Blank(rules[0]) && NormalLines(rest[1..]))
  }

  predicate NormalStep(step: Step) {
    && '\0' !in step.target + step.deps + step.rules
    && (forall c | c in step.target :: InTarget(c)) && (step.target != [] ==> !IsSpace(step.target[0]))
    && step.deps != [] && (forall c | c in step.deps :: InDeps(c)) && !Blank(step.deps[0])
    && step.rules != [] && NormalLines(step.rules)
  }

  function Join(step: Step): string {
    step.target + " : " + step.deps + "\n" + step.rules
  }

  /** What is left after the first line. */
  function Below(s: string): (r: string)
    ensures |r| <= |s| && (s != [] ==> |r| < |s|)
  {
    var rest := After(After(s, Blank), InLine);
    if rest == [] then [] else rest[1..]
  }

  lemma {:induction false} LinesAreNormal(s: string)
    requires '\0' !in s
    ensures NormalLines(Lines(s))
    decreases |s|
  {
    if s != [] {
      var line := After(s, Blank);
      NoNulAfter(s, Blank);
      NoNulAfter(line, InLine);
      LinesAreNormal(Below(s));
      PrefixAfter(line, InLine);
      FirstLineIsNormal(Prefix(line, InLine), Lines(Below(s)));
    }
  }

  lemma FirstLineIsNormal(text: string, rules: string)
    requires (forall c | c in text :: InLine(c)) && (text != [] ==> !Blank(text[0])) && NormalLines(rules)
    ensures NormalLines(text + "\n" + rules)
  {
    Glue(text, "\n", rules);
    Spans(text, "\n" + rules, InLine);
    assert ("\n" + rules)[1..] == rules;
  }

  lemma {:induction false} LinesHaveNoNul(s: string)
    requires '\0' !in s
    ensures '\0' !in Lines(s)
    decreases |s|
  {
    if s != [] {
      NoNulAfter(s, Blank);
      NoNulAfter(After(s, Blank), InLine);
      LinesHaveNoNul(Below(s));
    }
  }

  lemma Glue(a: string, b: string, c: string)
    ensures a + b + c == a + (b + c)
  {
  }

  lemma {:induction false} NormalLinesStay(rules: string)
    requires NormalLines(rules)
    ensures Lines(rules) == rules
    decreases |rules|
  {
    if rules != [] {
      var text, rest := Prefix(rules, InLine), After(rules, InLine);
      PrefixAfter(rules, InLine);
      NormalLinesStay(rest[1..]);
      assert After(rules, Blank) == rules;
      assert Lines(rules) == text + "\n" + Lines(rest[1..]);
      assert rest == "\n" + rest[1..];
      Glue(text, "\n", rest[1..]);
    }
  }

  lemma NoNulAfter(s: string, p: char -> bool)
    requires '\0' !in s
    ensures '\0' !in Prefix(s, p) && '\0' !in After(s, p)
  {
    PrefixAfter(s, p);
  }

  /** Splitting yields parts in normal form. */
  lemma SplitIsNormal(data: string)
    requires Split(data).Success?
    ensures NormalStep(Split(data).value)
  {
    var all := Integers.CString(data);
    NoNulAfter(all, IsSpace);
    var s := After(all, IsSpace);
    NoNulAfter(s, InTarget);
    var blanks := After(s, InTarget);
    NoNulAfter(blanks, Blank);
    var colon := After(blanks, Blank);
    NoNulAfter(colon[1..], Blank);
    var target := Prefix(s, InTarget);
    assert target != [] ==> target[0] == s[0];
    RestIsNormal(target, After(colon[1..], Blank));
  }

  lemma RestIsNormal(target: string, line: string)
    requires SplitRest(target, line).Success? && '\0' !in target && '\0' !in line
    requires (forall c | c in target :: InTarget(c)) && (target != [] ==> !IsSpace(target[0]))
    requires line != [] ==> !Blank(line[0])
    ensures NormalStep(SplitRest(target, line).value)
  {
    NoNulAfter(line, InDeps);
    LinesAreNormal(After(line, InDeps)[1..]);
    LinesHaveNoNul(After(line, InDeps)[1..]);
    var deps := Prefix(line, InDeps);
    assert deps != [] ==> deps[0] == line[0];
  }

  /** Parts in normal form are what splitting the joined string yields. */
  lemma SplitUndoesJoin(step: Step)
    requires NormalStep(step)
    ensures Split(Join(step)) == Success(step)
  {
    var data := Join(step);
    var afterDeps := "\n" + step.rules;
    var line := step.deps + afterDeps;
    var colon := ":" + (" " + line);
    var spaced := " " + colon;
    assert data == step.target + spaced;
    assert Integers.CString(data) == data;
    if step.target == [] {
      assert data == " " + colon;
      Spans(" ", colon, IsSpace);
      Spans("", colon, InTarget);
      assert "" + colon == colon && [] + colon == colon;
      Spans("", colon, Blank);
    } else {
      Spans("", data, IsSpace);
      assert "" + data == data;
      Spans(step.target, spaced, InTarget);
      Spans(" ", colon, Blank);
    }
    assert colon[1..] == " " + line;
    Spans(" ", line, Blank);
    Spans(step.deps, afterDeps, InDeps);
    assert afterDeps[1..] == step.rules;
    NormalLinesStay(step.rules);
  }

  /** Whatever was split can be joined and split again without a change. */
  lemma SplitIsStable(data: string)
    requires Split(data).Success?
    ensures Split(Join(Split(data).value)) == Split(data)
  {
    SplitIsNormal(data);
    SplitUndoesJoin(Split(data).value);
  }

  /** A triple comes out of splitting some string exactly if it is in normal form. */
  lemma SplitsToIff(step: Step)
    ensures (exists data :: Split(data) == Success(step)) <==> NormalStep(step)
  {
    if NormalStep(step) {
      SplitUndoesJoin(step);
    }
    forall data | Split(data) == Success(step)
      ensures NormalStep(step)
    {
      SplitIsNormal(data);
    }
  }

  // ---------------------------------------------------------------------------------------
  // What build steps may look like.

  datatype Line = Line(indent: string, text: string)

  predicate GoodLine(line: Line) {
    && (forall c | c in line.indent :: Blank(c)) && (forall c | c in line.text :: InLine(c) && c != '\0')
    && (line.text != "" ==> !Blank(line.text[0]))
  }

  /** Lines with newlines between them, and at the end too if the last line is terminated. A last line
      that is not has to have something in it. */
  predicate GoodLines(lines: seq<Line>, terminated: bool) {
    && (forall line | line in lines :: GoodLine(line))
    && (terminated || lines == [] || lines[|lines| - 1].indent + lines[|lines| - 1].text != "")
  }

  function Written(lines: seq<Line>, terminated: bool): string {
    if lines == [] then ""
    else if |lines| == 1 && !terminated then lines[0].indent + lines[0].text
    else lines[0].indent + (lines[0].text + ("\n" + Written(lines[1..], terminated)))
  }

  /** The texts of the lines, each with a newline. */
  function Texts(lines: seq<Line>): string {
    if lines == [] then "" else lines[0].text + "\n" + Texts(lines[1..])
  }

  lemma {:induction false} LinesOfWritten(lines: seq<Line>, terminated: bool)
    requires GoodLines(lines, terminated)
    ensures Lines(Written(lines, terminated)) == Texts(lines)
    decreases |lines|
  {
    if lines != [] {
      var (line, last) := (lines[0], |lines| == 1 && !terminated);
      var rest := if last then "" else "\n" + Written(lines[1..], terminated);
      assert GoodLine(line);
      assert last ==> line.text + rest == line.text && lines[|lines| - 1] == line;
      assert Written(lines, terminated) == line.indent + (line.text + rest);
      Spans(line.indent, line.text + rest, Blank);
      Spans(line.text, rest, InLine);
      if !last {
        LinesOfWritten(lines[1..], terminated);
        assert rest[1..] == Written(lines[1..], terminated);
      }
    }
  }

  /** A text as its longest prefix of a class, and what comes after it. */
  lemma TakenApart(s: string, p: char -> bool) returns (front: string, back: string)
    requires '\0' !in s
    ensures front == Prefix(s, p) && back == After(s, p) && s == front + back
    ensures '\0' !in front && '\0' !in back && (front != "" ==> front[0] == s[0])
  {
    front, back := Prefix(s, p), After(s, p);
    NoNulAfter(s, p);
    PrefixAfter(s, p);
  }

  /** The first line of a text, and what is left from its newline on. */
  lemma FirstLine(s: string) returns (first: Line, rest: string)
    requires '\0' !in s && s != ""
    ensures GoodLine(first) && s == first.indent + (first.text + rest)
    ensures '\0' !in rest && (rest != "" ==> rest[0] == '\n')
  {
    var line;
    var indent, text;
    indent, line := TakenApart(s, Blank);
    text, rest := TakenApart(line, InLine);
    first := Line(indent, text);
  }

  lemma PutsLine(first: Line, others: seq<Line>, terminated: bool, rest: string)
    requires GoodLine(first) && GoodLines(others, terminated) && rest == "\n" + Written(others, terminated)
    requires others == [] ==> terminated
    ensures GoodLines([first] + others, terminated)
    ensures Written([first] + others, terminated) == first.indent + (first.text + rest)
  {
    assert ([first] + others)[1..] == others;
  }

  /** Every text is written as lines in exactly this way. */
  lemma {:induction false} LinesOf(s: string) returns (lines: seq<Line>, terminated: bool)
    requires '\0' !in s
    ensures GoodLines(lines, terminated) && Written(lines, terminated) == s
    decreases |s|
  {
    lines, terminated := [], true;
    if s != "" {
      var first, rest := FirstLine(s);
      if rest == "" {
        lines, terminated := [first], false;
        assert first.text + rest == first.text;
      } else {
        var others;
        others, terminated := LinesOf(rest[1..]);
        terminated := terminated || others == [];
        assert rest == "\n" + rest[1..];
        PutsLine(first, others, terminated, rest);
        lines := [first] + others;
      }
    }
  }

  /** What a build step is written with besides its parts: white space in front, blanks around the
      colon, and the character before the rules. */
  datatype Spacing = Spacing(front: string, left: string, right: string, mark: char)

  predicate GoodSpacing(sp: Spacing) {
    && (forall c | c in sp.front :: IsSpace(c)) && (forall c | c in sp.left + sp.right :: Blank(c))
    && !InDeps(sp.mark)
  }

  predicate GoodTarget(target: string) {
    (forall c | c in target :: InTarget(c) && c != '\0') && (target != "" ==> !IsSpace(target[0]))
  }

  predicate GoodDeps(deps: string) {
    (forall c | c in deps :: InDeps(c) && c != '\0') && (deps != "" ==> !Blank(deps[0]))
  }

  lemma {:induction false} NoNulStays(s: string)
    requires '\0' !in s
    ensures Integers.CString(s) == s
  {
    if s != [] {
      NoNulStays(s[1..]);
    }
  }

  /** The spaces in front and the target are taken off. */
  lemma SplitFront(sp: Spacing, target: string, rest: string)
    requires GoodSpacing(sp) && GoodTarget(target) && '\0' !in rest && (rest != [] ==> !Blank(rest[0]))
    requires if target == "" then rest != "" && rest[0] == ':' else rest == "" || !InTarget(rest[0]) || sp.left != ""
    ensures Split(sp.front + (target + (sp.left + rest)))
         == if rest == [] || rest[0] != ':' then Failure(NoColon(target))
            else SplitRest(target, After(rest[1..], Blank))
  {
    var s := target + (sp.left + rest);
    assert forall c | c in sp.left :: Blank(c) by {
      forall c | c in sp.left
        ensures Blank(c)
      {
        assert c in sp.left + sp.right;
      }
    }
    assert '\0' !in sp.front + s;
    NoNulStays(sp.front + s);
    if target == "" {
      assert s == sp.left + rest && sp.front + s == (sp.front + sp.left) + rest;
      Spans(sp.front + sp.left, rest, IsSpace);
      assert "" + rest == rest && [] + rest == rest;
      Spans("", rest, InTarget);
      Spans("", rest, Blank);
    } else {
      assert s[0] == target[0];
      Spans(sp.front, s, IsSpace);
      AfterTarget(target, sp.left, rest);
    }
  }

  lemma AfterTarget(target: string, left: string, rest: string)
    requires (forall c | c in target :: InTarget(c)) && (forall c | c in left :: Blank(c))
    requires (rest != [] ==> !Blank(rest[0])) && (rest == "" || !InTarget(rest[0]) || left != "")
    ensures var s := target + (left + rest);
            Prefix(s, InTarget) == target && After(After(s, InTarget), Blank) == rest
  {
    assert left != "" ==> (left + rest)[0] == left[0];
    assert left == "" ==> left + rest == rest;
    Spans(target, left + rest, InTarget);
    Spans(left, rest, Blank);
  }

  // ---------------------------------------------------------------------------------------
  // Splitting any build step.

  /** All of a build step from the colon on. */
  function FromColon(sp: Spacing, deps: string, tail: string): string {
    ":" + (sp.right + (deps + tail))
  }

  function WriteStep(sp: Spacing, target: string, deps: string, tail: string): string {
    sp.front + (target + (sp.left + FromColon(sp, deps, tail)))
  }

  lemma SplitToDeps(sp: Spacing, target: string, deps: string, tail: string)
    requires GoodSpacing(sp) && GoodTarget(target) && GoodDeps(deps) && '\0' !in tail
    requires tail != "" ==> !InDeps(tail[0])
    ensures Split(WriteStep(sp, target, deps, tail))
         == if deps == "" then Failure(NoDependencies(target))
            else if tail == "" then Failure(NoRuleLines)
            else if Lines(tail[1..]) == "" then Failure(NoRules)
            else Success(Step(target, deps, Lines(tail[1..])))
  {
    var rest := FromColon(sp, deps, tail);
    forall c | c in sp.right
      ensures Blank(c)
    {
      assert c in sp.left + sp.right;
    }
    assert rest[1..] == sp.right + (deps + tail);
    SplitFront(sp, target, rest);
    assert deps == "" ==> deps + tail == tail;
    Spans(sp.right, deps + tail, Blank);
    Spans(deps, tail, InDeps);
  }

  /** Whatever the spacing, a build step is split into its target, its dependencies and its rules, of
      which every line loses the blanks in front and ends in a newline. */
  lemma SplitOfWritten(sp: Spacing, target: string, deps: string, lines: seq<Line>, terminated: bool)
    requires GoodSpacing(sp) && GoodTarget(target) && GoodDeps(deps) && GoodLines(lines, terminated)
    requires deps != "" && lines != []
    ensures Split(WriteStep(sp, target, deps, [sp.mark] + Written(lines, terminated)))
         == Success(Step(target, deps, Texts(lines)))
  {
    var tail := [sp.mark] + Written(lines, terminated);
    WrittenHasNoNul(lines, terminated);
    SplitToDeps(sp, target, deps, tail);
    assert tail[1..] == Written(lines, terminated);
    LinesOfWritten(lines, terminated);
  }

  lemma {:induction false} WrittenHasNoNul(lines: seq<Line>, terminated: bool)
    requires GoodLines(lines, terminated)
    ensures '\0' !in Written(lines, terminated)
    decreases |lines|
  {
    if lines != [] {
      assert GoodLine(lines[0]);
      if |lines| > 1 || terminated {
        WrittenHasNoNul(lines[1..], terminated);
      }
    }
  }

  /** The part of a build step that has been split from the colon on. */
  lemma RestIsWritten(target: string, s: string)
      returns (right: string, deps: string, mark: char, lines: seq<Line>, terminated: bool)
    requires '\0' !in s && SplitRest(target, After(s, Blank)).Success?
    ensures (forall c | c in right :: Blank(c)) && GoodDeps(deps) && !InDeps(mark) && GoodLines(lines, terminated)
    ensures deps != "" && lines != [] && s == right + (deps + ([mark] + Written(lines, terminated)))
    ensures SplitRest(target, After(s, Blank)) == Success(Step(target, deps, Texts(lines)))
  {
    var line, rest;
    right, line := TakenApart(s, Blank);
    deps, rest := TakenApart(line, InDeps);
    mark := rest[0];
    lines, terminated := LinesOf(rest[1..]);
    LinesOfWritten(lines, terminated);
    assert rest == [mark] + Written(lines, terminated);
  }

  /** The part before it. */
  lemma FrontIsWritten(data: string) returns (front: string, target: string, left: string, rest: string)
    requires Split(data).Success?
    ensures (forall c | c in front :: IsSpace(c)) && GoodTarget(target) && (forall c | c in left :: Blank(c))
    ensures '\0' !in rest && Integers.CString(data) == front + (target + (left + (":" + rest)))
    ensures Split(data) == SplitRest(target, After(rest, Blank))
  {
    var s, blanks, colon;
    front, s := TakenApart(Integers.CString(data), IsSpace);
    target, blanks := TakenApart(s, InTarget);
    left, colon := TakenApart(blanks, Blank);
    rest := colon[1..];
    assert colon == ":" + rest;
  }

  /** Conversely, whatever is split has been written in this way: up to the first NUL, the data are the
      parts that splitting yields, with some spacing. */
  lemma SplitIsWritten(data: string) returns (sp: Spacing, lines: seq<Line>, terminated: bool)
    requires Split(data).Success?
    ensures var step := Split(data).value;
            && GoodSpacing(sp) && GoodTarget(step.target) && GoodDeps(step.deps) && GoodLines(lines, terminated)
            && step.deps != "" && lines != [] && step.rules == Texts(lines)
            && Integers.CString(data)
                 == WriteStep(sp, step.target, step.deps, [sp.mark] + Written(lines, terminated))
  {
    var front, target, left, rest := FrontIsWritten(data);
    var right, deps, mark;
    right, deps, mark, lines, terminated := RestIsWritten(target, rest);
    sp := Spacing(front, left, right, mark);
  }

  /** Data with nothing but white space in them have no target. */
  lemma SplitOfNothing(front: string)
    requires forall c | c in front :: IsSpace(c)
    ensures Split(front) == Failure(NoData)
  {
    NoNulStays(front);
    Spans(front, "", IsSpace);
    assert front + "" == front;
  }

  /** A target that no colon follows. */
  lemma SplitWithoutColon(sp: Spacing, target: string, rest: string)
    requires GoodSpacing(sp) && GoodTarget(target) && target != "" && '\0' !in rest
    requires rest != "" ==> rest[0] != ':' && !Blank(rest[0]) && sp.left != ""
    ensures Split(sp.front + (target + (sp.left + rest))) == Failure(NoColon(target))
  {
    SplitFront(sp, target, rest);
  }
}
