/** The functions is_substr and is_xsubstr: searching a string, and editing it until the
    search gives the desired answer. */
module Substrings {
  import opened Wrappers

  /** What to look for, and on which sides it has to stand alone: there a space, or the end
      of the string, is required. */
  datatype Pattern = Pattern(core: string, leading: bool, trailing: bool)

  /** The pattern of is_substr: one space at either end of the needle becomes a requirement. */
  function Strip(needle: string): Pattern {
    var leading := needle != [] && needle[0] == ' ';
    var rest := if leading then needle[1..] else needle;
    var trailing := rest != [] && rest[|rest| - 1] == ' ';
    Pattern(if trailing then rest[..|rest| - 1] else rest, leading, trailing)
  }

  /** The pattern of is_xsubstr: the needle as it stands. */
  function Exact(needle: string): Pattern {
    Pattern(needle, false, false)
  }

  predicate MatchesAt(haystack: string, core: string, p: nat) {
    p + |core| <= |haystack| && haystack[p..p + |core|] == core
  }

  predicate OccursAt(haystack: string, pattern: Pattern, p: nat) {
    && MatchesAt(haystack, pattern.core, p)
    && (pattern.leading && p > 0 ==> haystack[p - 1] == ' ')
    && (pattern.trailing && p + |pattern.core| < |haystack| ==> haystack[p + |pattern.core|] == ' ')
  }

  predicate FirstAt(haystack: string, pattern: Pattern, from: nat, p: nat) {
    && from <= p && OccursAt(haystack, pattern, p)
    && forall q | from <= q < p :: !OccursAt(haystack, pattern, q)
  }

  /** The leftmost occurrence at or after `from`. */
  function Search(haystack: string, pattern: Pattern, from: nat): (r: Option<nat>)
    ensures r.Some? ==> FirstAt(haystack, pattern, from, r.value)
    ensures r.None? ==> forall q | from <= q :: !OccursAt(haystack, pattern, q)
    decreases |haystack| - from
  {
    if from > |haystack| then None
    else if OccursAt(haystack, pattern, from) then Some(from)
    else Search(haystack, pattern, from + 1)
  }

  /** No occurrence before the place a search stopped at. */
  predicate NoneBefore(haystack: string, pattern: Pattern, posn: Option<nat>) {
    forall q | 0 <= q < (if posn.Some? then posn.value else |haystack| + 1) :: !OccursAt(haystack, pattern, q)
  }

  lemma PlainSearchMissesNothing(haystack: string, pattern: Pattern, from: nat)
    requires NoneBefore(haystack, pattern, Some(from))
    ensures NoneBefore(haystack, pattern, Search(haystack, Exact(pattern.core), from))
  {
    var posn := Search(haystack, Exact(pattern.core), from);
    forall q | 0 <= q < (if posn.Some? then posn.value else |haystack| + 1)
      ensures !OccursAt(haystack, pattern, q)
    {
      if from <= q {
        assert !OccursAt(haystack, Exact(pattern.core), q);
      }
    }
  }

  lemma NextSearchMissesNothing(haystack: string, pattern: Pattern, p: nat)
    requires NoneBefore(haystack, pattern, Some(p)) && !OccursAt(haystack, pattern, p)
    ensures NoneBefore(haystack, pattern, Search(haystack, Exact(pattern.core), p + 1))
  {
    PlainSearchMissesNothing(haystack, pattern, p + 1);
  }

  /** is_substr_find. The library search ignores the spaces; each place it finds is checked for
      them. The needle must not be empty or a lone space, which would read before its start. */
  method IsSubstrFind(haystack: string, needle: string) returns (result: Option<nat>, len: nat)
    requires needle != "" && needle != " "
    ensures result == Search(haystack, Strip(needle), 0)
    ensures len == |Strip(needle).core|
  {
    var leading, trailing, core := false, false, needle;
    if core[0] == ' ' {
      leading, core := true, core[1..];
    }
    if core[|core| - 1] == ' ' {
      trailing, core := true, core[..|core| - 1];
    }
    result, len := FindBounded(haystack, Pattern(core, leading, trailing));
  }

  method FindBounded(haystack: string, pattern: Pattern) returns (result: Option<nat>, len: nat)
    ensures result == Search(haystack, pattern, 0)
    ensures len == |pattern.core|
  {
    len := |pattern.core|;
    result := None;
    PlainSearchMissesNothing(haystack, pattern, 0);
    var posn := Search(haystack, Exact(pattern.core), 0);
    while result.None? && posn.Some?
      invariant result.None? && posn.Some? ==> MatchesAt(haystack, pattern.core, posn.value)
      invariant result.None? ==> NoneBefore(haystack, pattern, posn)
      invariant result.Some? ==> FirstAt(haystack, pattern, 0, result.value)
      decreases result.None?, if posn.Some? then |haystack| + 1 - posn.value else 0
    {
      var p, match_ := posn.value, true;
      if pattern.leading && p != 0 && haystack[p - 1] != ' ' {
        match_ := false;
      }
      if pattern.trailing && |haystack| != p + len && haystack[p + len] != ' ' {
        match_ := false;
      }
      assert match_ == OccursAt(haystack, pattern, p);
      if match_ {
        result := Some(p);
      } else {
        NextSearchMissesNothing(haystack, pattern, p);
        posn := Search(haystack, Exact(pattern.core), p + 1);
      }
    }
  }

  function Erase(haystack: string, p: nat, len: nat): (r: string)
    requires p + len <= |haystack|
    ensures |r| == |haystack| - len
  {
    haystack[..p] + haystack[p + len..]
  }

  /** Erasing comes to an end: something is erased each time, or nothing has to be. */
  predicate CanEnd(haystack: string, pattern: Pattern) {
    pattern.core != "" || Search(haystack, pattern, 0).None?
  }

  /** Erase the leftmost occurrence until there is none. */
  function EraseAll(haystack: string, pattern: Pattern): string
    requires CanEnd(haystack, pattern)
    decreases |haystack|
  {
    match Search(haystack, pattern, 0)
    case None => haystack
    case Some(p) => EraseAll(Erase(haystack, p, |pattern.core|), pattern)
  }

  /** The text the valuable gets when the inference engine wants the given answer. */
  function Edited(haystack: string, needle: string, pattern: Pattern, goal: bool): string
    requires goal || CanEnd(haystack, pattern)
  {
    if !goal then EraseAll(haystack, pattern)
    else if Search(haystack, pattern, 0).None? then haystack + needle
    else haystack
  }

  /** The edit made by is_substr_infer_bool. */
  method IsSubstrEdit(current: string, needle: string, goal: bool) returns (haystack: string)
    requires needle != "" && needle != " "
    requires goal || CanEnd(current, Strip(needle))
    ensures haystack == Edited(current, needle, Strip(needle), goal)
  {
    haystack := current;
    var posn, len := IsSubstrFind(haystack, needle);
    if goal {
      if posn.None? {
        haystack := haystack + needle;
      }
    } else {
      while posn.Some?
        invariant posn == Search(haystack, Strip(needle), 0) && len == |Strip(needle).core|
        invariant CanEnd(haystack, Strip(needle))
        invariant EraseAll(haystack, Strip(needle)) == EraseAll(current, Strip(needle))
        decreases |haystack|
      {
        haystack := Erase(haystack, posn.value, len);
        posn, len := IsSubstrFind(haystack, needle);
      }
    }
  }

  /** The edit made by is_xsubstr_infer_bool. */
  method IsXSubstrEdit(current: string, needle: string, goal: bool) returns (haystack: string)
    requires goal || CanEnd(current, Exact(needle))
    ensures haystack == Edited(current, needle, Exact(needle), goal)
  {
    haystack := current;
    var posn := Search(haystack, Exact(needle), 0);
    if goal {
      if posn.None? {
        haystack := haystack + needle;
      }
    } else {
      while posn.Some?
        invariant posn == Search(haystack, Exact(needle), 0)
        invariant EraseAll(haystack, Exact(needle)) == EraseAll(current, Exact(needle))
        decreases |haystack|
      {
        haystack := Erase(haystack, posn.value, |needle|);
        posn := Search(haystack, Exact(needle), 0);
      }
    }
  }

  /** k copies of the characters of a string. */
  function Copies(k: nat, core: string): multiset<char> {
    if k == 0 then multiset{} else Copies(k - 1, core) + multiset(core)
  }

  lemma EraseRemovesCore(haystack: string, core: string, p: nat)
    requires MatchesAt(haystack, core, p)
    ensures multiset(haystack) == multiset(Erase(haystack, p, |core|)) + multiset(core)
  {
    assert haystack == haystack[..p] + core + haystack[p + |core|..];
  }

  /** Erasing leaves no occurrence and takes away copies of the core, nothing else. */
  lemma {:induction false} EraseAllRemovesCopies(haystack: string, pattern: Pattern) returns (k: nat)
    requires CanEnd(haystack, pattern)
    ensures Search(EraseAll(haystack, pattern), pattern, 0) == None
    ensures multiset(haystack) == multiset(EraseAll(haystack, pattern)) + Copies(k, pattern.core)
    ensures k == 0 <==> Search(haystack, pattern, 0) == None
    decreases |haystack|
  {
    var posn := Search(haystack, pattern, 0);
    if posn.None? {
      k := 0;
    } else {
      var next := Erase(haystack, posn.value, |pattern.core|);
      EraseRemovesCore(haystack, pattern.core, posn.value);
      k := EraseAllRemovesCopies(next, pattern);
      k := k + 1;
    }
  }

  /** The core of a needle, and where it starts in the needle. */
  lemma StripTakesSlice(needle: string) returns (start: nat)
    ensures var p := Strip(needle);
            && start == (if p.leading then 1 else 0)
            && start + |p.core| <= |needle|
            && needle[start..start + |p.core|] == p.core
            && (p.leading ==> needle[0] == ' ')
            && (if p.trailing then start + |p.core| + 1 == |needle| && needle[|needle| - 1] == ' '
                else start + |p.core| == |needle|)
  {
    start := if Strip(needle).leading then 1 else 0;
  }

  lemma AppendedNeedleOccurs(haystack: string, needle: string)
    ensures exists p :: OccursAt(haystack + needle, Strip(needle), p)
    ensures OccursAt(haystack + needle, Exact(needle), |haystack|)
  {
    var all, n := haystack + needle, |haystack|;
    var start := StripTakesSlice(needle);
    var len := |Strip(needle).core|;
    assert all[n + start..n + start + len] == needle[start..start + len];
    assert OccursAt(all, Strip(needle), n + start);
    assert all[n..n + |needle|] == needle;
  }

  /** Whatever the goal, the function's answer on the edited text is the goal. */
  lemma EditAchievesGoal(haystack: string, needle: string, pattern: Pattern, goal: bool)
    requires pattern == Strip(needle) || pattern == Exact(needle)
    requires goal || CanEnd(haystack, pattern)
    ensures Search(Edited(haystack, needle, pattern, goal), pattern, 0).Some? == goal
  {
    if goal {
      AppendedNeedleOccurs(haystack, needle);
    } else {
      var k := EraseAllRemovesCopies(haystack, pattern);
    }
  }

  // ---------------------------------------------------------------------------------------
  // When the erase loop ends.

  /** The text after so many rounds of the erase loop, or when it has ended before. */
  function Rounds(haystack: string, pattern: Pattern, n: nat): string
    decreases n
  {
    if n == 0 then haystack
    else
      match Search(haystack, pattern, 0)
      case None => haystack
      case Some(p) => Rounds(Erase(haystack, p, |pattern.core|), pattern, n - 1)
  }

  /** After so many rounds the search fails, which ends the loop. */
  ghost predicate Ends(haystack: string, pattern: Pattern, n: nat) {
    Search(Rounds(haystack, pattern, n), pattern, 0).None?
  }

  lemma {:induction false} EnoughRounds(haystack: string, pattern: Pattern) returns (n: nat)
    requires CanEnd(haystack, pattern)
    ensures Ends(haystack, pattern, n) && Rounds(haystack, pattern, n) == EraseAll(haystack, pattern)
    decreases |haystack|
  {
    var posn := Search(haystack, pattern, 0);
    if posn.None? {
      n := 0;
    } else {
      n := EnoughRounds(Erase(haystack, posn.value, |pattern.core|), pattern);
      n := n + 1;
    }
  }

  /** With an empty core the loop erases nothing: text and position repeat for ever. */
  lemma {:induction false} RoundsRepeat(haystack: string, pattern: Pattern, n: nat)
    requires pattern.core == ""
    ensures Rounds(haystack, pattern, n) == haystack
  {
    if n > 0 && Search(haystack, pattern, 0).Some? {
      assert Erase(haystack, Search(haystack, pattern, 0).value, 0) == haystack;
      RoundsRepeat(haystack, pattern, n - 1);
    }
  }

  /** The erase loop ends exactly when there is something to erase each time or nothing at all. */
  lemma LoopEndsIff(haystack: string, pattern: Pattern)
    ensures (exists n :: Ends(haystack, pattern, n)) <==> CanEnd(haystack, pattern)
  {
    if CanEnd(haystack, pattern) {
      var n := EnoughRounds(haystack, pattern);
    } else {
      forall n
        ensures !Ends(haystack, pattern, n)
      {
        RoundsRepeat(haystack, pattern, n);
      }
    }
  }

  /** For a needle of two spaces, whose core is empty, the loop ends on one text and not on another. */
  lemma TwoSpaces()
    ensures CanEnd("ab", Strip("  ")) && !CanEnd("a ", Strip("  "))
  {
    var pattern := Strip("  ");
    assert pattern == Pattern("", true, true);
    assert forall q: nat :: !OccursAt("ab", pattern, q);
    assert OccursAt("a ", pattern, 2);
  }

  // ---------------------------------------------------------------------------------------
  // What is found and edited, in terms of the text around it.

  /** A needle as it is written: with a space on the sides on which it has to stand alone. */
  function Needle(core: string, leading: bool, trailing: bool): string {
    (if leading then " " else "") + core + (if trailing then " " else "")
  }

  /** Spaces of the core itself can only be next to those. */
  predicate GoodCore(core: string, leading: bool, trailing: bool) {
    if core == "" then trailing ==> leading
    else (!leading ==> core[0] != ' ') && (!trailing ==> core[|core| - 1] != ' ')
  }

  /** The core stands in the text between these two parts. */
  predicate Between(text: string, core: string, leading: bool, trailing: bool, left: string, right: string) {
    && text == left + core + right
    && (leading ==> left == "" || left[|left| - 1] == ' ')
    && (trailing ==> right == "" || right[0] == ' ')
  }

  /** What the two functions look for. */
  lemma Needles(core: string, leading: bool, trailing: bool)
    ensures GoodCore(core, leading, trailing) ==>
              Strip(Needle(core, leading, trailing)) == Pattern(core, leading, trailing)
    ensures Exact(core) == Pattern(core, false, false)
  {
    var needle := Needle(core, leading, trailing);
    var rest := core + (if trailing then " " else "");
    assert leading ==> needle[1..] == rest;
    assert !leading ==> needle == rest;
    assert trailing ==> rest[..|rest| - 1] == core;
  }

  lemma OccursIff(text: string, core: string, leading: bool, trailing: bool, left: string, right: string)
    requires text == left + core + right
    ensures OccursAt(text, Pattern(core, leading, trailing), |left|)
       <==> Between(text, core, leading, trailing, left, right)
  {
    assert text[|left|..|left| + |core|] == core;
    assert left != "" ==> text[|left| - 1] == left[|left| - 1];
    assert right != "" ==> text[|left| + |core|] == right[0];
  }

  lemma OccursBetween(text: string, core: string, leading: bool, trailing: bool, p: nat)
    requires OccursAt(text, Pattern(core, leading, trailing), p)
    ensures p + |core| <= |text| && Between(text, core, leading, trailing, text[..p], text[p + |core|..])
  {
    assert text == text[..p] + core + text[p + |core|..];
    OccursIff(text, core, leading, trailing, text[..p], text[p + |core|..]);
  }

  /** A needle is found exactly if its core stands somewhere in the text, next to spaces or the ends
      of the text where the needle asks for that. */
  lemma FoundIff(text: string, core: string, leading: bool, trailing: bool)
    ensures Search(text, Pattern(core, leading, trailing), 0).Some?
       <==> exists left, right :: Between(text, core, leading, trailing, left, right)
  {
    var pattern := Pattern(core, leading, trailing);
    if p :| OccursAt(text, pattern, p) {
      OccursBetween(text, core, leading, trailing, p);
    }
    forall left, right | Between(text, core, leading, trailing, left, right)
      ensures OccursAt(text, pattern, |left|)
    {
      OccursIff(text, core, leading, trailing, left, right);
    }
  }

  /** A text for which the goal holds is left alone. The needle is appended if it has to be there and
      is not. */
  lemma EditIs(text: string, needle: string, core: string, leading: bool, trailing: bool, goal: bool)
    requires var pattern := Pattern(core, leading, trailing); goal || CanEnd(text, pattern)
    ensures var found := exists left, right :: Between(text, core, leading, trailing, left, right);
            && (found == goal ==> Edited(text, needle, Pattern(core, leading, trailing), goal) == text)
            && (goal && !found ==> Edited(text, needle, Pattern(core, leading, trailing), goal) == text + needle)
  {
    FoundIff(text, core, leading, trailing);
  }

  /** If the needle has to go, its leftmost core is taken out, and so on with what is left. */
  lemma EditTakesLeftmost(text: string, needle: string, core: string, leading: bool, trailing: bool,
                          left: string, right: string)
    requires core != "" && Between(text, core, leading, trailing, left, right)
    requires forall left', right' | Between(text, core, leading, trailing, left', right') :: |left| <= |left'|
    ensures var pattern := Pattern(core, leading, trailing);
            Edited(text, needle, pattern, false) == Edited(left + right, needle, pattern, false)
  {
    var pattern := Pattern(core, leading, trailing);
    LeftmostIsFirst(text, core, leading, trailing, left, right);
    assert Erase(text, |left|, |core|) == left + right;
  }

  lemma LeftmostIsFirst(text: string, core: string, leading: bool, trailing: bool, left: string, right: string)
    requires Between(text, core, leading, trailing, left, right)
    requires forall left', right' | Between(text, core, leading, trailing, left', right') :: |left| <= |left'|
    ensures Search(text, Pattern(core, leading, trailing), 0) == Some(|left|)
  {
    OccursIff(text, core, leading, trailing, left, right);
    var p := Search(text, Pattern(core, leading, trailing), 0).value;
    OccursBetween(text, core, leading, trailing, p);
  }
}
