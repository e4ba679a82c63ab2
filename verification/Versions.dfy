/** Cdl::compare_versions: the order in which versions of a package are listed, newest first. */
module Versions {
  import opened Ascii
  import opened Integers
  import opened Numerals

  /** What the comparison sees at a position of a version string. */
  datatype Token = Number(n: nat) | Letter(c: char) | End | Separator | Newest

  predicate IsSeparator(c: char) {
    c == '.' || c == '-' || c == '_'
  }

  /** The length of the run of digits at the start of s. */
  function Run(s: string): (n: nat)
    ensures n <= |s|
    ensures forall i | 0 <= i < n :: IsDigit(s[i])
    ensures n < |s| ==> !IsDigit(s[n])
  {
    if s != [] && IsDigit(s[0]) then 1 + Run(s[1..]) else 0
  }

  function Value(acc: nat, ds: string): nat
    requires forall i | 0 <= i < |ds| :: IsDigit(ds[i])
    decreases |ds|
  {
    if ds == [] then acc else Value(10 * acc + DigitValue(ds[0]), ds[1..])
  }

  /** A version string as a sequence of runs of digits and single characters. */
  function Tokens(s: string): (ts: seq<Token>)
    ensures ts != [] && ts[|ts| - 1] == End
    ensures forall i | 0 <= i < |ts| - 1 :: ts[i] != End
    decreases |s|
  {
    if s == [] then [End]
    else if IsDigit(s[0]) then
      var n := Run(s);
      [Number(Value(0, s[..n]))] + Tokens(s[n..])
    else if IsSeparator(s[0]) then [Separator] + Tokens(s[1..])
    else [Letter(s[0])] + Tokens(s[1..])
  }

  /** `a` is older than `b`: letters and numbers are older than the end of the string, and that
      is older than a separator. A number sits where its digits sit among the characters. */
  predicate Older(a: Token, b: Token) {
    match (a, b)
    case (Number(m), Number(n)) => m < n
    case (Number(_), Letter(c)) => c >= '0'
    case (Letter(c), Number(_)) => c < '0'
    case (Letter(c), Letter(d)) => c < d
    case (Newest, _) => false
    case (_, Newest) => true
    case (Separator, _) => false
    case (_, Separator) => true
    case (End, _) => false
    case (_, End) => true
  }

  /** Lexicographic comparison: 1 when the second sequence is newer, -1 when it is older. */
  function LexCompare(a: seq<Token>, b: seq<Token>): int
  {
    if a == [] || b == [] then 0
    else if a[0] == b[0] then LexCompare(a[1..], b[1..])
    else if Older(a[0], b[0]) then 1
    else -1
  }

  predicate StartsWithV(s: string) {
    s != [] && (s[0] == 'v' || s[0] == 'V')
  }

  const CURRENT: string := "current"

  /** The value compare_versions returns. */
  function Compare(a: string, b: string): int {
    if a == b then 0
    else if a == CURRENT then -1
    else if b == CURRENT then 1
    else
      var x, y := CString(a), CString(b);
      if StartsWithV(x) && StartsWithV(y) then LexCompare(Tokens(x[1..]), Tokens(y[1..]))
      else LexCompare(Tokens(x), Tokens(y))
  }

  method ScanNumber(s: string, start: nat) returns (num: nat, ptr: nat)
    requires start < |s| && IsDigit(s[start])
    ensures ptr == start + Run(s[start..]) && num == Value(0, s[start..ptr])
    ensures Tokens(s[start..]) == [Number(num)] + Tokens(s[ptr..])
  {
    ghost var n := Run(s[start..]);
    ghost var run := s[start..start + n];
    assert run == s[start..][..n];
    assert forall i | 0 <= i < n :: IsDigit(run[i]) && run[i] == s[start + i];
    assert start + n < |s| ==> !IsDigit(s[start..][n]) && s[start..][n] == s[start + n];
    num, ptr := 0, start;
    while ptr < |s| && IsDigit(s[ptr])
      invariant start <= ptr <= start + n
      invariant Value(0, run) == Value(num, run[ptr - start..])
    {
      assert run[ptr - start] == s[ptr];
      num, ptr := 10 * num + DigitValue(s[ptr]), ptr + 1;
    }
    assert s[start..][n..] == s[ptr..];
  }

  /** One step of lexicographic comparison. */
  lemma LexStep(t: Token, x: seq<Token>, u: Token, y: seq<Token>)
    ensures LexCompare([t] + x, [u] + y)
         == if t == u then LexCompare(x, y) else if Older(t, u) then 1 else -1
  {
    assert ([t] + x)[1..] == x && ([u] + y)[1..] == y;
  }

  /** The first token of the string from ptr on, and what follows it. */
  lemma FirstToken(s: string, ptr: nat) returns (t: Token, rest: seq<Token>)
    requires ptr <= |s|
    ensures Tokens(s[ptr..]) == [t] + rest
    ensures ptr == |s| ==> t == End
    ensures ptr < |s| && IsDigit(s[ptr]) ==> t.Number?
    ensures ptr < |s| && IsSeparator(s[ptr]) ==> t == Separator && rest == Tokens(s[ptr + 1..])
    ensures ptr < |s| && !IsDigit(s[ptr]) && !IsSeparator(s[ptr]) ==>
              t == Letter(s[ptr]) && rest == Tokens(s[ptr + 1..])
  {
    var ts := Tokens(s[ptr..]);
    t, rest := ts[0], ts[1..];
    if ptr < |s| {
      assert s[ptr..][1..] == s[ptr + 1..];
    }
  }

  method CompareVersions(arg1: string, arg2: string) returns (result: int)
    ensures result == Compare(arg1, arg2)
  {
    if arg1 == arg2 { return 0; }
    if arg1 == CURRENT { return -1; }
    if arg2 == CURRENT { return 1; }
    var s1, s2 := CString(arg1), CString(arg2);
    var ptr1, ptr2 := 0, 0;
    if StartsWithV(s1) && StartsWithV(s2) {
      ptr1, ptr2 := 1, 1;
    }
    assert s1[0..] == s1 && s2[0..] == s2;
    while true
      invariant 0 <= ptr1 <= |s1| && 0 <= ptr2 <= |s2|
      invariant Compare(arg1, arg2) == LexCompare(Tokens(s1[ptr1..]), Tokens(s2[ptr2..]))
      decreases |s1| - ptr1
    {
      ghost var t1, rest1 := FirstToken(s1, ptr1);
      ghost var t2, rest2 := FirstToken(s2, ptr2);
      LexStep(t1, rest1, t2, rest2);
      if ptr1 == |s1| && ptr2 == |s2| { return 0; }
      if ptr1 == |s1| { return if IsSeparator(s2[ptr2]) then 1 else -1; }
      if ptr2 == |s2| { return if IsSeparator(s1[ptr1]) then -1 else 1; }
      var c1, c2 := s1[ptr1], s2[ptr2];
      if IsDigit(c1) && IsDigit(c2) {
        var num1, num2;
        num1, ptr1 := ScanNumber(s1, ptr1);
        num2, ptr2 := ScanNumber(s2, ptr2);
        if num1 < num2 { return 1; }
        if num1 > num2 { return -1; }
      } else if c1 == c2 || (IsSeparator(c1) && IsSeparator(c2)) {
        ptr1, ptr2 := ptr1 + 1, ptr2 + 1;
      } else if IsSeparator(c1) {
        return -1;
      } else if IsSeparator(c2) {
        return 1;
      } else {
        return if c1 < c2 then 1 else -1;
      }
    }
  }

  // ---------------------------------------------------------------------------------------
  // The order behind the comparison.

  /** Lexicographic comparison is antisymmetric, and 0 only for equal sequences that end alike. */
  lemma {:induction false} LexAntisymmetric(a: seq<Token>, b: seq<Token>)
    ensures LexCompare(b, a) == -LexCompare(a, b)
  {
    if a != [] && b != [] && a[0] == b[0] {
      LexAntisymmetric(a[1..], b[1..]);
    }
  }

  /** `a` closes with its only end marker, as every key does. */
  predicate Closed(a: seq<Token>) {
    && a != []
    && (a[|a| - 1] == End || a[|a| - 1] == Newest)
    && forall i | 0 <= i < |a| - 1 :: a[i] != End && a[i] != Newest
  }

  lemma {:induction false} LexZeroIsEqual(a: seq<Token>, b: seq<Token>)
    requires Closed(a) && Closed(b)
    ensures LexCompare(a, b) == 0 <==> a == b
  {
    if a[0] == b[0] {
      assert a == [a[0]] + a[1..] && b == [b[0]] + b[1..];
      if |a| > 1 {
        assert a[0] != End && a[0] != Newest;
        LexZeroIsEqual(a[1..], b[1..]);
      }
    }
  }

  lemma {:induction false} LexTransitive(a: seq<Token>, b: seq<Token>, c: seq<Token>)
    requires Closed(a) && Closed(b) && Closed(c)
    requires LexCompare(a, b) >= 0 && LexCompare(b, c) >= 0
    ensures LexCompare(a, c) >= 0
  {
    if a[0] == b[0] == c[0] && |a| > 1 {
      assert a[0] != End && a[0] != Newest;
      LexTransitive(a[1..], b[1..], c[1..]);
    }
  }

  /** The text that is compared, with the case of a leading v ignored. */
  function Normal(a: string): string {
    var s := CString(a);
    if StartsWithV(s) then "v" + s[1..] else s
  }

  function Key(a: string): (k: seq<Token>)
    ensures Closed(k)
  {
    if a == CURRENT then [Newest]
    else
      var ts := Tokens(Normal(a));
      assert Closed(ts) by { TokensHaveNoNewest(Normal(a)); }
      ts
  }

  lemma {:induction false} TokensHaveNoNewest(s: string)
    ensures forall i | 0 <= i < |Tokens(s)| :: Tokens(s)[i] != Newest
    decreases |s|
  {
    if s != [] {
      TokensHaveNoNewest(if IsDigit(s[0]) then s[Run(s)..] else s[1..]);
    }
  }

  /** An upper-case V that is not skipped is compared as it stands. That matters against the
      characters between V and v. */
  predicate Clash(a: string, b: string) {
    && a != CURRENT && b != CURRENT
    && var x, y := CString(a), CString(b);
    && x != [] && x[0] == 'V'
    && y != [] && 'V' < y[0] < 'v' && !IsSeparator(y[0])
  }

  lemma KeyOfV(s: string, tail: string)
    requires s == "v" + tail
    ensures Tokens(s) == [Letter('v')] + Tokens(tail)
  {
    assert s[1..] == tail;
  }

  lemma CompareAgainstV(a: string, b: string)
    requires a != b && a != CURRENT && b != CURRENT
    requires StartsWithV(CString(a)) && !StartsWithV(CString(b))
    ensures Compare(a, b) == LexCompare(Key(a), Key(b)) <==> !Clash(a, b)
    ensures Compare(b, a) == LexCompare(Key(b), Key(a)) <==> !Clash(a, b)
  {
    var x, y := CString(a), CString(b);
    KeyOfV(Normal(a), x[1..]);
    assert x[0..] == x && y[0..] == y;
    var t, rest := FirstToken(x, 0);
    var u, rest' := FirstToken(y, 0);
    LexStep(t, rest, u, rest');
    LexStep(u, rest', t, rest);
    LexStep(Letter('v'), Tokens(x[1..]), u, rest');
    LexStep(u, rest', Letter('v'), Tokens(x[1..]));
  }

  /** compare_versions is the lexicographic order of the keys, exactly when no V clashes. */
  lemma CompareIsKeyOrder(a: string, b: string)
    ensures Compare(a, b) == LexCompare(Key(a), Key(b)) <==> !Clash(a, b) && !Clash(b, a)
  {
    if a == b {
      LexZeroIsEqual(Key(a), Key(b));
    } else if a == CURRENT || b == CURRENT {
      TokensHaveNoNewest(Normal(a));
      TokensHaveNoNewest(Normal(b));
    } else {
      var x, y := CString(a), CString(b);
      if StartsWithV(x) && StartsWithV(y) {
        KeyOfV(Normal(a), x[1..]);
        KeyOfV(Normal(b), y[1..]);
        LexStep(Letter('v'), Tokens(x[1..]), Letter('v'), Tokens(y[1..]));
      } else if StartsWithV(x) {
        CompareAgainstV(a, b);
      } else if StartsWithV(y) {
        CompareAgainstV(b, a);
      }
    }
  }

  predicate Clashing(a: string, b: string) {
    Clash(a, b) || Clash(b, a)
  }

  /** The sign of the result always changes when the arguments are exchanged. */
  lemma Antisymmetric(a: string, b: string)
    ensures Compare(b, a) == -Compare(a, b)
  {
    var x, y := CString(a), CString(b);
    LexAntisymmetric(Tokens(x), Tokens(y));
    if StartsWithV(x) && StartsWithV(y) {
      LexAntisymmetric(Tokens(x[1..]), Tokens(y[1..]));
    }
  }

  /** On strings that do not clash the comparison is a total preorder whose equivalence is equality
      of keys: sign-antisymmetric, transitive, with "current" on top. */
  lemma OrderedWithoutClash(a: string, b: string, c: string)
    requires !Clashing(a, b) && !Clashing(b, c) && !Clashing(a, c)
    ensures Compare(b, a) == -Compare(a, b)
    ensures Compare(a, b) >= 0 && Compare(b, c) >= 0 ==> Compare(a, c) >= 0
    ensures Compare(a, b) == 0 <==> Key(a) == Key(b)
    ensures a != CURRENT ==> Compare(a, CURRENT) == 1
  {
    Antisymmetric(a, b);
    CompareIsKeyOrder(a, b);
    CompareIsKeyOrder(b, c);
    CompareIsKeyOrder(a, c);
    LexZeroIsEqual(Key(a), Key(b));
    if Compare(a, b) >= 0 && Compare(b, c) >= 0 {
      LexTransitive(Key(a), Key(b), Key(c));
    }
  }

  /** Two strings that start with different letters are ordered by these. */
  lemma FirstLetterDecides(a: string, b: string)
    requires var x, y := CString(a), CString(b);
             && a != CURRENT && b != CURRENT && x != [] && y != [] && !(StartsWithV(x) && StartsWithV(y))
             && !IsDigit(x[0]) && !IsSeparator(x[0]) && !IsDigit(y[0]) && !IsSeparator(y[0]) && x[0] != y[0]
    ensures Compare(a, b) == if CString(a)[0] < CString(b)[0] then 1 else -1
  {
    var x, y := CString(a), CString(b);
    assert x[0..] == x && y[0..] == y;
    var t, rest := FirstToken(x, 0);
    var u, rest' := FirstToken(y, 0);
    LexStep(t, rest, u, rest');
  }

  /** The string with its leading V in lower case. */
  function Lowered(a: string): string
    requires StartsWithV(CString(a))
  {
    "v" + CString(a)[1..]
  }

  /** Two strings that clash and the lower-case form of the first are in a circle, each at least as
      new as the one before. */
  lemma ClashMakesCircle(a: string, b: string)
    requires Clash(a, b)
    ensures Compare(Lowered(a), a) == 0 && Compare(a, b) == 1 && Compare(b, Lowered(a)) == 1
  {
    var c := Lowered(a);
    assert c[0] == 'v' && CURRENT[0] == 'c' && c[1..] == CString(a)[1..];
    assert CString(c) == c;
    LexAntisymmetric(Tokens(c[1..]), Tokens(c[1..]));
    FirstLetterDecides(a, b);
    FirstLetterDecides(b, c);
  }

  ghost predicate TransitiveOn(versions: set<string>) {
    forall a, b, c | a in versions && b in versions && c in versions ::
      Compare(a, b) >= 0 && Compare(b, c) >= 0 ==> Compare(a, c) >= 0
  }

  /** Among versions that occur with their lower-case forms, the comparison is an order exactly when
      no two of them clash. */
  lemma TransitiveIff(versions: set<string>)
    requires forall a | a in versions && StartsWithV(CString(a)) :: Lowered(a) in versions
    ensures TransitiveOn(versions) <==> forall a, b | a in versions && b in versions :: !Clash(a, b)
  {
    if a, b :| a in versions && b in versions && Clash(a, b) {
      ClashMakesCircle(a, b);
      Antisymmetric(a, b);
      Antisymmetric(Lowered(a), a);
      assert Compare(b, Lowered(a)) >= 0 && Compare(Lowered(a), a) >= 0 && Compare(b, a) < 0;
    } else {
      forall a, b, c | a in versions && b in versions && c in versions
        ensures Compare(a, b) >= 0 && Compare(b, c) >= 0 ==> Compare(a, c) >= 0
      {
        OrderedWithoutClash(a, b, c);
      }
    }
  }

  predicate LowerCase(a: string) {
    a == [] || a[0] != 'V'
  }

  /** Strings without a leading upper-case V never clash, so the comparison orders them. */
  lemma TotalPreorder(a: string, b: string, c: string)
    requires LowerCase(a) && LowerCase(b) && LowerCase(c)
    ensures Compare(a, b) >= 0 && Compare(b, c) >= 0 ==> Compare(a, c) >= 0
    ensures Compare(b, a) == -Compare(a, b) && (Compare(a, b) == 0 <==> Key(a) == Key(b))
  {
    OrderedWithoutClash(a, b, c);
  }

  /** The string with every separator written as a dot. */
  function Dotted(s: string): (r: string)
    ensures |r| == |s|
    ensures forall i | 0 <= i < |s| :: r[i] == if IsSeparator(s[i]) then '.' else s[i]
  {
    if s == [] then [] else [if IsSeparator(s[0]) then '.' else s[0]] + Dotted(s[1..])
  }

  lemma {:induction false} SameRun(s: string, r: string)
    requires |s| == |r| && forall i | 0 <= i < |s| :: IsDigit(s[i]) || IsDigit(r[i]) ==> s[i] == r[i]
    ensures Run(s) == Run(r) && s[..Run(s)] == r[..Run(r)]
  {
    if s != [] && IsDigit(s[0]) {
      SameRun(s[1..], r[1..]);
    }
  }

  lemma {:induction false} SameTokens(s: string, r: string)
    requires Dotted(s) == Dotted(r)
    ensures Tokens(s) == Tokens(r)
    decreases |s|
  {
    assert |s| == |r|;
    if s != [] {
      assert Dotted(s)[0] == Dotted(r)[0];
      assert forall i | 0 <= i < |s| :: Dotted(s)[i] == Dotted(r)[i];
      SameRun(s, r);
      var n := if IsDigit(s[0]) then Run(s) else 1;
      assert Dotted(s[n..]) == Dotted(r[n..]);
      SameTokens(s[n..], r[n..]);
    }
  }

  lemma {:induction false} SameStart(s: string, r: string)
    requires Dotted(s) == Dotted(r)
    ensures Dotted(CString(s)) == Dotted(CString(r)) && StartsWithV(s) == StartsWithV(r)
    ensures StartsWithV(s) ==> Dotted(s[1..]) == Dotted(r[1..])
  {
    assert |s| == |r|;
    if s != [] {
      assert Dotted(s)[0] == Dotted(r)[0];
      SameStart(s[1..], r[1..]);
    }
  }

  /** Only "current" reads as "current". */
  lemma SameCurrent(s: string, r: string)
    requires Dotted(s) == Dotted(r) && s == CURRENT
    ensures r == CURRENT
  {
    forall i | 0 <= i < |r|
      ensures r[i] == s[i]
    {
      assert Dotted(s)[i] == Dotted(r)[i] && CURRENT[i] != '.';
    }
  }

  /** Which separators a version uses does not matter, whatever it is compared with. */
  lemma {:induction false} SeparatorsAreInterchangeable(a: string, a': string, b: string)
    requires Dotted(a) == Dotted(a')
    ensures Compare(a, b) == Compare(a', b) && Compare(b, a) == Compare(b, a')
  {
    Antisymmetric(a, b);
    Antisymmetric(a', b);
    if a == CURRENT {
      SameCurrent(a, a');
    } else if a' == CURRENT {
      SameCurrent(a', a);
    } else {
      var (x, x', y) := (CString(a), CString(a'), CString(b));
      SameStart(a, a');
      SameStart(x, x');
      SameTokens(x, x');
      if StartsWithV(x) && StartsWithV(y) {
        SameTokens(x[1..], x'[1..]);
        LexAntisymmetric(Tokens(y[1..]), Tokens(y[1..]));
      }
      LexAntisymmetric(Tokens(y), Tokens(y));
    }
  }

  // ---------------------------------------------------------------------------------------
  // The numbers that an int can hold.

  const INT_MAX: nat := 0x7FFF_FFFF

  lemma {:induction false} ValueGrows(acc: nat, ds: string, i: nat)
    requires i <= |ds| && forall j | 0 <= j < |ds| :: IsDigit(ds[j])
    ensures acc <= Value(acc, ds[..i]) <= Value(acc, ds)
    decreases |ds|
  {
    if ds != [] {
      var next := 10 * acc + DigitValue(ds[0]);
      if i == 0 {
        ValueGrows(next, ds[1..], 0);
      } else {
        assert ds[..i][1..] == ds[1..][..i - 1];
        ValueGrows(next, ds[1..], i - 1);
      }
    }
  }

  /** Reading a run of digits into an int never overflows on the way if and only if its value fits. */
  lemma FitsIntIff(ds: string)
    requires forall j | 0 <= j < |ds| :: IsDigit(ds[j])
    ensures (forall i | 0 <= i <= |ds| :: Value(0, ds[..i]) <= INT_MAX) <==> Value(0, ds) <= INT_MAX
  {
    forall i | 0 <= i <= |ds|
      ensures Value(0, ds[..i]) <= Value(0, ds)
    {
      ValueGrows(0, ds, i);
    }
    assert ds[..|ds|] == ds;
  }

  // ---------------------------------------------------------------------------------------
  // What decides between two versions.

  lemma {:induction false} ValueAppend(acc: nat, ds: string, c: char)
    requires IsDigit(c) && forall i | 0 <= i < |ds| :: IsDigit(ds[i])
    ensures Value(acc, ds + [c]) == 10 * Value(acc, ds) + DigitValue(c)
    decreases |ds|
  {
    if ds == [] {
      assert [] + [c] == [c] && [c][1..] == [];
    } else {
      assert (ds + [c])[1..] == ds[1..] + [c];
      ValueAppend(10 * acc + DigitValue(ds[0]), ds[1..], c);
    }
  }

  lemma {:induction false} ValueIsNumber(s: string, ds: seq<nat>)
    requires Writes(s, 10, ds)
    ensures forall i | 0 <= i < |s| :: IsDigit(s[i])
    ensures Value(0, s) == NumberOf(10, ds)
  {
    AreDigits(s, 10, ds);
    if s != "" {
      var (init, last) := (s[..|s| - 1], s[|s| - 1]);
      assert s == init + [last];
      ValueIsNumber(init, ds[..|ds| - 1]);
      ValueAppend(0, init, last);
    }
  }

  /** A run of digits is one token. */
  lemma RunToken(run: string, rest: string)
    requires run != "" && (forall i | 0 <= i < |run| :: IsDigit(run[i])) && (rest == "" || !IsDigit(rest[0]))
    ensures Tokens(run + rest) == [Number(Value(0, run))] + Tokens(rest)
  {
    WholeRun(run, rest);
    assert (run + rest)[..|run|] == run && (run + rest)[|run|..] == rest;
  }

  lemma {:induction false} WholeRun(run: string, rest: string)
    requires (forall i | 0 <= i < |run| :: IsDigit(run[i])) && (rest == "" || !IsDigit(rest[0]))
    ensures Run(run + rest) == |run|
  {
    if run == "" {
      assert run + rest == rest;
    } else {
      assert (run + rest)[1..] == run[1..] + rest;
      WholeRun(run[1..], rest);
    }
  }

  lemma CharToken(c: char, rest: string)
    requires !IsDigit(c)
    ensures Tokens([c] + rest) == [if IsSeparator(c) then Separator else Letter(c)] + Tokens(rest)
  {
    assert ([c] + rest)[1..] == rest;
  }

  /** No number goes on from one text into the other. */
  predicate Apart(p: string, x: string) {
    p == "" || x == "" || !IsDigit(p[|p| - 1]) || !IsDigit(x[0])
  }

  /** What two texts begin with in common does not matter. */
  lemma {:induction false} CommonStart(p: string, x: string, y: string)
    requires Apart(p, x) && Apart(p, y)
    ensures LexCompare(Tokens(p + x), Tokens(p + y)) == LexCompare(Tokens(x), Tokens(y))
    decreases |p|
  {
    if p == "" {
      assert p + x == x && p + y == y;
    } else if IsDigit(p[0]) {
      var n := Run(p);
      NoDigitNext(p, n, x);
      NoDigitNext(p, n, y);
      assert p + x == p[..n] + (p[n..] + x) && p + y == p[..n] + (p[n..] + y);
      CommonRun(p[..n], p[n..] + x, p[n..] + y);
      CommonStart(p[n..], x, y);
    } else {
      assert p + x == [p[0]] + (p[1..] + x) && p + y == [p[0]] + (p[1..] + y);
      CommonChar(p[0], p[1..] + x, p[1..] + y);
      CommonStart(p[1..], x, y);
    }
  }

  lemma NoDigitNext(p: string, n: nat, x: string)
    requires Apart(p, x) && 0 < n <= |p| && IsDigit(p[n - 1]) && (n < |p| ==> !IsDigit(p[n]))
    ensures Apart(p[n..], x) && (p[n..] + x == "" || !IsDigit((p[n..] + x)[0]))
  {
    assert n == |p| ==> p[n..] + x == x;
  }

  lemma CommonRun(run: string, x: string, y: string)
    requires run != "" && forall i | 0 <= i < |run| :: IsDigit(run[i])
    requires (x == "" || !IsDigit(x[0])) && (y == "" || !IsDigit(y[0]))
    ensures LexCompare(Tokens(run + x), Tokens(run + y)) == LexCompare(Tokens(x), Tokens(y))
  {
    RunToken(run, x);
    RunToken(run, y);
    LexStep(Number(Value(0, run)), Tokens(x), Number(Value(0, run)), Tokens(y));
  }

  lemma CommonChar(c: char, x: string, y: string)
    requires !IsDigit(c)
    ensures LexCompare(Tokens([c] + x), Tokens([c] + y)) == LexCompare(Tokens(x), Tokens(y))
  {
    var t := if IsSeparator(c) then Separator else Letter(c);
    CharToken(c, x);
    CharToken(c, y);
    LexStep(t, Tokens(x), t, Tokens(y));
  }

  lemma {:induction false} CStringAfter(p: string, x: string)
    requires '\0' !in p
    ensures CString(p + x) == p + CString(x)
  {
    if p == "" {
      assert p + x == x;
    } else {
      assert (p + x)[1..] == p[1..] + x;
      CStringAfter(p[1..], x);
    }
  }

  /** The same for what is left after a v in front. */
  lemma {:induction false} CommonStartAfterV(p: string, x: string, y: string)
    requires p != "" && Apart(p, x) && Apart(p, y) && !IsDigit(p[0])
    ensures LexCompare(Tokens((p + x)[1..]), Tokens((p + y)[1..])) == LexCompare(Tokens(x), Tokens(y))
  {
    assert (p + x)[1..] == p[1..] + x && (p + y)[1..] == p[1..] + y;
    CommonStart(p[1..], x, y);
  }

  lemma SameRest(p: string, x: string, y: string)
    requires p + x == p + y
    ensures x == y
  {
    assert x == (p + x)[|p|..] && y == (p + y)[|p|..];
  }

  /** After a common start two versions compare as the rest of them does, unless that would make a
      difference to a leading v. */
  lemma {:induction false} CompareAfter(p: string, x: string, y: string)
    requires '\0' !in p && Apart(p, CString(x)) && Apart(p, CString(y))
    requires p + x != CURRENT && p + y != CURRENT && (p != "" || !(StartsWithV(x) && StartsWithV(y)))
    ensures Compare(p + x, p + y) == LexCompare(Tokens(CString(x)), Tokens(CString(y)))
  {
    CStringAfter(p, x);
    CStringAfter(p, y);
    if p + x == p + y {
      SameRest(p, x, y);
      LexAntisymmetric(Tokens(CString(x)), Tokens(CString(y)));
    } else if StartsWithV(p) {
      CommonStartAfterV(p, CString(x), CString(y));
    } else {
      CommonStart(p, CString(x), CString(y));
      assert p == "" ==> p + CString(x) == CString(x) && p + CString(y) == CString(y);
    }
  }

  /** "current" has no digits and no separators. */
  lemma NotCurrent(p: string, c: char, s: string)
    requires IsDigit(c) || IsSeparator(c)
    ensures p + ([c] + s) != CURRENT
  {
    assert (p + ([c] + s))[|p|] == c;
    assert forall i | 0 <= i < |CURRENT| :: !IsDigit(CURRENT[i]) && !IsSeparator(CURRENT[i]);
  }

  /** The first number that differs decides, by its value and not by its digits. */
  lemma {:induction false} NumbersDecide(p: string, a: string, ds: seq<nat>, s: string,
                                         b: string, es: seq<nat>, t: string)
    requires '\0' !in p && (p == "" || !IsDigit(p[|p| - 1]))
    requires a != "" && Writes(a, 10, ds) && b != "" && Writes(b, 10, es)
    requires (s == "" || !IsDigit(s[0])) && (t == "" || !IsDigit(t[0]))
    ensures NumberOf(10, ds) < NumberOf(10, es) ==> Compare(p + (a + s), p + (b + t)) == 1
    ensures NumberOf(10, ds) > NumberOf(10, es) ==> Compare(p + (a + s), p + (b + t)) == -1
    ensures NumberOf(10, ds) == NumberOf(10, es) ==>
              Compare(p + (a + s), p + (b + t)) == Compare(p + ("0" + s), p + ("0" + t))
  {
    CompareNumbers(p, a, ds, s, b, es, t);
    assert Writes("0", 10, [0]) && NumberOf(10, [0]) == 0;
    CompareNumbers(p, "0", [0], s, "0", [0], t);
  }

  lemma {:induction false} CompareNumbers(p: string, a: string, ds: seq<nat>, s: string,
                                          b: string, es: seq<nat>, t: string)
    requires '\0' !in p && (p == "" || !IsDigit(p[|p| - 1]))
    requires a != "" && Writes(a, 10, ds) && b != "" && Writes(b, 10, es)
    requires (s == "" || !IsDigit(s[0])) && (t == "" || !IsDigit(t[0]))
    ensures Compare(p + (a + s), p + (b + t))
         == if NumberOf(10, ds) < NumberOf(10, es) then 1
            else if NumberOf(10, ds) > NumberOf(10, es) then -1
            else LexCompare(Tokens(CString(s)), Tokens(CString(t)))
  {
    var m, x := NumberToken(a, ds, s);
    var n, y := NumberToken(b, es, t);
    LexStep(Number(m), x, Number(n), y);
    StartsWithDigit(p, a, s);
    StartsWithDigit(p, b, t);
    CompareAfter(p, a + s, b + t);
  }

  lemma {:induction false} StartsWithDigit(p: string, a: string, s: string)
    requires a != "" && IsDigit(a[0])
    ensures p + (a + s) != CURRENT && !StartsWithV(a + s)
  {
    assert a + s == [a[0]] + (a[1..] + s);
    NotCurrent(p, a[0], a[1..] + s);
  }

  lemma {:induction false} NumberToken(a: string, ds: seq<nat>, s: string) returns (n: nat, rest: seq<Token>)
    requires a != "" && Writes(a, 10, ds) && (s == "" || !IsDigit(s[0]))
    ensures n == NumberOf(10, ds) && rest == Tokens(CString(s)) && IsDigit(a[0])
    ensures Tokens(CString(a + s)) == [Number(n)] + rest
  {
    ValueIsNumber(a, ds);
    CStringAfter(a, s);
    n, rest := Value(0, a), Tokens(CString(s));
    RunToken(a, CString(s));
  }

  lemma LongerTokens(z: string)
    requires z != ""
    ensures LexCompare(Tokens(""), Tokens(z)) == if IsSeparator(z[0]) then 1 else -1
  {
    assert z[0..] == z;
    var t, rest := FirstToken(z, 0);
    LexStep(End, [], t, rest);
    assert [End] + [] == Tokens("");
  }

  /** A version that goes on with a separator is newer than what it begins with. One that goes on
      with anything else is older. */
  lemma {:induction false} LongerIs(p: string, c: char, s: string)
    requires '\0' !in p && c != '\0' && p != CURRENT && p + ([c] + s) != CURRENT
    requires p == "" || !IsDigit(p[|p| - 1]) || !IsDigit(c)
    ensures Compare(p, p + ([c] + s)) == if c in ".-_" then 1 else -1
  {
    assert p + "" == p && CString("") == "";
    assert CString([c] + s)[0] == c;
    CompareAfter(p, "", [c] + s);
    LongerTokens(CString([c] + s));
  }

  /** Characters decide by their codes where they differ, except that separators are newest. */
  lemma {:induction false} CharactersDecide(p: string, c: char, s: string, d: char, t: string)
    requires '\0' !in p && c != d && c != '\0' && d != '\0' && !(IsDigit(c) && IsDigit(d))
    requires !(c in ".-_" && d in ".-_") && (p != "" || !(c in "vV" && d in "vV"))
    requires p == "" || !IsDigit(p[|p| - 1]) || !(IsDigit(c) || IsDigit(d))
    requires p + ([c] + s) != CURRENT && p + ([d] + t) != CURRENT
    ensures Compare(p + ([c] + s), p + ([d] + t))
         == if c in ".-_" then -1 else if d in ".-_" then 1 else if c < d then 1 else -1
  {
    var (x, y) := (CString([c] + s), CString([d] + t));
    assert x[0] == c && y[0] == d && x[0..] == x && y[0..] == y;
    CompareAfter(p, [c] + s, [d] + t);
    var u, rest := FirstToken(x, 0);
    var w, rest' := FirstToken(y, 0);
    LexStep(u, rest, w, rest');
  }

  /** A v in front of both versions does not matter, in either case. */
  lemma {:induction false} LeadingVIsIgnored(v: char, x: string, w: char, y: string)
    requires v in "vV" && w in "vV" && x != CURRENT && y != CURRENT
    requires x == "" || y == "" || x[0] !in "vV" || y[0] !in "vV"
    ensures Compare([v] + x, [w] + y) == Compare(x, y)
  {
    assert CString([v] + x) == [v] + CString(x) && CString([w] + y) == [w] + CString(y) by {
      CStringAfter([v], x);
      CStringAfter([w], y);
    }
    assert ([v] + CString(x))[1..] == CString(x) && ([w] + CString(y))[1..] == CString(y);
    assert ([v] + x)[0] == v && ([w] + y)[0] == w && CURRENT[0] == 'c';
    LexAntisymmetric(Tokens(CString(x)), Tokens(CString(y)));
    if [v] + x == [w] + y {
      assert x == ([v] + x)[1..] && y == ([w] + y)[1..];
    }
  }
}
