// Model of `LocalReceiverStorageService._sanitize_path_component`.
module PathSanitizer {
  import opened Prelude

  // ---- The individual rewriting steps -------------------------------------

  /** The class `[a-zA-Z0-9_\-\.]`. */
  predicate AllowedChar(c: char) {
    'a' <= c <= 'z' || 'A' <= c <= 'Z' || '0' <= c <= '9' || c == '_' || c == '-' || c == '.'
  }

  predicate EdgeChar(c: char) {
    c == '_' || c == '.'
  }

  predicate NotSeparator(c: char) {
    c != '/' && c != '\\'
  }

  /** `component.replace("/", "").replace("\\", "")`. */
  function RemoveSeparators(s: string): string {
    Filter(s, NotSeparator)
  }

  /** One call of `cleaned.replace("..", "")`: leftmost, non-overlapping. */
  function RemovePairs(s: string): (r: string)
    ensures |r| <= |s|
  {
    if |s| < 2 then s
    else if s[0] == '.' && s[1] == '.' then RemovePairs(s[2..])
    else [s[0]] + RemovePairs(s[1..])
  }

  /** `re.sub(r"[^a-zA-Z0-9_\-\.]", "_", cleaned)`. */
  function ReplaceDisallowed(s: string): (r: string)
    ensures |r| == |s|
  {
    seq(|s|, i requires 0 <= i < |s| => if AllowedChar(s[i]) then s[i] else '_')
  }

  /** `re.sub(r"_+", "_", cleaned)`. */
  function CollapseUnderscores(s: string): string {
    if |s| < 2 then s
    else if s[0] == '_' && s[1] == '_' then CollapseUnderscores(s[1..])
    else [s[0]] + CollapseUnderscores(s[1..])
  }

  function StripLeft(s: string): string {
    if s != [] && EdgeChar(s[0]) then StripLeft(s[1..]) else s
  }

  function StripRight(s: string): string {
    if s != [] && EdgeChar(s[|s| - 1]) then StripRight(s[..|s| - 1]) else s
  }

  /** What the whole function returns, with the removal loop as a single pass. */
  function Sanitize(component: string): string {
    var cleaned := RemovePairs(RemoveSeparators(component));
    var stripped := StripRight(StripLeft(CollapseUnderscores(ReplaceDisallowed(cleaned))));
    if stripped == [] then "_" else stripped
  }

  // ---- What a sanitized component looks like ------------------------------

  predicate NoPair(s: string, c: char) {
    forall i :: 0 <= i < |s| - 1 ==> !(s[i] == c && s[i + 1] == c)
  }

  predicate AllAllowed(s: string) {
    forall i :: 0 <= i < |s| ==> AllowedChar(s[i])
  }

  predicate Clean(s: string) {
    s == "_" ||
    (|s| > 0 && AllAllowed(s) && NoPair(s, '.') && NoPair(s, '_') &&
     !EdgeChar(s[0]) && !EdgeChar(s[|s| - 1]))
  }

  /** Letters, digits and hyphens: what sanitizing must carry through untouched. */
  predicate CoreChar(c: char) {
    AllowedChar(c) && !EdgeChar(c)
  }

  // ---- Dot removal: one pass leaves n mod 2 dots of each maximal run ------

  function LeadingDots(s: string): (n: nat)
    ensures n <= |s|
    ensures forall i :: 0 <= i < n ==> s[i] == '.'
    ensures n < |s| ==> s[n] != '.'
  {
    if s == [] || s[0] != '.' then 0 else 1 + LeadingDots(s[1..])
  }

  /** Each maximal run of n dots becomes n mod 2 dots. */
  function RunParity(s: string): string
    decreases |s|
  {
    if s == [] then []
    else if s[0] != '.' then [s[0]] + RunParity(s[1..])
    else
      var n := LeadingDots(s);
      Parity(n) + RunParity(s[n..])
  }

  lemma SliceTwice(s: string, a: nat, b: nat)
    requires a + b <= |s|
    ensures s[a..][b..] == s[a + b..]
  {
  }

  lemma ParityTwo(n: nat)
    ensures Parity(n + 2) == Parity(n)
  {
  }

  function Parity(n: nat): string {
    if n % 2 == 1 then "." else ""
  }

  lemma RunParityUnfold(s: string, n: nat, tail: string)
    requires n == LeadingDots(s) && tail == s[n..]
    ensures RunParity(s) == Parity(n) + RunParity(tail)
  {
    if n == 0 { assert tail == s; }
  }

  lemma LeadingDotsTwo(s: string)
    requires |s| >= 2 && s[0] == '.' && s[1] == '.'
    ensures LeadingDots(s) == 2 + LeadingDots(s[2..])
  {
    assert s[1..][1..] == s[2..];
  }

  /** Two leading dots do not matter to the parity of their run. */
  lemma RunParityDropsTwo(s: string)
    requires |s| >= 2 && s[0] == '.' && s[1] == '.'
    ensures RunParity(s) == RunParity(s[2..])
  {
    LeadingDotsTwo(s);
    var t := s[2..];
    var m := LeadingDots(t);
    SliceTwice(s, 2, m);
    RunParityUnfold(s, m + 2, t[m..]);
    RunParityUnfold(t, m, t[m..]);
    ParityTwo(m);
  }

  lemma RunParityOneDot(s: string)
    requires |s| >= 1 && s[0] == '.' && (|s| >= 2 ==> s[1] != '.')
    ensures RunParity(s) == "." + RunParity(s[1..])
  {
    assert LeadingDots(s[1..]) == 0;
    RunParityUnfold(s, 1, s[1..]);
  }

  /** `replace("..", "")` leaves n mod 2 dots of every maximal run of n dots. */
  lemma {:induction false} RemovePairsIsRunParity(s: string)
    ensures RemovePairs(s) == RunParity(s)
    decreases |s|
  {
    if |s| < 2 {
      if s != [] {
        assert s[1..] == [];
        if s[0] == '.' { RunParityOneDot(s); }
      }
    } else if s[0] == '.' && s[1] == '.' {
      RunParityDropsTwo(s);
      RemovePairsIsRunParity(s[2..]);
    } else {
      if s[0] == '.' { RunParityOneDot(s); }
      RemovePairsIsRunParity(s[1..]);
    }
  }

  lemma {:induction false} OnePassRemovesAllPairs(s: string)
    ensures NoPair(RemovePairs(s), '.')
    ensures s != [] && s[0] != '.' ==> RemovePairs(s) != [] && RemovePairs(s)[0] == s[0]
    decreases |s|
  {
    if |s| < 2 {
    } else if s[0] == '.' && s[1] == '.' {
      OnePassRemovesAllPairs(s[2..]);
    } else {
      OnePassRemovesAllPairs(s[1..]);
      var r := RemovePairs(s[1..]);
      var t := [s[0]] + r;
      forall i | 0 <= i < |t| - 1
        ensures !(t[i] == '.' && t[i + 1] == '.')
      {
        if i > 0 { assert t[i] == r[i - 1] && t[i + 1] == r[i]; }
      }
    }
  }

  /** On a string without ".." one more pass is the identity, so the loop has stopped. */
  lemma {:induction false} RemovePairsFixpoint(s: string)
    requires NoPair(s, '.')
    ensures RemovePairs(s) == s
  {
    if |s| >= 2 {
      assert NoPair(s[1..], '.') by {
        forall i | 0 <= i < |s[1..]| - 1
          ensures !(s[1..][i] == '.' && s[1..][i + 1] == '.')
        {
          assert s[1..][i] == s[i + 1] && s[1..][i + 1] == s[i + 2];
        }
      }
      RemovePairsFixpoint(s[1..]);
    }
  }

  // ---- Steps preserve what earlier steps established ----------------------

  lemma {:induction false} CollapseFacts(s: string)
    ensures var r := CollapseUnderscores(s);
            && NoPair(r, '_')
            && (AllAllowed(s) ==> AllAllowed(r))
            && (NoPair(s, '.') ==> NoPair(r, '.'))
            && (s != [] ==> r != [] && r[0] == s[0])
            && Filter(r, CoreChar) == Filter(s, CoreChar)
    decreases |s|
  {
    if |s| >= 2 {
      var u := s[1..];
      CollapseFacts(u);
      var q := CollapseUnderscores(u);
      assert NoPair(s, '.') ==> NoPair(u, '.') by {
        forall i | NoPair(s, '.') && 0 <= i < |u| - 1 ensures !(u[i] == '.' && u[i + 1] == '.') {
          assert u[i] == s[i + 1] && u[i + 1] == s[i + 2];
        }
      }
      assert AllAllowed(s) ==> AllAllowed(u);
      if !(s[0] == '_' && s[1] == '_') {
        var r := [s[0]] + q;
        assert r[1..] == q;
        forall i | 0 <= i < |r| - 1
          ensures !(r[i] == '_' && r[i + 1] == '_')
          ensures NoPair(s, '.') ==> !(r[i] == '.' && r[i + 1] == '.')
        {
          if i > 0 { assert r[i] == q[i - 1] && r[i + 1] == q[i]; }
        }
      }
    }
  }

  lemma {:induction false} RemovePairsKeeps(s: string)
    ensures Filter(RemovePairs(s), CoreChar) == Filter(s, CoreChar)
    decreases |s|
  {
    if |s| >= 2 {
      if s[0] == '.' && s[1] == '.' {
        RemovePairsKeeps(s[2..]);
        assert s == s[..2] + s[2..];
        FilterConcat(s[..2], s[2..], CoreChar);
        assert s[..2] == [s[0]] + [s[1]];
        FilterConcat([s[0]], [s[1]], CoreChar);
      } else {
        RemovePairsKeeps(s[1..]);
        assert ([s[0]] + RemovePairs(s[1..]))[1..] == RemovePairs(s[1..]);
      }
    }
  }

  lemma {:induction false} RemoveSeparatorsKeeps(s: string)
    ensures Filter(RemoveSeparators(s), CoreChar) == Filter(s, CoreChar)
  {
    if s != [] {
      RemoveSeparatorsKeeps(s[1..]);
      var head := if NotSeparator(s[0]) then [s[0]] else [];
      FilterConcat(head, RemoveSeparators(s[1..]), CoreChar);
      assert Filter(head, CoreChar) == if CoreChar(s[0]) then [s[0]] else [];
    }
  }

  lemma {:induction false} ReplaceKeeps(s: string)
    ensures Filter(ReplaceDisallowed(s), CoreChar) == Filter(s, CoreChar)
  {
    if s != [] {
      ReplaceKeeps(s[1..]);
      assert ReplaceDisallowed(s)[1..] == ReplaceDisallowed(s[1..]);
    }
  }

  /** Stripping keeps a contiguous part, and drops only edge characters. */
  lemma {:induction false} StripLeftFacts(s: string)
    ensures var r := StripLeft(s);
            && (exists k :: 0 <= k <= |s| && r == s[k..])
            && (r != [] ==> !EdgeChar(r[0]))
            && Filter(r, CoreChar) == Filter(s, CoreChar)
  {
    if s != [] && EdgeChar(s[0]) {
      StripLeftFacts(s[1..]);
      var k :| 0 <= k <= |s[1..]| && StripLeft(s[1..]) == s[1..][k..];
      assert s[1..][k..] == s[k + 1..];
    } else {
      assert s == s[0..];
    }
  }

  lemma {:induction false} StripRightFacts(s: string)
    ensures var r := StripRight(s);
            && |r| <= |s| && r == s[..|r|]
            && (r != [] ==> !EdgeChar(r[|r| - 1]))
            && Filter(r, CoreChar) == Filter(s, CoreChar)
  {
    if s != [] && EdgeChar(s[|s| - 1]) {
      var t := s[..|s| - 1];
      StripRightFacts(t);
      assert s == t + [s[|s| - 1]];
      FilterConcat(t, [s[|s| - 1]], CoreChar);
      assert t[..|StripRight(t)|] == s[..|StripRight(t)|];
    }
  }

  /** Contiguous parts inherit the "no pair" and "allowed" properties. */
  lemma SliceInherits(s: string, a: nat, b: nat)
    requires a <= b <= |s|
    ensures AllAllowed(s) ==> AllAllowed(s[a..b])
    ensures forall c :: NoPair(s, c) ==> NoPair(s[a..b], c)
  {
    var t := s[a..b];
    forall c, i | NoPair(s, c) && 0 <= i < |t| - 1 ensures !(t[i] == c && t[i + 1] == c) {
      assert t[i] == s[a + i] && t[i + 1] == s[a + i + 1];
    }
  }

  // ---- Main results --------------------------------------------------------

  lemma ReplaceFacts(s: string)
    requires NoPair(s, '.')
    ensures AllAllowed(ReplaceDisallowed(s)) && NoPair(ReplaceDisallowed(s), '.')
  {
    var r := ReplaceDisallowed(s);
    forall i | 0 <= i < |r| - 1 ensures !(r[i] == '.' && r[i + 1] == '.') {
      assert !(s[i] == '.' && s[i + 1] == '.');
    }
  }

  /** What holds of every part of a text that has gone through the earlier steps. */
  predicate Smooth(s: string) {
    AllAllowed(s) && NoPair(s, '.') && NoPair(s, '_')
  }

  lemma SmoothSlice(s: string, a: nat, b: nat)
    requires a <= b <= |s| && Smooth(s)
    ensures Smooth(s[a..b])
  {
    hide AllAllowed, NoPair;
    SliceInherits(s, a, b);
  }

  lemma StripFacts(s: string)
    requires AllAllowed(s) && NoPair(s, '.') && NoPair(s, '_')
    ensures var r := StripRight(StripLeft(s)); r == [] || Clean(r)
    ensures Filter(StripRight(StripLeft(s)), CoreChar) == Filter(s, CoreChar)
  {
    assert Smooth(s);
    hide StripLeft, StripRight, Filter, Smooth, EdgeChar;
    var k := LeftPart(s);
    SmoothSlice(s, k, |s|);
    var n := RightPart(s[k..|s|]);
    SmoothSlice(s[k..|s|], 0, n);
    EndsClean(s[k..|s|], n);
  }

  /** What is left after stripping the left is a part of the text that starts with no edge character. */
  lemma LeftPart(s: string) returns (k: nat)
    ensures k <= |s| && StripLeft(s) == s[k..|s|] && (k < |s| ==> !EdgeChar(s[k..|s|][0]))
    ensures Filter(s[k..|s|], CoreChar) == Filter(s, CoreChar)
  {
    hide StripLeft, Filter, EdgeChar;
    StripLeftFacts(s);
    k :| k <= |s| && StripLeft(s) == s[k..];
    assert s[k..] == s[k..|s|];
  }

  lemma RightPart(e: string) returns (n: nat)
    ensures n <= |e| && StripRight(e) == e[0..n] && (n > 0 ==> !EdgeChar(e[n - 1]))
    ensures Filter(e[0..n], CoreChar) == Filter(e, CoreChar)
  {
    hide StripRight, Filter, EdgeChar;
    StripRightFacts(e);
    n := |StripRight(e)|;
    assert e[0..n] == e[..n];
  }

  lemma EndsClean(e: string, n: nat)
    requires n <= |e| && Smooth(e[0..n])
    requires n > 0 ==> !EdgeChar(e[0]) && !EdgeChar(e[n - 1])
    ensures e[0..n] == [] || Clean(e[0..n])
  {
    hide AllAllowed, NoPair, EdgeChar;
    if n > 0 { assert e[0..n][0] == e[0] && e[0..n][n - 1] == e[n - 1]; }
  }

  /** Every result is clean, and the letters, digits and hyphens of the input survive in order. */
  lemma SanitizeIsClean(s: string)
    ensures Clean(Sanitize(s))
    ensures Filter(Sanitize(s), CoreChar) == Filter(s, CoreChar)
  {
    var a := RemoveSeparators(s);
    var b := RemovePairs(a);
    RemoveSeparatorsKeeps(s);
    RemovePairsKeeps(a);
    OnePassRemovesAllPairs(a);
    var c := ReplaceDisallowed(b);
    ReplaceKeeps(b);
    ReplaceFacts(b);
    var d := CollapseUnderscores(c);
    CollapseFacts(c);
    StripFacts(d);
    assert Filter("_", CoreChar) == [] by { assert !CoreChar('_'); }
  }

  lemma {:induction false} CollapseFixpoint(s: string)
    requires NoPair(s, '_')
    ensures CollapseUnderscores(s) == s
  {
    if |s| >= 2 {
      SliceInherits(s, 1, |s|);
      assert s[1..|s|] == s[1..];
      CollapseFixpoint(s[1..]);
    }
  }

  lemma {:induction false} RemoveSeparatorsFixpoint(s: string)
    requires AllAllowed(s)
    ensures RemoveSeparators(s) == s
  {
    if s != [] {
      RemoveSeparatorsFixpoint(s[1..]);
      assert AllowedChar(s[0]);
    }
  }

  /** The sanitizer's fixpoints are exactly the clean components. */
  lemma SanitizeFixpoints(s: string)
    ensures Sanitize(s) == s <==> Clean(s)
  {
    SanitizeIsClean(s);
    if Clean(s) {
      assert AllAllowed(s) && NoPair(s, '.') && NoPair(s, '_');
      RemoveSeparatorsFixpoint(s);
      RemovePairsFixpoint(s);
      assert ReplaceDisallowed(s) == s;
      CollapseFixpoint(s);
      if s == "_" {
        assert StripLeft(s) == StripLeft(s[1..]) == [];
      }
    }
  }

  lemma SanitizeIdempotent(s: string)
    ensures Sanitize(Sanitize(s)) == Sanitize(s)
  {
    SanitizeIsClean(s);
    SanitizeFixpoints(Sanitize(s));
  }

  /** Letters, digits and hyphens only, and at least one. */
  predicate Word(s: string) {
    s != "" && forall i :: 0 <= i < |s| ==> CoreChar(s[i])
  }

  /** What stands between two words: a separator vanishes, a dot stays, anything else becomes an underscore. */
  lemma GapBetweenWords(a: string, c: char, b: string)
    requires Word(a) && Word(b) && !CoreChar(c)
    ensures Sanitize(a + [c] + b) ==
            if c == '/' || c == '\\' then a + b else if c == '.' then a + "." + b else a + "_" + b
  {
    hide RemoveSeparators, RemovePairs, ReplaceDisallowed, CollapseUnderscores, StripLeft, StripRight;
    var d := if c == '/' || c == '\\' then "" else [c];
    var e := if d == "" then "" else if c == '.' then "." else "_";
    SeparatorsGone(a, c, b, d);
    PairsStay(a, d, b);
    ReplacedWords(a, d, b, e);
    EdgesStay(a, e, b);
    assert a + "" + b == a + b && a + e + b != "";
  }

  lemma SeparatorsGone(a: string, c: char, b: string, d: string)
    requires Word(a) && Word(b) && d == if c == '/' || c == '\\' then "" else [c]
    ensures RemoveSeparators(a + [c] + b) == a + d + b
  {
    hide Filter;
    FilterConcat(a + [c], b, NotSeparator);
    FilterConcat(a, [c], NotSeparator);
    RemoveSeparatorsFixpoint(a);
    RemoveSeparatorsFixpoint(b);
    KeepOne(c);
  }

  lemma PairsStay(a: string, d: string, b: string)
    requires Word(a) && Word(b) && |d| <= 1
    ensures RemovePairs(a + d + b) == a + d + b
  {
    var s := a + d + b;
    forall i | 0 <= i < |s| - 1 ensures !(s[i] == '.' && s[i + 1] == '.') {
      if i < |a| { assert CoreChar(a[i]); } else { assert CoreChar(b[i + 1 - |a| - |d|]); }
    }
    RemovePairsFixpoint(s);
  }

  lemma EdgesStay(a: string, e: string, b: string)
    requires Word(a) && Word(b) && |e| <= 1
    ensures StripRight(StripLeft(CollapseUnderscores(a + e + b))) == a + e + b
  {
    var s := a + e + b;
    forall i | 0 <= i < |s| - 1 ensures !(s[i] == '_' && s[i + 1] == '_') {
      if i < |a| { assert CoreChar(a[i]); } else { assert CoreChar(b[i + 1 - |a| - |e|]); }
    }
    CollapseFixpoint(s);
    assert CoreChar(a[0]) && CoreChar(b[|b| - 1]);
    assert s[0] == a[0] && s[|s| - 1] == b[|b| - 1];
  }

  lemma KeepOne(c: char)
    ensures Filter([c], NotSeparator) == if NotSeparator(c) then [c] else []
  {
    assert [c][1..] == [] && Filter([], NotSeparator) == [];
  }

  lemma ReplacedWords(a: string, d: string, b: string, e: string)
    requires Word(a) && Word(b) && |d| == |e| <= 1
    requires d != "" ==> e == if AllowedChar(d[0]) then d else "_"
    ensures ReplaceDisallowed(a + d + b) == a + e + b
  {
    var s := a + d + b;
    forall i | 0 <= i < |s| ensures ReplaceDisallowed(s)[i] == (a + e + b)[i] {
      if i < |a| { assert CoreChar(a[i]); }
      else if i >= |a| + |d| { assert CoreChar(b[i - |a| - |d|]); }
    }
  }

  predicate HexDigit(c: char) {
    '0' <= c <= '9' || 'a' <= c <= 'f'
  }

  /** The form of `secrets.token_hex(16)`. */
  predicate HexId(s: string) {
    |s| == 32 && forall i :: 0 <= i < |s| ==> HexDigit(s[i])
  }

  lemma SanitizeHexIdentity(s: string)
    requires HexId(s)
    ensures Sanitize(s) == s
  {
    assert HexDigit(s[0]) && HexDigit(s[|s| - 1]);
    assert Clean(s) by {
      assert forall i :: 0 <= i < |s| ==> HexDigit(s[i]) && s[i] != '.' && s[i] != '_';
    }
    SanitizeFixpoints(s);
  }

  // ---- The code itself -----------------------------------------------------

  /** `".." in cleaned`. */
  predicate HasDotPair(s: string) {
    exists i :: 0 <= i < |s| - 1 && s[i] == '.' && s[i + 1] == '.'
  }

  lemma {:induction false} PassShrinks(s: string)
    requires HasDotPair(s)
    ensures |RemovePairs(s)| < |s|
  {
    var i :| 0 <= i < |s| - 1 && s[i] == '.' && s[i + 1] == '.';
    if !(s[0] == '.' && s[1] == '.') {
      assert s[1..][i - 1] == '.' && s[1..][i] == '.';
      PassShrinks(s[1..]);
    }
  }

  /** The sanitizer as written: the removal loop terminates, and equals one pass. */
  method SanitizePathComponent(component: string) returns (r: string)
    ensures r == Sanitize(component)
    ensures Clean(r)
  {
    var cleaned := RemoveSeparators(component);
    ghost var start := cleaned;
    OnePassRemovesAllPairs(start);
    RemovePairsFixpoint(RemovePairs(start));
    while HasDotPair(cleaned)
      invariant RemovePairs(cleaned) == RemovePairs(start)
      decreases |cleaned|
    {
      PassShrinks(cleaned);
      cleaned := RemovePairs(cleaned);
    }
    RemovePairsFixpoint(cleaned);
    cleaned := ReplaceDisallowed(cleaned);
    cleaned := CollapseUnderscores(cleaned);
    cleaned := StripRight(StripLeft(cleaned));
    r := if cleaned != [] then cleaned else "_";
    SanitizeIsClean(component);
  }
}
