// Python values as `json.dumps(..., sort_keys=True)` sees them, and the normal form it writes.
module PyJson {
  import opened Prelude
  import opened JsonText

  type CodePoint = c: int | 0 <= c < 0x110000

  /** A Python string: code points, lone surrogates included. */
  type PyStr = seq<CodePoint>

  /** Values limited to null, booleans, integers, strings, lists and dictionaries (in insertion order). */
  datatype Json =
    | JNull
    | JBool(b: bool)
    | JInt(i: int)
    | JStr(s: PyStr)
    | JArr(items: seq<Json>)
    | JObj(entries: seq<Entry>)

  datatype Entry = Entry(key: PyStr, value: Json)

  /** A dictionary entry whose value is already in normal form. */
  datatype Pair = Pair(key: PyStr, value: Tree)

  // ---- Strings -----------------------------------------------------------------

  function EncodePoint(c: CodePoint): (r: Units)
    ensures r != []
  {
    if c < 0x10000 then [c] else [0xD800 + (c - 0x10000) / 0x400, 0xDC00 + (c - 0x10000) % 0x400]
  }

  function Utf16(s: PyStr): Units {
    if s == [] then [] else EncodePoint(s[0]) + Utf16(s[1..])
  }

  predicate Surrogate(c: int) {
    0xD800 <= c <= 0xDFFF
  }

  /** No lone surrogates: the strings that UTF-8 can carry. */
  predicate Scalar(s: PyStr) {
    forall i :: 0 <= i < |s| ==> !Surrogate(s[i])
  }

  lemma {:induction false} EncodePointPrefix(c: CodePoint, d: CodePoint, x: Units, y: Units)
    requires !Surrogate(c) && !Surrogate(d) && EncodePoint(c) + x == EncodePoint(d) + y
    ensures c == d && x == y
  {
    var u, v := EncodePoint(c) + x, EncodePoint(d) + y;
    assert u[0] == EncodePoint(c)[0] && v[0] == EncodePoint(d)[0];
    assert c < 0x10000 <==> d < 0x10000;
    if c >= 0x10000 {
      assert u[1] == EncodePoint(c)[1] && v[1] == EncodePoint(d)[1];
    }
    assert |EncodePoint(c)| == |EncodePoint(d)|;
    assert x == u[|EncodePoint(c)|..] && y == v[|EncodePoint(d)|..];
  }

  lemma {:induction false} Utf16Injective(s: PyStr, t: PyStr)
    requires Scalar(s) && Scalar(t)
    ensures Utf16(s) == Utf16(t) <==> s == t
  {
    if Utf16(s) == Utf16(t) && s != [] && t != [] {
      EncodePointPrefix(s[0], t[0], Utf16(s[1..]), Utf16(t[1..]));
      Utf16Injective(s[1..], t[1..]);
      assert s == [s[0]] + s[1..] && t == [t[0]] + t[1..];
    }
  }

  /** With lone surrogates two different strings are written alike: the condition above is needed. */
  lemma {:induction false} SurrogatesCollide()
    ensures Utf16([0xD83D, 0xDE00]) == Utf16([0x1F600])
  {
    assert Utf16([0x1F600]) == EncodePoint(0x1F600) + Utf16([]);
    assert Utf16([0xDE00]) == EncodePoint(0xDE00) + Utf16([]);
    assert [0xD83D, 0xDE00][1..] == [0xDE00];
    assert Utf16([0xD83D, 0xDE00]) == EncodePoint(0xD83D) + Utf16([0xDE00]);
    assert EncodePoint(0x1F600) == [0xD83D, 0xDE00];
  }

  // ---- Key order -----------------------------------------------------------------

  /** Python's order on strings: code point by code point. */
  predicate LexLe(a: PyStr, b: PyStr) {
    a == [] || (b != [] && (a[0] < b[0] || (a[0] == b[0] && LexLe(a[1..], b[1..]))))
  }

  predicate LexLt(a: PyStr, b: PyStr) {
    LexLe(a, b) && a != b
  }

  /** The first `n` code points are the same, and then `a` ends or has the smaller one. */
  predicate PrecedesAt(a: PyStr, b: PyStr, n: nat) {
    && n <= |a| && n <= |b| && a[..n] == b[..n]
    && (n == |a| || (n < |b| && a[n] < b[n]))
  }

  /** The order of the keys: by the first code point that differs, and a prefix first. */
  lemma {:induction false} LexExact(a: PyStr, b: PyStr)
    ensures LexLe(a, b) <==> exists n: nat :: PrecedesAt(a, b, n)
  {
    if a == [] {
      assert PrecedesAt(a, b, 0);
    } else if b != [] && a[0] == b[0] {
      LexExact(a[1..], b[1..]);
      assert a == [a[0]] + a[1..] && b == [b[0]] + b[1..];
      if n: nat :| PrecedesAt(a[1..], b[1..], n) {
        assert a[..n + 1] == [a[0]] + a[1..][..n] && b[..n + 1] == [b[0]] + b[1..][..n];
        assert PrecedesAt(a, b, n + 1);
      }
      if n: nat :| PrecedesAt(a, b, n) {
        assert n > 0;
        assert a[1..][..n - 1] == a[..n][1..] && b[1..][..n - 1] == b[..n][1..];
        assert PrecedesAt(a[1..], b[1..], n - 1);
      }
    } else if b != [] {
      if a[0] < b[0] { assert PrecedesAt(a, b, 0); }
      forall n: nat | PrecedesAt(a, b, n) ensures n == 0 || a[0] == b[0] { SameFirst(a, b, n); }
    }
  }

  lemma SameFirst(a: PyStr, b: PyStr, n: nat)
    requires PrecedesAt(a, b, n)
    ensures n == 0 || a[0] == b[0]
  {
    if n > 0 { assert a[..n][0] == a[0] && b[..n][0] == b[0]; }
  }

  lemma {:induction false} LexTotal(a: PyStr, b: PyStr)
    ensures LexLe(a, b) || LexLe(b, a)
  {
    if a != [] && b != [] { LexTotal(a[1..], b[1..]); }
  }

  lemma {:induction false} LexAntisymmetric(a: PyStr, b: PyStr)
    requires LexLe(a, b) && LexLe(b, a)
    ensures a == b
  {
    if a != [] && b != [] {
      LexAntisymmetric(a[1..], b[1..]);
      assert a == [a[0]] + a[1..] && b == [b[0]] + b[1..];
    }
  }

  lemma {:induction false} LexTransitive(a: PyStr, b: PyStr, c: PyStr)
    requires LexLe(a, b) && LexLe(b, c)
    ensures LexLe(a, c)
  {
    if a != [] && a[0] == b[0] && b[0] == c[0] { LexTransitive(a[1..], b[1..], c[1..]); }
  }

  // ---- Sorting -------------------------------------------------------------------

  function Insert(p: Pair, l: seq<Pair>): seq<Pair> {
    if l == [] then [p]
    else if LexLe(p.key, l[0].key) then [p] + l
    else [l[0]] + Insert(p, l[1..])
  }

  /** `sorted(dct.items())`. */
  function Sort(l: seq<Pair>): seq<Pair> {
    if l == [] then [] else Insert(l[0], Sort(l[1..]))
  }

  predicate DistinctKeys(l: seq<Pair>) {
    forall i, j :: 0 <= i < j < |l| ==> l[i].key != l[j].key
  }

  predicate Ascending(l: seq<Pair>) {
    forall i, j :: 0 <= i < j < |l| ==> LexLt(l[i].key, l[j].key)
  }

  lemma {:induction false} InsertMembers(p: Pair, l: seq<Pair>)
    ensures forall q :: q in Insert(p, l) <==> q == p || q in l
  {
    if l != [] && !LexLe(p.key, l[0].key) {
      InsertMembers(p, l[1..]);
      assert l == [l[0]] + l[1..];
    }
  }

  lemma {:induction false} InsertAscending(p: Pair, l: seq<Pair>)
    requires Ascending(l) && forall q :: q in l ==> q.key != p.key
    ensures Ascending(Insert(p, l))
  {
    if l != [] {
      var r := Insert(p, l);
      if LexLe(p.key, l[0].key) {
        forall i, j | 0 <= i < j < |r| ensures LexLt(r[i].key, r[j].key) {
          if i == 0 {
            assert l[j - 1] in l;
            if j > 1 { LexTransitive(p.key, l[0].key, l[j - 1].key); }
          } else {
            assert r[i] == l[i - 1] && r[j] == l[j - 1];
          }
        }
      } else {
        LexTotal(p.key, l[0].key);
        var t := l[1..];
        assert Ascending(t) by {
          forall i, j | 0 <= i < j < |t| ensures LexLt(t[i].key, t[j].key)
          {
            assert t[i] == l[i + 1] && t[j] == l[j + 1];
          }
        }
        assert forall q :: q in t ==> q in l;
        InsertAscending(p, t);
        InsertMembers(p, t);
        var u := Insert(p, t);
        forall i, j | 0 <= i < j < |r| ensures LexLt(r[i].key, r[j].key) {
          if i == 0 {
            assert r[j] == u[j - 1] && u[j - 1] in u;
            if u[j - 1] != p {
              var k :| 0 <= k < |t| && t[k] == u[j - 1];
              assert t[k] == l[k + 1];
            }
          } else {
            assert r[i] == u[i - 1] && r[j] == u[j - 1];
          }
        }
      }
    }
  }

  lemma {:induction false} SortFacts(l: seq<Pair>)
    ensures forall q :: q in Sort(l) <==> q in l
    ensures DistinctKeys(l) ==> Ascending(Sort(l))
  {
    if l != [] {
      var t := l[1..];
      SortFacts(t);
      InsertMembers(l[0], Sort(t));
      assert l == [l[0]] + t;
      if DistinctKeys(l) {
        assert DistinctKeys(t) by {
          forall i, j | 0 <= i < j < |t| ensures t[i].key != t[j].key { assert t[i] == l[i + 1] && t[j] == l[j + 1]; }
        }
        forall q | q in t ensures q.key != l[0].key {
          var k :| 0 <= k < |t| && t[k] == q;
          assert t[k] == l[k + 1];
        }
        InsertAscending(l[0], Sort(t));
      }
    }
  }

  lemma {:induction false} EmptySame(b: seq<Pair>)
    ensures b == [] || b[0] in b
  {
  }

  /** Strictly ascending lists with the same elements are the same list. */
  lemma {:induction false} AscendingUnique(a: seq<Pair>, b: seq<Pair>)
    requires Ascending(a) && Ascending(b) && forall q :: q in a <==> q in b
    ensures a == b
  {
    if a == [] {
      EmptySame(b);
    } else {
      assert a[0] in b;
      var k :| 0 <= k < |b| && b[k] == a[0];
      assert b[0] in a;
      var m :| 0 <= m < |a| && a[m] == b[0];
      if k > 0 && m > 0 {
        assert LexLt(b[0].key, b[k].key) && LexLt(a[0].key, a[m].key);
        LexAntisymmetric(a[0].key, b[0].key);
      }
      assert a[0] == b[0];
      AscendingTail(a, b);
      AscendingTail(b, a);
      AscendingUnique(a[1..], b[1..]);
      assert a == [a[0]] + a[1..] && b == [b[0]] + b[1..];
    }
  }

  lemma {:induction false} AscendingTail(a: seq<Pair>, b: seq<Pair>)
    requires Ascending(a) && a != [] && b != [] && a[0] == b[0] && forall q :: q in a ==> q in b
    ensures Ascending(a[1..]) && forall q :: q in a[1..] ==> q in b[1..]
  {
    var t := a[1..];
    forall i, j | 0 <= i < j < |t| ensures LexLt(t[i].key, t[j].key) { assert t[i] == a[i + 1] && t[j] == a[j + 1]; }
    forall q | q in t ensures q in b[1..] {
      var i :| 0 <= i < |t| && t[i] == q;
      assert t[i] == a[i + 1] && LexLt(a[0].key, a[i + 1].key);
      assert q in a && q != b[0];
      assert b == [b[0]] + b[1..];
    }
  }

  // ---- Normal form ---------------------------------------------------------------

  function Members(l: seq<Pair>): (r: seq<Member>)
    ensures |r| == |l|
  {
    seq(|l|, i requires 0 <= i < |l| => Member(Utf16(l[i].key), l[i].value))
  }

  /** What is written: keys sorted at every depth, strings as UTF-16. */
  function Normalize(j: Json): Tree
    decreases j
  {
    match j
    case JNull => TNull
    case JBool(b) => TBool(b)
    case JInt(i) => TInt(i)
    case JStr(s) => TStr(Utf16(s))
    case JArr(items) => TArr(NormalizeItems(items))
    case JObj(entries) => TObj(Members(Sort(Pairs(entries))))
  }

  function NormalizeItems(items: seq<Json>): (r: seq<Tree>)
    ensures |r| == |items|
    ensures forall i :: 0 <= i < |items| ==> r[i] == Normalize(items[i])
    decreases items
  {
    if items == [] then [] else [Normalize(items[0])] + NormalizeItems(items[1..])
  }

  function Pairs(entries: seq<Entry>): (r: seq<Pair>)
    ensures |r| == |entries|
    ensures forall i :: 0 <= i < |entries| ==> r[i] == Pair(entries[i].key, Normalize(entries[i].value))
    decreases entries
  {
    if entries == [] then []
    else [Pair(entries[0].key, Normalize(entries[0].value))] + Pairs(entries[1..])
  }

  /** `json.dumps(j, sort_keys=True, separators=(",", ":"))`. */
  function Dumps(j: Json): string {
    Print(Normalize(j))
  }

  predicate ScalarKeys(l: seq<Pair>) {
    forall i :: 0 <= i < |l| ==> Scalar(l[i].key)
  }

  lemma {:induction false} MembersInjective(a: seq<Pair>, b: seq<Pair>)
    requires ScalarKeys(a) && ScalarKeys(b)
    ensures Members(a) == Members(b) <==> a == b
  {
    if Members(a) == Members(b) {
      forall i | 0 <= i < |a| ensures a[i] == b[i] {
        assert Members(a)[i] == Members(b)[i];
        Utf16Injective(a[i].key, b[i].key);
      }
    }
  }

  /** Two dictionaries are written alike exactly when they hold the same pairs, in whatever order. */
  lemma {:induction false} SortedPairsEqual(a: seq<Pair>, b: seq<Pair>)
    requires DistinctKeys(a) && DistinctKeys(b) && ScalarKeys(a) && ScalarKeys(b)
    ensures Members(Sort(a)) == Members(Sort(b)) <==> forall q :: q in a <==> q in b
  {
    SortFacts(a);
    SortFacts(b);
    SortScalar(a);
    SortScalar(b);
    MembersInjective(Sort(a), Sort(b));
    if forall q :: q in a <==> q in b {
      AscendingUnique(Sort(a), Sort(b));
    }
  }

  lemma {:induction false} SortScalar(a: seq<Pair>)
    requires ScalarKeys(a)
    ensures ScalarKeys(Sort(a))
  {
    SortFacts(a);
    forall i | 0 <= i < |Sort(a)| ensures Scalar(Sort(a)[i].key) {
      assert Sort(a)[i] in a;
    }
  }

  // ---- Dictionary equality ---------------------------------------------------------

  /** Distinct keys and no lone surrogates, at every depth. */
  predicate WellFormed(j: Json)
    decreases j
  {
    match j
    case JStr(s) => Scalar(s)
    case JArr(items) => forall i :: 0 <= i < |items| ==> WellFormed(items[i])
    case JObj(entries) =>
      && (forall i, k :: 0 <= i < k < |entries| ==> entries[i].key != entries[k].key)
      && (forall i :: 0 <= i < |entries| ==> Scalar(entries[i].key) && WellFormed(entries[i].value))
    case _ => true
  }

  /** Equality of values, where dictionaries ignore the order of their entries. */
  predicate Same(a: Json, b: Json)
    decreases a
  {
    match a
    case JArr(items) => b.JArr? && |items| == |b.items| && forall i :: 0 <= i < |items| ==> Same(items[i], b.items[i])
    case JObj(entries) =>
      && b.JObj?
      && (forall i :: 0 <= i < |entries| ==> Matched(entries[i], b.entries))
      && (forall k :: 0 <= k < |b.entries| ==> HasKey(entries, b.entries[k].key))
    case _ => a == b
  }

  predicate HasKey(entries: seq<Entry>, key: PyStr) {
    exists i :: 0 <= i < |entries| && entries[i].key == key
  }

  /** Some entry of `b` has this key and an equal value. */
  predicate Matched(e: Entry, b: seq<Entry>)
    decreases e
  {
    exists k :: 0 <= k < |b| && b[k].key == e.key && Same(e.value, b[k].value)
  }

  lemma {:induction false} PairsShape(entries: seq<Entry>)
    requires WellFormed(JObj(entries))
    ensures DistinctKeys(Pairs(entries)) && ScalarKeys(Pairs(entries))
  {
  }

  /** Same pairs after normalizing, from equal dictionaries whose values normalize alike. */
  lemma {:induction false} SamePairs(a: seq<Entry>, b: seq<Entry>)
    requires forall i, j :: 0 <= i < j < |b| ==> b[i].key != b[j].key
    requires forall i :: 0 <= i < |a| ==> Matched(a[i], b)
    requires forall k :: 0 <= k < |b| ==> HasKey(a, b[k].key)
    requires forall i, k :: 0 <= i < |a| && 0 <= k < |b| && Same(a[i].value, b[k].value)
               ==> Normalize(a[i].value) == Normalize(b[k].value)
    ensures forall q :: q in Pairs(a) <==> q in Pairs(b)
  {
    hide Same, Normalize;
    var p, r := Pairs(a), Pairs(b);
    forall i | 0 <= i < |a| ensures p[i] in r {
      assert Matched(a[i], b);
      var k :| 0 <= k < |b| && b[k].key == a[i].key && Same(a[i].value, b[k].value);
      assert r[k] == p[i];
    }
    forall k | 0 <= k < |b| ensures r[k] in p {
      assert HasKey(a, b[k].key);
      var i :| 0 <= i < |a| && a[i].key == b[k].key;
      assert Matched(a[i], b);
      var m :| 0 <= m < |b| && b[m].key == a[i].key && Same(a[i].value, b[m].value);
      assert m == k;
      assert p[i] == r[k];
    }
  }

  lemma {:induction false} PairsSame(a: seq<Entry>, b: seq<Entry>)
    requires forall q :: q in Pairs(a) <==> q in Pairs(b)
    requires forall i, k :: 0 <= i < |a| && 0 <= k < |b| && Normalize(a[i].value) == Normalize(b[k].value)
               ==> Same(a[i].value, b[k].value)
    ensures forall i :: 0 <= i < |a| ==> Matched(a[i], b)
    ensures forall k :: 0 <= k < |b| ==> HasKey(a, b[k].key)
  {
    hide Same, Normalize;
    var p, r := Pairs(a), Pairs(b);
    forall i | 0 <= i < |a| ensures Matched(a[i], b) {
      assert p[i] in p && p[i] in r;
      var k :| 0 <= k < |r| && r[k] == p[i];
      assert b[k].key == a[i].key && Same(a[i].value, b[k].value);
    }
    forall k | 0 <= k < |b| ensures HasKey(a, b[k].key) {
      assert r[k] in r && r[k] in p;
      var i :| 0 <= i < |p| && p[i] == r[k];
      assert a[i].key == b[k].key;
    }
  }

  lemma {:induction false} ObjectsExact(a: seq<Entry>, b: seq<Entry>)
    requires WellFormed(JObj(a)) && WellFormed(JObj(b))
    requires forall i, k :: 0 <= i < |a| && 0 <= k < |b|
               ==> (Normalize(a[i].value) == Normalize(b[k].value) <==> Same(a[i].value, b[k].value))
    ensures Normalize(JObj(a)) == Normalize(JObj(b)) <==> Same(JObj(a), JObj(b))
  {
    hide Sort, Members, Pairs, DistinctKeys, ScalarKeys, Matched;
    PairsShape(a);
    PairsShape(b);
    SortedPairsEqual(Pairs(a), Pairs(b));
    if Same(JObj(a), JObj(b)) { SamePairs(a, b); }
    if forall q :: q in Pairs(a) <==> q in Pairs(b) { PairsSame(a, b); }
  }

  lemma {:induction false} ArraysExact(a: seq<Json>, b: seq<Json>)
    requires forall i :: 0 <= i < |a| && i < |b| ==> (Normalize(a[i]) == Normalize(b[i]) <==> Same(a[i], b[i]))
    ensures Normalize(JArr(a)) == Normalize(JArr(b)) <==> Same(JArr(a), JArr(b))
  {
    var x, y := NormalizeItems(a), NormalizeItems(b);
    if x == y {
      forall i | 0 <= i < |a| ensures Same(a[i], b[i]) { assert x[i] == y[i]; }
    }
    if Same(JArr(a), JArr(b)) {
      forall i | 0 <= i < |a| ensures x[i] == y[i] { assert Same(a[i], b[i]); }
    }
  }

  /** For values without lone surrogates the normal forms agree exactly when the values are equal. */
  lemma {:induction false} NormalizeExact(a: Json, b: Json)
    requires WellFormed(a) && WellFormed(b)
    ensures Normalize(a) == Normalize(b) <==> Same(a, b)
    decreases a
  {
    hide Sort, Members, Matched, Scalar;
    match a
    case JStr(s) => if b.JStr? { Utf16Injective(s, b.s); }
    case JArr(items) =>
      if b.JArr? {
        forall i | 0 <= i < |items| && i < |b.items|
          ensures Normalize(items[i]) == Normalize(b.items[i]) <==> Same(items[i], b.items[i])
        {
          NormalizeExact(items[i], b.items[i]);
        }
        ArraysExact(items, b.items);
      }
    case JObj(entries) =>
      if b.JObj? {
        forall i, k | 0 <= i < |entries| && 0 <= k < |b.entries|
          ensures Normalize(entries[i].value) == Normalize(b.entries[k].value) <==>
                  Same(entries[i].value, b.entries[k].value)
        {
          NormalizeExact(entries[i].value, b.entries[k].value);
        }
        ObjectsExact(entries, b.entries);
      }
    case _ =>
  }

  /** The text determines the value, and only the value: equal up to the order of dictionary entries. */
  lemma {:induction false} DumpsExact(a: Json, b: Json)
    requires WellFormed(a) && WellFormed(b)
    ensures Dumps(a) == Dumps(b) <==> Same(a, b)
  {
    PrintInjective(Normalize(a), Normalize(b));
    NormalizeExact(a, b);
  }
}
