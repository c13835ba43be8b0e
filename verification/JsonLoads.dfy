// `json.loads` on the texts `json.dumps` writes, and which values survive the way there and back.
module JsonLoads {
  import opened Prelude
  import opened JsonText
  import opened PyJson

  predicate High(c: int) {
    0xD800 <= c <= 0xDBFF
  }

  predicate Low(c: int) {
    0xDC00 <= c <= 0xDFFF
  }

  /** The code point of a surrogate pair. */
  function Join(high: int, low: int): (c: CodePoint)
    requires High(high) && Low(low)
    ensures c >= 0x10000
  {
    0x10000 + (high - 0xD800) * 0x400 + (low - 0xDC00)
  }

  /** A high surrogate escape followed by a low one is read as one code point. */
  function FromUtf16(u: Units): PyStr {
    if u == [] then []
    else if |u| >= 2 && High(u[0]) && Low(u[1]) then
      [Join(u[0], u[1])] + FromUtf16(u[2..])
    else [u[0]] + FromUtf16(u[1..])
  }

  function KeyOf(): Entry -> PyStr { (e: Entry) => e.key }

  function FromTree(t: Tree): Json
    decreases t
  {
    match t
    case TNull => JNull
    case TBool(b) => JBool(b)
    case TInt(i) => JInt(i)
    case TStr(units) => JStr(FromUtf16(units))
    case TArr(items) => JArr(FromItems(items))
    case TObj(members) => JObj(FromMembers(members))
  }

  function FromItems(items: seq<Tree>): (r: seq<Json>)
    ensures |r| == |items|
    ensures forall i :: 0 <= i < |items| ==> r[i] == FromTree(items[i])
    decreases items
  {
    if items == [] then [] else [FromTree(items[0])] + FromItems(items[1..])
  }

  /** Later members win. */
  function FromMembers(members: seq<Member>): seq<Entry>
    decreases members
  {
    if members == [] then []
    else
      var last := members[|members| - 1];
      Put(FromMembers(members[..|members| - 1]), KeyOf(), Entry(FromUtf16(last.key), FromTree(last.value)))
  }

  function Loads(s: string): Option<Json> {
    match Parse(s)
    case Some(t) => Some(FromTree(t))
    case None => None
  }

  // ---- Strings ------------------------------------------------------------------------------------

  /** No high surrogate directly before a low one. */
  predicate PairFree(s: PyStr) {
    forall i :: 0 <= i < |s| - 1 ==> !SplitPair(s, i)
  }

  predicate SplitPair(s: PyStr, i: nat)
    requires i < |s| - 1
  {
    High(s[i]) && Low(s[i + 1])
  }

  lemma PairFreeCons(c: CodePoint, s: PyStr)
    ensures PairFree([c] + s) <==> PairFree(s) && !(s != [] && High(c) && Low(s[0]))
  {
    var t := [c] + s;
    forall i | 0 <= i < |s| - 1 ensures SplitPair(s, i) == SplitPair(t, i + 1) {
    }
    if PairFree(t) {
      forall i | 0 <= i < |s| - 1 ensures !SplitPair(s, i) { assert !SplitPair(t, i + 1); }
      if s != [] { assert !SplitPair(t, 0); }
    }
    if PairFree(s) && !(s != [] && High(c) && Low(s[0])) {
      forall i | 0 <= i < |t| - 1 ensures !SplitPair(t, i) {
        if i > 0 { assert !SplitPair(s, i - 1); }
      }
    }
  }

  lemma {:induction false} ReadIsPairFree(u: Units)
    ensures PairFree(FromUtf16(u))
    ensures u != [] ==> FromUtf16(u) != [] && (FromUtf16(u)[0] == u[0] || FromUtf16(u)[0] >= 0x10000)
  {
    if u != [] {
      if |u| >= 2 && High(u[0]) && Low(u[1]) {
        ReadIsPairFree(u[2..]);
        PairFreeCons(Join(u[0], u[1]), FromUtf16(u[2..]));
      } else {
        ReadIsPairFree(u[1..]);
        PairFreeCons(u[0], FromUtf16(u[1..]));
      }
    }
  }

  lemma EncodedPair(c: CodePoint)
    requires c >= 0x10000
    ensures var e := EncodePoint(c);
            High(e[0]) && Low(e[1]) && Join(e[0], e[1]) == c
  {
  }

  lemma FirstUnit(s: PyStr)
    requires s != []
    ensures Utf16(s) != [] && (Low(Utf16(s)[0]) ==> Low(s[0]))
  {
  }

  /** A string is read back exactly when it has no surrogate pair spelled as two characters. */
  lemma {:induction false} StringReadBack(s: PyStr)
    ensures FromUtf16(Utf16(s)) == s <==> PairFree(s)
  {
    ReadIsPairFree(Utf16(s));
    if PairFree(s) { PairFreeReadBack(s); }
  }

  lemma {:induction false} PairFreeReadBack(s: PyStr)
    requires PairFree(s)
    ensures FromUtf16(Utf16(s)) == s
  {
    if s != [] {
      var rest := s[1..];
      assert s == [s[0]] + rest;
      PairFreeCons(s[0], rest);
      PairFreeReadBack(rest);
      var u := Utf16(s);
      if s[0] >= 0x10000 {
        EncodedPair(s[0]);
        assert u[2..] == Utf16(rest);
      } else {
        assert u[1..] == Utf16(rest);
        if rest != [] { FirstUnit(rest); }
      }
    }
  }

  // ---- Values --------------------------------------------------------------------------------------

  /** Dictionaries have distinct keys at every depth, as every Python dictionary does. */
  predicate Dicts(j: Json)
    decreases j
  {
    match j
    case JArr(items) => forall i :: 0 <= i < |items| ==> Dicts(items[i])
    case JObj(entries) =>
      && (forall i, k :: 0 <= i < k < |entries| ==> entries[i].key != entries[k].key)
      && (forall i :: 0 <= i < |entries| ==> Dicts(entries[i].value))
    case _ => true
  }

  /** Every string and every key is one that is read back. */
  predicate Faithful(j: Json)
    decreases j
  {
    match j
    case JStr(s) => PairFree(s)
    case JArr(items) => forall i :: 0 <= i < |items| ==> Faithful(items[i])
    case JObj(entries) => forall i :: 0 <= i < |entries| ==> FaithfulEntry(entries[i])
    case _ => true
  }

  predicate FaithfulEntry(e: Entry)
    decreases e
  {
    PairFree(e.key) && Faithful(e.value)
  }

  lemma {:induction false} PutFaithful(d: seq<Entry>, e: Entry)
    requires (forall i :: 0 <= i < |d| ==> FaithfulEntry(d[i])) && FaithfulEntry(e)
    ensures forall i :: 0 <= i < |Put(d, KeyOf(), e)| ==> FaithfulEntry(Put(d, KeyOf(), e)[i])
  {
    hide FaithfulEntry;
    if d != [] && d[0].key != e.key { PutFaithful(d[1..], e); }
  }

  /** Whatever is read is faithful. */
  lemma {:induction false} ReadIsFaithful(t: Tree)
    ensures Faithful(FromTree(t))
    decreases t
  {
    match t
    case TStr(units) => ReadIsPairFree(units);
    case TArr(items) =>
      forall i | 0 <= i < |items| ensures Faithful(FromItems(items)[i]) { ReadIsFaithful(items[i]); }
    case TObj(members) => MembersFaithful(members);
    case _ =>
  }

  lemma {:induction false} MembersFaithful(members: seq<Member>)
    ensures forall i :: 0 <= i < |FromMembers(members)| ==> FaithfulEntry(FromMembers(members)[i])
    decreases members
  {
    if members != [] {
      var last := members[|members| - 1];
      MembersFaithful(members[..|members| - 1]);
      ReadIsPairFree(last.key);
      ReadIsFaithful(last.value);
      PutFaithful(FromMembers(members[..|members| - 1]), Entry(FromUtf16(last.key), FromTree(last.value)));
    }
  }

  /** A value equal to a faithful one is faithful. */
  lemma {:induction false} SameFaithful(j: Json, k: Json)
    requires Same(j, k) && Faithful(k)
    ensures Faithful(j)
    decreases j
  {
    hide PairFree;
    match j
    case JArr(items) =>
      forall i | 0 <= i < |items| ensures Faithful(items[i]) { SameFaithful(items[i], k.items[i]); }
    case JObj(entries) =>
      forall i | 0 <= i < |entries| ensures FaithfulEntry(entries[i]) {
        assert Matched(entries[i], k.entries);
        var m :| 0 <= m < |k.entries| && k.entries[m].key == entries[i].key
            && Same(entries[i].value, k.entries[m].value);
        assert FaithfulEntry(k.entries[m]);
        SameFaithful(entries[i].value, k.entries[m].value);
      }
    case _ =>
  }

  /** The entries read from members whose keys are read back and distinct. */
  lemma {:induction false} MembersReadBack(l: seq<Pair>)
    requires DistinctKeys(l) && forall i :: 0 <= i < |l| ==> PairFree(l[i].key)
    ensures var d := FromMembers(Members(l));
            |d| == |l| && forall i :: 0 <= i < |l| ==> d[i] == Entry(l[i].key, FromTree(l[i].value))
  {
    hide PairFree;
    if l != [] {
      var init, last := l[..|l| - 1], l[|l| - 1];
      MembersReadBack(init);
      var m := Members(l);
      assert m[..|m| - 1] == Members(init);
      StringReadBack(last.key);
      PutNew(FromMembers(Members(init)), KeyOf(), Entry(last.key, FromTree(last.value)));
    }
  }

  lemma {:induction false} NormalReadBack(j: Json)
    requires Dicts(j) && Faithful(j)
    ensures Same(j, FromTree(Normalize(j)))
    decreases j
  {
    hide PairFree, Sort, Matched;
    match j
    case JStr(s) => StringReadBack(s);
    case JArr(items) =>
      forall i | 0 <= i < |items| ensures Same(items[i], FromTree(NormalizeItems(items)[i]))
      {
        NormalReadBack(items[i]);
      }
    case JObj(entries) =>
      forall i | 0 <= i < |entries|
        ensures FaithfulEntry(entries[i]) && Same(entries[i].value, FromTree(Normalize(entries[i].value)))
      {
        assert FaithfulEntry(entries[i]);
        NormalReadBack(entries[i].value);
      }
      ObjectReadBack(entries);
    case _ =>
  }

  lemma {:induction false} ObjectReadBack(entries: seq<Entry>)
    requires forall i, k :: 0 <= i < k < |entries| ==> entries[i].key != entries[k].key
    requires forall i :: 0 <= i < |entries| ==>
            PairFree(entries[i].key) && Same(entries[i].value, FromTree(Normalize(entries[i].value)))
    ensures Same(JObj(entries), FromTree(Normalize(JObj(entries))))
  {
    hide PairFree, Sort, FromMembers, Members;
    var pairs := Pairs(entries);
    var sorted := Sort(pairs);
    SortFacts(pairs);
    AscendingDistinct(sorted);
    forall i | 0 <= i < |sorted| ensures PairFree(sorted[i].key) && HasKey(entries, sorted[i].key) {
      assert sorted[i] in sorted && sorted[i] in pairs;
      var m :| 0 <= m < |pairs| && pairs[m] == sorted[i];
      assert entries[m].key == sorted[i].key;
    }
    MembersReadBack(sorted);
    var d := FromMembers(Members(sorted));
    forall i | 0 <= i < |entries| ensures Matched(entries[i], d) {
      assert pairs[i] in pairs && pairs[i] in sorted;
      var m :| 0 <= m < |sorted| && sorted[m] == pairs[i];
      assert d[m].key == entries[i].key && Same(entries[i].value, d[m].value);
    }
    assert Normalize(JObj(entries)) == TObj(Members(sorted));
  }

  lemma AscendingDistinct(l: seq<Pair>)
    requires Ascending(l)
    ensures DistinctKeys(l)
  {
  }

  /** What is written can always be read, and an equal value comes back exactly when every string is read back. */
  lemma LoadsDumps(j: Json)
    requires Dicts(j)
    ensures Loads(Dumps(j)) == Some(FromTree(Normalize(j)))
    ensures Same(j, FromTree(Normalize(j))) <==> Faithful(j)
  {
    hide Normalize, FromTree, Same, Faithful, Dicts;
    ParsePrint(Normalize(j));
    ReadIsFaithful(Normalize(j));
    if Same(j, FromTree(Normalize(j))) { SameFaithful(j, FromTree(Normalize(j))); }
    if Faithful(j) { NormalReadBack(j); }
  }
}
