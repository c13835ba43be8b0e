// What the signed bytes of an action hold: which value stands under which name (src/intake/sync/models.py, lines
// 155-173).
module CanonicalFields {
  import opened Prelude
  import opened JsonText
  import opened PyJson
  import opened JsonLoads
  import opened ActionEnvelope

  // The names of the signed fields.
  const ACTION_ID: PyStr := Py("action_id")
  const DEVICE_ID: PyStr := Py("device_id")
  const ACTION_KIND: PyStr := Py("action_kind")
  const AGGREGATE_TYPE: PyStr := Py("aggregate_type")
  const AGGREGATE_ID: PyStr := Py("aggregate_id")
  const ISSUED_AT: PyStr := Py("issued_at")
  const NONCE: PyStr := Py("nonce")
  const PAYLOAD: PyStr := Py("payload")

  /** The value under a key of a dict, if there is one. */
  function Get(d: seq<Entry>, key: PyStr): Option<Json> {
    if d == [] then None else if d[0].key == key then Some(d[0].value) else Get(d[1..], key)
  }

  lemma {:induction false} GetFinds(d: seq<Entry>, i: nat)
    requires i < |d| && forall j, k :: 0 <= j < k < |d| ==> d[j].key != d[k].key
    ensures Get(d, d[i].key) == Some(d[i].value)
  {
    if i > 0 {
      var rest := d[1..];
      forall j, k | 0 <= j < k < |rest| ensures rest[j].key != rest[k].key {
        assert rest[j] == d[j + 1] && rest[k] == d[k + 1];
      }
      assert d[0].key != d[i].key;
      GetFinds(rest, i - 1);
    }
  }

  /** A text as it comes back from its escapes. */
  function Text(s: PyStr): Json {
    JStr(FromUtf16(Utf16(s)))
  }

  /** Reading the signed text gives a dictionary with exactly eight entries. */
  function ReadBack(e: Envelope, lower: PyStr -> PyStr): Option<Json> {
    Loads(Dumps(JObj(SignedData(e, lower))))
  }

  /** The entry under `key` of the signed data comes back under that key. */
  lemma FieldBack(e: Envelope, lower: PyStr -> PyStr, i: nat)
    requires i < 8 && |SignedData(e, lower)| == 8
    ensures ReadBack(e, lower).Some? && ReadBack(e, lower).value.JObj?
    ensures var d, back := SignedData(e, lower), ReadBack(e, lower).value.entries;
            |back| == 8 && Get(back, d[i].key) == Some(FromTree(Normalize(d[i].value)))
  {
    hide SignedData, Sort, Members, FromMembers, PairFree, Print, Get;
    var d := SignedData(e, lower);
    var pairs := Pairs(d);
    var sorted := Sort(pairs);
    LiteralKeys(e, lower);
    SortFacts(pairs);
    SortLength(pairs);
    AscendingDistinct(sorted);
    forall j | 0 <= j < |sorted| ensures PairFree(sorted[j].key) {
      assert sorted[j] in sorted && sorted[j] in pairs;
      var m :| 0 <= m < |pairs| && pairs[m] == sorted[j];
      ScalarPairFree(pairs[m].key);
    }
    MembersReadBack(sorted);
    ParsePrint(Normalize(JObj(d)));
    var back := FromMembers(Members(sorted));
    assert Normalize(JObj(d)) == TObj(Members(sorted));
    assert pairs[i] in pairs && pairs[i] in sorted;
    var m :| 0 <= m < |sorted| && sorted[m] == pairs[i];
    assert back[m] == Entry(d[i].key, FromTree(Normalize(d[i].value)));
    GetFinds(back, m);
  }

  lemma ScalarPairFree(s: PyStr)
    requires Scalar(s)
    ensures PairFree(s)
  {
  }

  lemma {:induction false} SortLength(l: seq<Pair>)
    ensures |Sort(l)| == |l|
  {
    if l != [] {
      SortLength(l[1..]);
      InsertLength(l[0], Sort(l[1..]));
    }
  }

  lemma {:induction false} InsertLength(p: Pair, l: seq<Pair>)
    ensures |Insert(p, l)| == |l| + 1
  {
    if l != [] && !LexLe(p.key, l[0].key) { InsertLength(p, l[1..]); }
  }

  /** The eight names of the signed data, in the order they are assigned. */
  lemma Names(e: Envelope, lower: PyStr -> PyStr)
    ensures var d := SignedData(e, lower);
            && |d| == 8
            && d[0] == Entry(ACTION_ID, JStr(e.actionId))
            && d[1] == Entry(DEVICE_ID, JStr(e.deviceId))
            && d[2] == Entry(ACTION_KIND, JStr(e.actionKind))
            && d[3] == Entry(AGGREGATE_TYPE, JStr(lower(e.aggregateType)))
            && d[4] == Entry(AGGREGATE_ID, JStr(e.aggregateId))
            && d[5].key == ISSUED_AT && d[5].value == JStr(Py(IssuedText(e.issuedAt)))
            && d[6] == Entry(NONCE, JStr(e.nonce))
            && d[7] == Entry(PAYLOAD, JObj(e.payload))
  {
    hide Pad2, Pad3, Pad4, Replace;
    IssuedAtExactText(e.issuedAt);
  }

  /** Year, month and day, "T", hour, minute, second and millisecond, and "Z" for UTC. */
  function IssuedText(t: UtcTime): (s: string)
    requires ValidTime(t)
    ensures forall i :: 0 <= i < |s| ==> s[i] as int < 128
  {
    IssuedAtAscii(t);
    IssuedAtExactText(t);
    Pad4(t.year) + "-" + Pad2(t.month) + "-" + Pad2(t.day) + "T" + Pad2(t.hour) + ":" + Pad2(t.minute) + ":"
    + Pad2(t.second) + "." + Pad3(t.micro / 1000) + "Z"
  }

  lemma IssuedAtExactText(t: UtcTime)
    requires ValidTime(t)
    ensures IssuedAtText(t) == Pad4(t.year) + "-" + Pad2(t.month) + "-" + Pad2(t.day) + "T" + Pad2(t.hour) + ":"
                               + Pad2(t.minute) + ":" + Pad2(t.second) + "." + Pad3(t.micro / 1000) + "Z"
  {
    hide Pad2, Pad3, Pad4, Replace;
    DateTimeNoPlus(t);
    ReplaceSuffix(DateTimeText(t), "+00:00", "Z");
  }

  /** The signed text is JSON for a dictionary of exactly eight names, each with its own field of the envelope:
      strings as they come back from their escapes, the aggregate type lower-cased, the time to the millisecond,
      the payload in its normal form. */
  lemma SignedFields(e: Envelope, lower: PyStr -> PyStr)
    ensures ReadBack(e, lower).Some? && ReadBack(e, lower).value.JObj?
    ensures var back := ReadBack(e, lower).value.entries;
            && |back| == 8
            && Get(back, ACTION_ID) == Some(Text(e.actionId))
            && Get(back, DEVICE_ID) == Some(Text(e.deviceId))
            && Get(back, ACTION_KIND) == Some(Text(e.actionKind))
            && Get(back, AGGREGATE_TYPE) == Some(Text(lower(e.aggregateType)))
            && Get(back, AGGREGATE_ID) == Some(Text(e.aggregateId))
            && Get(back, ISSUED_AT) == Some(Text(Py(IssuedText(e.issuedAt))))
            && Get(back, NONCE) == Some(Text(e.nonce))
            && Get(back, PAYLOAD) == Some(FromTree(Normalize(JObj(e.payload))))
  {
    hide Get, SignedData, ReadBack, Py, IssuedText, FromUtf16, Utf16;
    Names(e, lower);
    FieldBack(e, lower, 0);
    FieldBack(e, lower, 1);
    FieldBack(e, lower, 2);
    FieldBack(e, lower, 3);
    FieldBack(e, lower, 4);
    FieldBack(e, lower, 5);
    FieldBack(e, lower, 6);
    FieldBack(e, lower, 7);
    forall s: PyStr ensures FromTree(Normalize(JStr(s))) == Text(s) { TextBack(s); }
  }

  lemma TextBack(s: PyStr)
    ensures FromTree(Normalize(JStr(s))) == Text(s)
  {
  }
}
