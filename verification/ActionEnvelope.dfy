// `LocalDeviceActionEnvelope` and the bytes that get signed.
module ActionEnvelope {
  import opened Prelude
  import opened JsonText
  import opened PyJson

  /** An aware datetime, already in UTC. */
  datatype UtcTime = UtcTime(year: nat, month: nat, day: nat, hour: nat, minute: nat, second: nat, micro: nat)

  predicate ValidTime(t: UtcTime) {
    1 <= t.year <= 9999 && 1 <= t.month <= 12 && 1 <= t.day <= 31
    && t.hour < 24 && t.minute < 60 && t.second < 60 && t.micro < 1000000
  }

  type Instant = t: UtcTime | ValidTime(t) witness UtcTime(1, 1, 1, 0, 0, 0, 0)

  datatype Envelope = Envelope(
    actionId: PyStr,
    deviceId: PyStr,
    actionKind: PyStr,
    aggregateType: PyStr,
    aggregateId: PyStr,
    issuedAt: Instant,
    nonce: PyStr,
    payload: seq<Entry>,
    signature: string)

  // ---- Timestamps ------------------------------------------------------------------

  function Pad2(n: nat): string
    requires n < 100
  {
    [DigitChar(n / 10), DigitChar(n % 10)]
  }

  function Pad3(n: nat): string
    requires n < 1000
  {
    [DigitChar(n / 100)] + Pad2(n % 100)
  }

  function Pad4(n: nat): string
    requires n < 10000
  {
    Pad2(n / 100) + Pad2(n % 100)
  }

  /** `str.replace(pat, rep)`: leftmost, non-overlapping. */
  function Replace(s: string, pat: string, rep: string): string
    requires pat != ""
    decreases |s|
  {
    if s == "" then ""
    else if StartsWith(s, pat) then rep + Replace(s[|pat|..], pat, rep)
    else [s[0]] + Replace(s[1..], pat, rep)
  }

  function DateTimeText(t: UtcTime): string
    requires ValidTime(t)
  {
    Pad4(t.year) + "-" + Pad2(t.month) + "-" + Pad2(t.day) + "T"
    + Pad2(t.hour) + ":" + Pad2(t.minute) + ":" + Pad2(t.second) + "." + Pad3(t.micro / 1000)
  }

  /** `ts.isoformat(timespec="milliseconds").replace("+00:00", "Z")`. */
  function IssuedAtText(t: UtcTime): string
    requires ValidTime(t)
  {
    Replace(DateTimeText(t) + "+00:00", "+00:00", "Z")
  }

  function TruncateMillis(t: UtcTime): UtcTime {
    t.(micro := t.micro / 1000 * 1000)
  }

  lemma {:induction false} ReplaceSuffix(body: string, pat: string, rep: string)
    requires pat != "" && pat[0] !in body
    ensures Replace(body + pat, pat, rep) == body + rep
  {
    var s := body + pat;
    if body == "" {
      assert s == pat && pat[..|pat|] == pat && pat[|pat|..] == "";
      assert Replace("", pat, rep) == "";
      assert rep + "" == rep;
      assert body + rep == rep;
    } else {
      assert s[0] == body[0] && body[0] in body;
      assert !StartsWith(s, pat) by {
        if |pat| <= |s| { assert s[..|pat|][0] == s[0]; }
      }
      assert s[1..] == body[1..] + pat;
      ReplaceSuffix(body[1..], pat, rep);
      assert [body[0]] + (body[1..] + rep) == body + rep;
    }
  }

  lemma Pad2Injective(m: nat, n: nat)
    requires m < 100 && n < 100 && Pad2(m) == Pad2(n)
    ensures m == n
  {
    assert Pad2(m)[0] == Pad2(n)[0] && Pad2(m)[1] == Pad2(n)[1];
  }

  lemma Pad3Injective(m: nat, n: nat)
    requires m < 1000 && n < 1000 && Pad3(m) == Pad3(n)
    ensures m == n
  {
    assert Pad3(m)[0] == Pad3(n)[0];
    assert Pad3(m)[1..] == Pad2(m % 100) && Pad3(n)[1..] == Pad2(n % 100);
    Pad2Injective(m % 100, n % 100);
  }

  lemma Pad4Injective(m: nat, n: nat)
    requires m < 10000 && n < 10000 && Pad4(m) == Pad4(n)
    ensures m == n
  {
    assert Pad4(m)[..2] == Pad2(m / 100) && Pad4(n)[..2] == Pad2(n / 100);
    assert Pad4(m)[2..] == Pad2(m % 100) && Pad4(n)[2..] == Pad2(n % 100);
    Pad2Injective(m / 100, n / 100);
    Pad2Injective(m % 100, n % 100);
  }

  /** The fixed columns of the timestamp. */
  lemma DateTimeColumns(t: UtcTime)
    requires ValidTime(t)
    ensures var s := DateTimeText(t);
            && |s| == 23
            && s[..4] == Pad4(t.year) && s[5..7] == Pad2(t.month) && s[8..10] == Pad2(t.day)
            && s[11..13] == Pad2(t.hour) && s[14..16] == Pad2(t.minute) && s[17..19] == Pad2(t.second)
            && s[20..] == Pad3(t.micro / 1000)
  {
    PadLengths();
    hide Pad2, Pad3, Pad4;
    var s := DateTimeText(t);
    assert s[..4] == Pad4(t.year) && s[20..] == Pad3(t.micro / 1000);
    assert s[5..7] == Pad2(t.month) && s[8..10] == Pad2(t.day) && s[11..13] == Pad2(t.hour);
    assert s[14..16] == Pad2(t.minute) && s[17..19] == Pad2(t.second);
  }

  lemma PadLengths()
    ensures forall n: nat :: n < 100 ==> |Pad2(n)| == 2
    ensures forall n: nat :: n < 1000 ==> |Pad3(n)| == 3
    ensures forall n: nat :: n < 10000 ==> |Pad4(n)| == 4
  {
    hide DigitChar;
  }

  lemma DateTimeNoPlus(t: UtcTime)
    requires ValidTime(t)
    ensures '+' !in DateTimeText(t)
  {
    assert forall n: nat :: n < 100 ==> '+' !in Pad2(n);
  }

  /** Two timestamps are written alike exactly when they agree up to the millisecond. */
  lemma IssuedAtExact(t: UtcTime, u: UtcTime)
    requires ValidTime(t) && ValidTime(u)
    ensures IssuedAtText(t) == IssuedAtText(u) <==> TruncateMillis(t) == TruncateMillis(u)
  {
    hide Pad2, Pad3, Pad4;
    DateTimeNoPlus(t);
    DateTimeNoPlus(u);
    ReplaceSuffix(DateTimeText(t), "+00:00", "Z");
    ReplaceSuffix(DateTimeText(u), "+00:00", "Z");
    DateTimeColumns(t);
    DateTimeColumns(u);
    if IssuedAtText(t) == IssuedAtText(u) {
      assert (DateTimeText(t) + "Z")[..23] == DateTimeText(t) && (DateTimeText(u) + "Z")[..23] == DateTimeText(u);
      assert DateTimeText(t) == DateTimeText(u);
      Pad4Injective(t.year, u.year);
      Pad2Injective(t.month, u.month);
      Pad2Injective(t.day, u.day);
      Pad2Injective(t.hour, u.hour);
      Pad2Injective(t.minute, u.minute);
      Pad2Injective(t.second, u.second);
      Pad3Injective(t.micro / 1000, u.micro / 1000);
    }
  }

  // ---- The canonical payload ---------------------------------------------------------

  /** A string literal as a Python string. */
  function Py(s: string): (r: PyStr)
    requires Ascii(s)
    ensures |r| == |s|
  {
    seq(|s|, i requires 0 <= i < |s| => s[i] as int)
  }

  lemma PyExact(s: string, t: string)
    requires Ascii(s) && Ascii(t)
    ensures Scalar(Py(s))
    ensures Py(s) == Py(t) <==> s == t
  {
    if Py(s) == Py(t) {
      forall i | 0 <= i < |s| ensures s[i] == t[i] {
        assert Py(s)[i] == Py(t)[i];
      }
      assert s == t;
    }
  }

  lemma IssuedAtAscii(t: UtcTime)
    requires ValidTime(t)
    ensures Ascii(IssuedAtText(t))
  {
    hide Pad2, Pad3, Pad4;
    DateTimeNoPlus(t);
    ReplaceSuffix(DateTimeText(t), "+00:00", "Z");
    DateTimeAscii(t);
  }

  lemma DateTimeAscii(t: UtcTime)
    requires ValidTime(t)
    ensures Ascii(DateTimeText(t))
  {
    assert forall n: nat :: n < 100 ==> Ascii(Pad2(n));
  }

  /** The dictionary handed to `json.dumps`; `lower` is `str.lower`. */
  function SignedData(e: Envelope, lower: PyStr -> PyStr): seq<Entry> {
    IssuedAtAscii(e.issuedAt);
    [ Entry(Py("action_id"), JStr(e.actionId)),
      Entry(Py("device_id"), JStr(e.deviceId)),
      Entry(Py("action_kind"), JStr(e.actionKind)),
      Entry(Py("aggregate_type"), JStr(lower(e.aggregateType))),
      Entry(Py("aggregate_id"), JStr(e.aggregateId)),
      Entry(Py("issued_at"), JStr(Py(IssuedAtText(e.issuedAt)))),
      Entry(Py("nonce"), JStr(e.nonce)),
      Entry(Py("payload"), JObj(e.payload)) ]
  }

  /** `str.encode("utf-8")` of an ASCII text. */
  function Encode(s: string): (r: Bytes)
    requires Ascii(s)
    ensures |r| == |s|
  {
    seq(|s|, i requires 0 <= i < |s| => s[i] as int)
  }

  lemma EncodeInjective(s: string, t: string)
    requires Ascii(s) && Ascii(t)
    ensures Encode(s) == Encode(t) <==> s == t
  {
    if Encode(s) == Encode(t) {
      forall i | 0 <= i < |s| ensures s[i] == t[i] {
        assert Encode(s)[i] == Encode(t)[i];
      }
      assert s == t;
    }
  }

  /** `get_canonical_payload`. */
  function CanonicalPayload(e: Envelope, lower: PyStr -> PyStr): Bytes {
    PrintAscii(Normalize(JObj(SignedData(e, lower))));
    Encode(Dumps(JObj(SignedData(e, lower))))
  }

  /** All signed fields agree: strings as UTF-16, the aggregate type lower-cased, the timestamp to the
      millisecond, the payload up to key order at any depth. */
  predicate SignedAlike(a: Envelope, b: Envelope, lower: PyStr -> PyStr) {
    Utf16(a.actionId) == Utf16(b.actionId)
    && Utf16(a.deviceId) == Utf16(b.deviceId)
    && Utf16(a.actionKind) == Utf16(b.actionKind)
    && Utf16(lower(a.aggregateType)) == Utf16(lower(b.aggregateType))
    && Utf16(a.aggregateId) == Utf16(b.aggregateId)
    && TruncateMillis(a.issuedAt) == TruncateMillis(b.issuedAt)
    && Utf16(a.nonce) == Utf16(b.nonce)
    && Normalize(JObj(a.payload)) == Normalize(JObj(b.payload))
  }

  lemma LiteralKeys(e: Envelope, lower: PyStr -> PyStr)
    ensures DistinctKeys(Pairs(SignedData(e, lower))) && ScalarKeys(Pairs(SignedData(e, lower)))
  {
    hide SignedData, Normalize, Pairs;
    var d := SignedData(e, lower);
    LiteralKeysDistinct(e, lower);
    forall i | 0 <= i < |d| ensures Scalar(d[i].key) {
      forall k | 0 <= k < |d[i].key| ensures !Surrogate(d[i].key[k]) {
        KeyAscii(e, lower, i, k);
      }
    }
  }

  lemma LiteralKeysDistinct(e: Envelope, lower: PyStr -> PyStr)
    ensures var d := SignedData(e, lower); |d| == 8 && forall i, j :: 0 <= i < j < 8 ==> d[i].key != d[j].key
  {
    hide Normalize, IssuedAtText, ValidTime, Pairs;
    var d := SignedData(e, lower);
    assert d[0].key[0] == 'a' as int && d[1].key[0] == 'd' as int && d[5].key[0] == 'i' as int;
    assert |d[0].key| == 9 && |d[1].key| == 9 && |d[2].key| == 11 && |d[3].key| == 14 && |d[4].key| == 12
        && |d[5].key| == 9 && |d[6].key| == 5 && |d[7].key| == 7;
  }

  lemma KeyAscii(e: Envelope, lower: PyStr -> PyStr, i: nat, k: nat)
    requires i < 8 && k < |SignedData(e, lower)[i].key|
    ensures SignedData(e, lower)[i].key[k] < 128
  {
  }

  lemma SignedKeysSame(a: Envelope, b: Envelope, lower: PyStr -> PyStr, i: nat)
    requires i < 8
    ensures SignedData(a, lower)[i].key == SignedData(b, lower)[i].key
  {
  }

  /** Equal as sets of pairs means equal field by field, the keys being fixed and distinct. */
  lemma PairwiseEqual(p: seq<Pair>, q: seq<Pair>)
    requires |p| == |q| && DistinctKeys(p)
    requires forall i :: 0 <= i < |p| ==> p[i].key == q[i].key
    ensures (forall x :: x in p <==> x in q) <==> p == q
  {
    if forall x :: x in p <==> x in q {
      forall i | 0 <= i < |p| ensures p[i] == q[i] {
        assert p[i] in p && p[i] in q;
        var k :| 0 <= k < |q| && q[k] == p[i];
        assert p[k].key == p[i].key;
        assert k == i;
      }
    }
  }

  /** The normalized value of each field. */
  function FieldTrees(e: Envelope, lower: PyStr -> PyStr): (r: seq<Tree>)
    ensures |r| == 8
  {
    IssuedAtAscii(e.issuedAt);
    [ TStr(Utf16(e.actionId)), TStr(Utf16(e.deviceId)), TStr(Utf16(e.actionKind)), TStr(Utf16(lower(e.aggregateType))),
      TStr(Utf16(e.aggregateId)), TStr(Utf16(Py(IssuedAtText(e.issuedAt)))), TStr(Utf16(e.nonce)),
      Normalize(JObj(e.payload)) ]
  }

  lemma FieldValues(e: Envelope, lower: PyStr -> PyStr)
    ensures var p := Pairs(SignedData(e, lower));
            |p| == 8 && forall i :: 0 <= i < 8 ==> p[i].value == FieldTrees(e, lower)[i]
  {
    hide Utf16, IssuedAtText, ValidTime, Py, Pairs;
    var d, t := SignedData(e, lower), FieldTrees(e, lower);
    assert Normalize(d[0].value) == t[0] && Normalize(d[1].value) == t[1];
    assert Normalize(d[2].value) == t[2] && Normalize(d[3].value) == t[3];
    assert Normalize(d[4].value) == t[4] && Normalize(d[5].value) == t[5];
    assert Normalize(d[6].value) == t[6] && Normalize(d[7].value) == t[7];
  }

  lemma IssuedAtTreeExact(t: UtcTime, u: UtcTime)
    requires ValidTime(t) && ValidTime(u) && Ascii(IssuedAtText(t)) && Ascii(IssuedAtText(u))
    ensures Utf16(Py(IssuedAtText(t))) == Utf16(Py(IssuedAtText(u))) <==> TruncateMillis(t) == TruncateMillis(u)
  {
    hide Utf16, IssuedAtText, TruncateMillis, ValidTime, Py;
    PyExact(IssuedAtText(t), IssuedAtText(u));
    PyExact(IssuedAtText(u), IssuedAtText(t));
    Utf16Injective(Py(IssuedAtText(t)), Py(IssuedAtText(u)));
    IssuedAtExact(t, u);
  }

  lemma FieldTreesEqual(a: Envelope, b: Envelope, lower: PyStr -> PyStr)
    ensures (forall i :: 0 <= i < 8 ==> FieldTrees(a, lower)[i] == FieldTrees(b, lower)[i]) <==>
            SignedAlike(a, b, lower)
  {
    hide Utf16, IssuedAtText, TruncateMillis, ValidTime, Py, Normalize;
    IssuedAtAscii(a.issuedAt);
    IssuedAtAscii(b.issuedAt);
    IssuedAtTreeExact(a.issuedAt, b.issuedAt);
    var t, u := FieldTrees(a, lower), FieldTrees(b, lower);
    assert (forall i :: 0 <= i < 8 ==> t[i] == u[i]) <==>
             t[0] == u[0] && t[1] == u[1] && t[2] == u[2] && t[3] == u[3] && t[4] == u[4] && t[5] == u[5]
                 && t[6] == u[6] && t[7] == u[7];
  }

  lemma FieldsEqual(a: Envelope, b: Envelope, lower: PyStr -> PyStr)
    ensures Pairs(SignedData(a, lower)) == Pairs(SignedData(b, lower)) <==> SignedAlike(a, b, lower)
  {
    hide SignedData, FieldTrees, SignedAlike, Pairs, ValidTime;
    var p, q := Pairs(SignedData(a, lower)), Pairs(SignedData(b, lower));
    FieldValues(a, lower);
    FieldValues(b, lower);
    KeysAligned(a, b, lower);
    FieldTreesEqual(a, b, lower);
    if forall i :: 0 <= i < 8 ==> FieldTrees(a, lower)[i] == FieldTrees(b, lower)[i] {
      forall i | 0 <= i < 8 ensures p[i] == q[i] {}
    }
  }

  /** The signed bytes of two envelopes are equal exactly when all signed fields agree. */
  lemma CanonicalPayloadExact(a: Envelope, b: Envelope, lower: PyStr -> PyStr)
    ensures CanonicalPayload(a, lower) == CanonicalPayload(b, lower) <==> SignedAlike(a, b, lower)
  {
    hide SignedData, SignedAlike, Pairs, Members, Sort, DistinctKeys, ScalarKeys, Print, Encode;
    var d, f := SignedData(a, lower), SignedData(b, lower);
    PrintAscii(Normalize(JObj(d)));
    PrintAscii(Normalize(JObj(f)));
    EncodeInjective(Dumps(JObj(d)), Dumps(JObj(f)));
    PrintInjective(Normalize(JObj(d)), Normalize(JObj(f)));
    LiteralKeys(a, lower);
    LiteralKeys(b, lower);
    SortedPairsEqual(Pairs(d), Pairs(f));
    KeysAligned(a, b, lower);
    PairwiseEqual(Pairs(d), Pairs(f));
    FieldsEqual(a, b, lower);
  }

  lemma KeysAligned(a: Envelope, b: Envelope, lower: PyStr -> PyStr)
    ensures var p, q := Pairs(SignedData(a, lower)), Pairs(SignedData(b, lower));
            |p| == |q| == 8 && forall i :: 0 <= i < 8 ==> p[i].key == q[i].key
  {
    forall i | 0 <= i < 8 ensures SignedData(a, lower)[i].key == SignedData(b, lower)[i].key {
      SignedKeysSame(a, b, lower, i);
    }
  }

  /** Envelopes without lone surrogates, which is all that UTF-8 transport can carry. */
  predicate WellFormedEnvelope(e: Envelope) {
    Scalar(e.actionId) && Scalar(e.deviceId) && Scalar(e.actionKind)
    && Scalar(e.aggregateId) && Scalar(e.nonce) && WellFormed(JObj(e.payload))
  }

  /** For these the agreement is plain equality of ids, kind and nonce, and equality of payloads as dictionaries. */
  lemma CanonicalPayloadInjective(a: Envelope, b: Envelope, lower: PyStr -> PyStr)
    requires WellFormedEnvelope(a) && WellFormedEnvelope(b)
    requires Scalar(lower(a.aggregateType)) && Scalar(lower(b.aggregateType))
    ensures CanonicalPayload(a, lower) == CanonicalPayload(b, lower) <==>
              && a.actionId == b.actionId && a.deviceId == b.deviceId && a.actionKind == b.actionKind
              && lower(a.aggregateType) == lower(b.aggregateType) && a.aggregateId == b.aggregateId
              && TruncateMillis(a.issuedAt) == TruncateMillis(b.issuedAt) && a.nonce == b.nonce
              && Same(JObj(a.payload), JObj(b.payload))
  {
    hide CanonicalPayload, Scalar, ValidTime, TruncateMillis, WellFormed, Same, Normalize;
    CanonicalPayloadExact(a, b, lower);
    Utf16Injective(a.actionId, b.actionId);
    Utf16Injective(a.deviceId, b.deviceId);
    Utf16Injective(a.actionKind, b.actionKind);
    Utf16Injective(lower(a.aggregateType), lower(b.aggregateType));
    Utf16Injective(a.aggregateId, b.aggregateId);
    Utf16Injective(a.nonce, b.nonce);
    NormalizeExact(JObj(a.payload), JObj(b.payload));
  }
}
