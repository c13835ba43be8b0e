// Base64 as the two halves use it: unpadded base64url in the browser (src/intake/web/static/js/passkeys.js) and padded
// base64url in the crypto service. Sections 4 and 5 of RFC 4648.
module Base64Codec {
  import opened Prelude

  type Sextet = v: int | 0 <= v < 64

  // ---- Groups of bits --------------------------------------------------------------------------

  function High6(x: byte): Sextet { x / 4 }

  function Low2High4(x: byte, y: byte): Sextet { x % 4 * 16 + y / 16 }

  function Low4High2(y: byte, z: byte): Sextet { y % 16 * 4 + z / 64 }

  function Low6(z: byte): Sextet { z % 64 }

  function First(p: Sextet, q: Sextet): byte { p * 4 + q / 16 }

  function Second(q: Sextet, r: Sextet): byte { q % 16 * 16 + r / 4 }

  function Third(r: Sextet, t: Sextet): byte { r % 4 * 64 + t }

  /** Three bytes to four sextets; one or two bytes left over make two or three, filled with zero bits. */
  function Sextets(b: Bytes): seq<Sextet> {
    if |b| == 0 then []
    else if |b| == 1 then [High6(b[0]), Low2High4(b[0], 0)]
    else if |b| == 2 then [High6(b[0]), Low2High4(b[0], b[1]), Low4High2(b[1], 0)]
    else [High6(b[0]), Low2High4(b[0], b[1]), Low4High2(b[1], b[2]), Low6(b[2])] + Sextets(b[3..])
  }

  /** Four sextets to three bytes; bits left over are dropped, and a single sextet is no byte. */
  function Octets(q: seq<Sextet>): Option<Bytes> {
    if |q| == 0 then Some([])
    else if |q| == 1 then None
    else if |q| == 2 then Some([First(q[0], q[1])])
    else if |q| == 3 then Some([First(q[0], q[1]), Second(q[1], q[2])])
    else
      match Octets(q[4..])
      case Some(rest) => Some([First(q[0], q[1]), Second(q[1], q[2]), Third(q[2], q[3])] + rest)
      case None => None
  }

  lemma ThreeFromFour(x: byte, y: byte, z: byte)
    ensures First(High6(x), Low2High4(x, y)) == x
    ensures Second(Low2High4(x, y), Low4High2(y, z)) == y
    ensures Third(Low4High2(y, z), Low6(z)) == z
  {
  }

  lemma FourFromThree(p: Sextet, q: Sextet, r: Sextet, t: Sextet)
    ensures High6(First(p, q)) == p && Low2High4(First(p, q), Second(q, r)) == q
    ensures Low4High2(Second(q, r), Third(r, t)) == r && Low6(Third(r, t)) == t
  {
  }

  /** What is left of the last sextet of a short group. */
  lemma ShortGroups(p: Sextet, q: Sextet, r: Sextet)
    ensures High6(First(p, q)) == p && (Low2High4(First(p, q), 0) == q <==> q % 16 == 0)
    ensures Low2High4(First(p, q), Second(q, r)) == q && (Low4High2(Second(q, r), 0) == r <==> r % 4 == 0)
  {
  }

  lemma {:induction false} OctetsOfSextets(b: Bytes)
    ensures Octets(Sextets(b)) == Some(b)
    ensures |Sextets(b)| == |b| / 3 * 4 + (if |b| % 3 == 0 then 0 else |b| % 3 + 1)
  {
    hide First, Second, Third, High6, Low2High4, Low4High2, Low6;
    if |b| >= 3 {
      OctetsOfSextets(b[3..]);
      ThreeFromFour(b[0], b[1], b[2]);
      assert Sextets(b)[4..] == Sextets(b[3..]);
      assert b == [b[0], b[1], b[2]] + b[3..];
    } else if |b| == 2 {
      ThreeFromFour(b[0], b[1], 0);
      assert b == [b[0], b[1]];
    } else if |b| == 1 {
      ThreeFromFour(b[0], 0, 0);
      assert b == [b[0]];
    }
  }

  /** No single sextet is left over, and the bits that are left over are zero. */
  predicate Canonical(q: seq<Sextet>) {
    if |q| >= 4 then Canonical(q[4..])
    else |q| != 1 && (|q| == 2 ==> q[1] % 16 == 0) && (|q| == 3 ==> q[2] % 4 == 0)
  }

  /** Decoding and encoding again returns exactly the canonical sequences. */
  lemma {:induction false} SextetsOfOctets(q: seq<Sextet>)
    ensures Octets(q).Some? <==> |q| % 4 != 1
    ensures Octets(q).Some? ==> (Sextets(Octets(q).value) == q <==> Canonical(q))
  {
    hide First, Second, Third, High6, Low2High4, Low4High2, Low6;
    if |q| >= 4 {
      SextetsOfOctets(q[4..]);
      if Octets(q[4..]).Some? { FullGroup(q); } else { NoOctets(q); }
    } else if |q| == 3 {
      ShortGroups(q[0], q[1], q[2]);
      assert q == [q[0], q[1], q[2]];
    } else if |q| == 2 {
      ShortGroups(q[0], q[1], 0);
      assert q == [q[0], q[1]];
    }
  }

  lemma NoOctets(q: seq<Sextet>)
    requires |q| >= 4 && Octets(q[4..]).None?
    ensures Octets(q).None?
  {
  }

  lemma FullGroup(q: seq<Sextet>)
    requires |q| >= 4 && Octets(q[4..]).Some?
    ensures Octets(q).Some? && (Sextets(Octets(q).value) == q <==> Sextets(Octets(q[4..]).value) == q[4..])
  {
    hide First, Second, Third, High6, Low2High4, Low4High2, Low6, Octets, Sextets;
    var rest, x, y, z := Octets(q[4..]).value, First(q[0], q[1]), Second(q[1], q[2]), Third(q[2], q[3]);
    OctetsStep(q);
    FourFromThree(q[0], q[1], q[2], q[3]);
    SextetsStep(x, y, z, rest);
    assert q == [q[0], q[1], q[2], q[3]] + q[4..];
    SameTail([q[0], q[1], q[2], q[3]], Sextets(rest), q[4..]);
  }

  lemma OctetsStep(q: seq<Sextet>)
    requires |q| >= 4 && Octets(q[4..]).Some?
    ensures Octets(q) == Some([First(q[0], q[1]), Second(q[1], q[2]), Third(q[2], q[3])] + Octets(q[4..]).value)
  {
    hide First, Second, Third;
  }

  lemma SextetsStep(x: byte, y: byte, z: byte, rest: Bytes)
    ensures Sextets([x, y, z] + rest) ==
            [High6(x), Low2High4(x, y), Low4High2(y, z), Low6(z)] + Sextets(rest)
  {
    hide High6, Low2High4, Low4High2, Low6;
    assert ([x, y, z] + rest)[3..] == rest;
  }

  lemma SameTail(head: seq<Sextet>, a: seq<Sextet>, b: seq<Sextet>)
    ensures head + a == head + b <==> a == b
  {
    assert (head + a)[|head|..] == a && (head + b)[|head|..] == b;
  }

  // ---- Characters ------------------------------------------------------------------------------

  function StandardChar(v: Sextet): char {
    if v < 26 then (v + 'A' as int) as char
    else if v < 52 then (v - 26 + 'a' as int) as char
    else if v < 62 then (v - 52 + '0' as int) as char
    else if v == 62 then '+'
    else '/'
  }

  function CharValue(c: char): (r: Option<Sextet>)
    ensures r.Some? ==> StandardChar(r.value) == c
  {
    if 'A' <= c <= 'Z' then Some(c as int - 'A' as int)
    else if 'a' <= c <= 'z' then Some(c as int - 'a' as int + 26)
    else if '0' <= c <= '9' then Some(c as int - '0' as int + 52)
    else if c == '+' then Some(62)
    else if c == '/' then Some(63)
    else None
  }

  function Chars(q: seq<Sextet>): (r: string)
    ensures |r| == |q|
    ensures forall i :: 0 <= i < |q| ==> r[i] == StandardChar(q[i])
  {
    seq(|q|, i requires 0 <= i < |q| => StandardChar(q[i]))
  }

  /** The values of the characters, if all are in the alphabet. */
  function Values(s: string): (r: Option<seq<Sextet>>)
    ensures r.Some? <==> forall i :: 0 <= i < |s| ==> CharValue(s[i]).Some?
    ensures r.Some? ==> Chars(r.value) == s
  {
    if s == "" then Some([])
    else
      match (CharValue(s[0]), Values(s[1..]))
      case (Some(v), Some(rest)) => Some([v] + rest)
      case _ => None
  }

  lemma CharValueOfChar(v: Sextet)
    ensures CharValue(StandardChar(v)) == Some(v)
  {
  }

  lemma {:induction false} ValuesOfChars(q: seq<Sextet>)
    ensures Values(Chars(q)) == Some(q)
  {
    if q == [] {
      assert Chars(q) == "";
    } else {
      CharValueOfChar(q[0]);
      ValuesOfChars(q[1..]);
      assert Chars(q)[0] == StandardChar(q[0]) && Chars(q)[1..] == Chars(q[1..]);
      assert q == [q[0]] + q[1..];
    }
  }

  /** `s.replace(/c/g, d)`. */
  function Replace(s: string, c: char, d: char): (r: string)
    ensures |r| == |s|
    ensures forall i :: 0 <= i < |s| ==> r[i] == if s[i] == c then d else s[i]
  {
    seq(|s|, i requires 0 <= i < |s| => if s[i] == c then d else s[i])
  }

  function Repeat(c: char, n: nat): (r: string)
    ensures |r| == n && forall i :: 0 <= i < n ==> r[i] == c
  {
    seq(n, i => c)
  }

  // ---- btoa and atob -----------------------------------------------------------------------------

  function PadLength(n: nat): nat {
    (4 - n % 4) % 4
  }

  /** Base64 with padding. */
  function Btoa(b: Bytes): string {
    var body := Chars(Sextets(b));
    body + Repeat('=', PadLength(|body|))
  }

  predicate NotSpace(c: char) {
    c != ' ' && c != '\t' && c != '\n' && c != '\r' && c as int != 12
  }

  /** Removes one or two final equals signs from a text whose length is a multiple of four. */
  function Unpad(s: string): string {
    if |s| % 4 != 0 || |s| == 0 || s[|s| - 1] != '=' then s
    else if s[|s| - 2] == '=' then s[..|s| - 2]
    else s[..|s| - 1]
  }

  function DecodeBody(body: string): Option<Bytes> {
    match Values(body)
    case Some(q) => Octets(q)
    case None => None
  }

  /** The forgiving decoder of the browser; `None` is the exception it raises. */
  function Atob(s: string): Option<Bytes> {
    DecodeBody(Unpad(Filter(s, c => NotSpace(c))))
  }

  // ---- The helpers of passkeys.js -------------------------------------------------------------------

  function BufferToBase64url(b: Bytes): string {
    Filter(Replace(Replace(Btoa(b), '+', '-'), '/', '_'), c => c != '=')
  }

  function Base64urlToBuffer(s: string): Option<Bytes> {
    if s == "" then Some([])
    else
      var base64 := Replace(Replace(s, '-', '+'), '_', '/');
      Atob(base64 + Repeat('=', PadLength(|base64|)))
  }

  predicate UrlChar(c: char) {
    'A' <= c <= 'Z' || 'a' <= c <= 'z' || '0' <= c <= '9' || c == '-' || c == '_'
  }

  predicate UrlText(s: string) {
    forall i :: 0 <= i < |s| ==> UrlChar(s[i])
  }

  function ToStandard(s: string): string {
    Replace(Replace(s, '-', '+'), '_', '/')
  }

  function ToUrl(s: string): string {
    Replace(Replace(s, '+', '-'), '/', '_')
  }

  lemma {:induction false} FilterAll(s: string, keep: char -> bool)
    requires forall i :: 0 <= i < |s| ==> keep(s[i])
    ensures Filter(s, keep) == s
  {
    if s != "" { FilterAll(s[1..], keep); }
  }

  lemma {:induction false} FilterNone(s: string, keep: char -> bool)
    requires forall i :: 0 <= i < |s| ==> !keep(s[i])
    ensures Filter(s, keep) == ""
  {
    if s != "" { FilterNone(s[1..], keep); }
  }

  lemma UrlOfStandard(v: Sextet)
    ensures var c := StandardChar(v);
            var u := if (if c == '+' then '-' else c) == '/' then '_' else if c == '+' then '-' else c;
            UrlChar(u) && c != '='
  {
  }

  lemma EncodedText(b: Bytes)
    ensures BufferToBase64url(b) == ToUrl(Chars(Sextets(b))) && UrlText(BufferToBase64url(b))
  {
    hide Sextets, Filter;
    var body := Chars(Sextets(b));
    var pad := Repeat('=', PadLength(|body|));
    var keep := (c: char) => c != '=';
    assert ToUrl(body + pad) == ToUrl(body) + pad;
    FilterConcat(ToUrl(body), pad, keep);
    forall i | 0 <= i < |body| ensures UrlChar(ToUrl(body)[i]) { UrlOfStandard(Sextets(b)[i]); }
    FilterAll(ToUrl(body), keep);
    FilterNone(pad, keep);
    assert ToUrl(body) + "" == ToUrl(body);
  }

  lemma StandardOfUrl(c: char)
    requires UrlChar(c)
    ensures var d := if c == '-' then '+' else if c == '_' then '/' else c;
            CharValue(d).Some? && d != '=' && NotSpace(d)
    ensures var d := if c == '-' then '+' else if c == '_' then '/' else c;
            (if d == '+' then '-' else if d == '/' then '_' else d) == c
  {
  }

  /** A text over the url alphabet decodes as its characters say. */
  lemma DecodedText(s: string)
    requires UrlText(s)
    ensures Base64urlToBuffer(s) == if |s| % 4 == 1 then None else DecodeBody(ToStandard(s))
    ensures Values(ToStandard(s)).Some?
  {
    hide Filter, DecodeBody, CharValue;
    var body := ToStandard(s);
    forall i | 0 <= i < |s| ensures CharValue(body[i]).Some? && body[i] != '=' && NotSpace(body[i])
    {
      StandardOfUrl(s[i]);
    }
    var padded := body + Repeat('=', PadLength(|body|));
    FilterAll(padded, c => NotSpace(c));
    if s == "" {
      EmptyBody();
      assert body == "";
    } else if |s| % 4 != 1 {
      assert Unpad(padded) == body;
    } else {
      assert |padded| == |s| + 3;
      TriplePad(body);
    }
  }

  lemma EmptyBody()
    ensures DecodeBody("") == Some([])
  {
  }

  lemma TriplePad(body: string)
    requires |body| % 4 == 1
    ensures DecodeBody(Unpad(body + Repeat('=', 3))) == None
  {
    var padded := body + Repeat('=', 3);
    assert |padded| % 4 == 0;
    var rest := Unpad(padded);
    assert rest == padded[..|padded| - 2];
    assert rest[|body|] == '=';
    assert CharValue('=').None?;
  }

  lemma BackAndForth(s: string)
    ensures UrlText(s) ==> ToUrl(ToStandard(s)) == s
    ensures (forall i :: 0 <= i < |s| ==> s[i] != '-' && s[i] != '_') ==> ToStandard(ToUrl(s)) == s
  {
    if UrlText(s) {
      forall i | 0 <= i < |s| ensures ToUrl(ToStandard(s))[i] == s[i] { StandardOfUrl(s[i]); }
    }
  }

  lemma CharsPlain(q: seq<Sextet>)
    ensures forall i :: 0 <= i < |q| ==> Chars(q)[i] != '-' && Chars(q)[i] != '_'
  {
  }

  /** Every byte sequence comes back from its base64url form, which has no padding and no "+" or "/", and whose length
      is never one more than a multiple of four. */
  lemma Base64urlRoundTrip(b: Bytes)
    ensures Base64urlToBuffer(BufferToBase64url(b)) == Some(b)
    ensures UrlText(BufferToBase64url(b)) && |BufferToBase64url(b)| % 4 != 1
  {
    hide Sextets, Octets, ToUrl, ToStandard, BufferToBase64url, Base64urlToBuffer, CharValue, StandardChar;
    var q := Sextets(b);
    EncodedText(b);
    OctetsOfSextets(b);
    UrlLength(Chars(q));
    DecodedText(ToUrl(Chars(q)));
    CharsPlain(q);
    BackAndForth(Chars(q));
    ValuesOfChars(q);
    SextetsOfOctets(q);
  }

  lemma UrlLength(s: string)
    ensures |ToUrl(s)| == |s|
  {
  }

  /** A text over the url alphabet decodes exactly when its length is not one more than a multiple of four, and it is
      the form of the bytes it decodes to exactly when its unused bits are zero. */
  lemma Base64urlExact(s: string)
    requires UrlText(s)
    ensures Base64urlToBuffer(s).Some? <==> |s| % 4 != 1
    ensures Base64urlToBuffer(s).Some? ==>
              (BufferToBase64url(Base64urlToBuffer(s).value) == s <==> Canonical(Values(ToStandard(s)).value))
  {
    hide Sextets, Octets, BufferToBase64url, Base64urlToBuffer, Canonical, CharValue, StandardChar;
    DecodedText(s);
    var q := Values(ToStandard(s)).value;
    SextetsOfOctets(q);
    BackAndForth(s);
    if Octets(q).Some? {
      var b := Octets(q).value;
      EncodedText(b);
      CharsPlain(Sextets(b));
      CharsPlain(q);
      BackAndForth(Chars(Sextets(b)));
      ValuesOfChars(Sextets(b));
      ValuesOfChars(q);
    }
  }

  // ---- Python's urlsafe_b64encode and urlsafe_b64decode ------------------------------------------------

  function UrlsafeEncode(b: Bytes): string {
    ToUrl(Btoa(b))
  }

  /** On texts without characters outside the alphabet; `None` is the padding error. */
  function UrlsafeDecode(s: string): Option<Bytes> {
    if |s| % 4 != 0 then None else DecodeBody(Unpad(ToStandard(s)))
  }

  lemma UrlsafeRoundTrip(b: Bytes)
    ensures UrlsafeDecode(UrlsafeEncode(b)) == Some(b)
  {
    hide Sextets, Octets, StandardChar, CharValue, Values, Unpad, ToUrl, ToStandard;
    var q := Sextets(b);
    OctetsOfSextets(b);
    SextetsOfOctets(q);
    ValuesOfChars(q);
    CharsPlain(q);
    forall i | 0 <= i < |q| ensures Chars(q)[i] != '=' { UrlOfStandard(q[i]); }
    BackAndForth(Btoa(b));
    UnpadPadded(Chars(q));
    UrlLength(Btoa(b));
  }

  lemma UnpadPadded(body: string)
    requires '=' !in body && |body| % 4 != 1
    ensures var padded := body + Repeat('=', PadLength(|body|)); |padded| % 4 == 0 && Unpad(padded) == body
  {
  }

  /** `n` characters from `first` on. */
  function From(first: char, n: nat): string
    requires first as int + n < 0xD800
  {
    seq(n, i requires 0 <= i < n => (first as int + i) as char)
  }

  /** The standard alphabet: capitals, small letters, digits, "+" and "/". */
  const ALPHABET := From('A', 26) + From('a', 26) + From('0', 10) + "+/"

  /** Each value is written as its character of the alphabet. */
  lemma AlphabetExact(v: Sextet)
    ensures |ALPHABET| == 64 && StandardChar(v) == ALPHABET[v]
  {
  }

  /** A group of three bytes and its four sextets are the same 24 bits, most significant first. */
  lemma GroupIsBigEndian(x: byte, y: byte, z: byte)
    ensures Sextets([x, y, z]) == [High6(x), Low2High4(x, y), Low4High2(y, z), Low6(z)]
    ensures High6(x) * 262144 + Low2High4(x, y) * 4096 + Low4High2(y, z) * 64 + Low6(z) == x * 65536 + y * 256 + z
  {
    assert [x, y, z][3..] == [] && Sextets([]) == [];
    SplitByte(x, 4);
    SplitByte(y, 16);
    SplitByte(z, 64);
  }

  lemma SplitByte(x: byte, n: int)
    requires n == 4 || n == 16 || n == 64
    ensures x == x / n * n + x % n
  {
  }
}
