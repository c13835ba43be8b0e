// Encryption of JSON payloads (src/intake/services/crypto_service.py). The AES-GCM cipher and the random nonce are
// parameters.
module CryptoService {
  import opened Prelude
  import opened JsonText
  import opened PyJson
  import opened JsonLoads
  import opened Base64Codec
  import ActionEnvelope

  /** Key, nonce, and plaintext to ciphertext with tag, and back; `None` is a failed authentication. */
  datatype Cipher = Cipher(seal: (Bytes, Bytes, Bytes) -> Bytes, open: (Bytes, Bytes, Bytes) -> Option<Bytes>)

  /** What is sealed opens under the same key and nonce. */
  ghost predicate Sound(c: Cipher) {
    forall key, nonce, m :: c.open(key, nonce, c.seal(key, nonce, m)) == Some(m)
  }

  datatype EncryptedPayload = EncryptedPayload(ciphertext: string, nonce: string, tag: Option<string>,
    algorithm: string, keyVersion: int)

  const TAG_LENGTH := 16

  /** Where `[:-16]` ends and `[-16:]` begins. */
  function Cut(full: Bytes): (k: nat)
    ensures k <= |full|
  {
    if |full| < TAG_LENGTH then 0 else |full| - TAG_LENGTH
  }

  /** The framing of a sealed text. */
  function Frame(full: Bytes, nonce: Bytes): EncryptedPayload {
    EncryptedPayload(UrlsafeEncode(full[..Cut(full)]), UrlsafeEncode(nonce),
        Some(UrlsafeEncode(full[Cut(full)..])), "aes-gcm", 1)
  }

  /** The nonce and the sealed text of a frame; `None` when one of its parts is not base64. */
  function Unframe(e: EncryptedPayload): Option<(Bytes, Bytes)> {
    var tag := if e.tag.Some? && e.tag.value != "" then UrlsafeDecode(e.tag.value) else Some([]);
    match (UrlsafeDecode(e.ciphertext), UrlsafeDecode(e.nonce), tag)
    case (Some(ciphertext), Some(nonce), Some(tag)) => Some((nonce, ciphertext + tag))
    case _ => None
  }

  /** `bytes.decode()` of a text without multi-byte characters. */
  function DecodeAscii(b: Bytes): Option<string> {
    if forall i :: 0 <= i < |b| ==> b[i] < 128 then Some(seq(|b|, i requires 0 <= i < |b| => b[i] as char)) else None
  }

  function EncryptJson(c: Cipher, key: Bytes, nonce: Bytes, payload: seq<Entry>): EncryptedPayload {
    PrintAscii(Normalize(JObj(payload)));
    Frame(c.seal(key, nonce, ActionEnvelope.Encode(Dumps(JObj(payload)))), nonce)
  }

  /** `None` is the exception. */
  function DecryptJson(c: Cipher, key: Bytes, e: EncryptedPayload): Option<Json> {
    match Unframe(e)
    case None => None
    case Some((nonce, full)) =>
      match c.open(key, nonce, full)
      case None => None
      case Some(plain) =>
        match DecodeAscii(plain)
        case Some(text) => Loads(text)
        case None => None
  }

  const VALUE_KEY: PyStr := ActionEnvelope.Py("value")

  function EncryptString(c: Cipher, key: Bytes, nonce: Bytes, text: PyStr): EncryptedPayload {
    EncryptJson(c, key, nonce, [Entry(VALUE_KEY, JStr(text))])
  }

  function Get(entries: seq<Entry>, key: PyStr): Option<Json> {
    if entries == [] then None else if entries[0].key == key then Some(entries[0].value) else Get(entries[1..], key)
  }

  /** `str(decrypted.get("value", ""))` where the value is a string or missing; `None` is an exception or another
      value. */
  function DecryptString(c: Cipher, key: Bytes, e: EncryptedPayload): Option<PyStr> {
    match DecryptJson(c, key, e)
    case Some(JObj(entries)) =>
      (match Get(entries, VALUE_KEY)
       case Some(JStr(s)) => Some(s)
       case Some(_) => None
       case None => Some([]))
    case _ => None
  }

  /** The frame keeps nonce and sealed text, whatever their lengths. */
  lemma FrameRoundTrip(full: Bytes, nonce: Bytes)
    ensures Unframe(Frame(full, nonce)) == Some((nonce, full))
  {
    hide UrlsafeDecode, UrlsafeEncode;
    var k := Cut(full);
    UrlsafeRoundTrip(full[..k]);
    UrlsafeRoundTrip(nonce);
    UrlsafeRoundTrip(full[k..]);
    EmptyText();
    assert full[..k] + full[k..] == full;
  }

  lemma EmptyText()
    ensures UrlsafeDecode("") == Some([])
  {
    assert ToStandard("") == "";
    assert Values("") == Some([]);
  }

  lemma AsciiRoundTrip(s: string)
    requires Ascii(s)
    ensures DecodeAscii(ActionEnvelope.Encode(s)) == Some(s)
  {
    var b := ActionEnvelope.Encode(s);
    assert forall i :: 0 <= i < |b| ==> b[i] == s[i] as int;
    assert seq(|b|, i requires 0 <= i < |b| => b[i] as char) == s;
  }

  /** Decryption under the same key returns an equal dictionary exactly when no string in it spells a surrogate pair as
      two characters; it never fails. */
  lemma DecryptUndoesEncrypt(c: Cipher, key: Bytes, nonce: Bytes, payload: seq<Entry>)
    requires Sound(c) && Dicts(JObj(payload))
    ensures var back := DecryptJson(c, key, EncryptJson(c, key, nonce, payload));
            back.Some? && (Same(JObj(payload), back.value) <==> Faithful(JObj(payload)))
  {
    hide Frame, Unframe, DecodeAscii, Loads, Dumps, Dicts, Faithful, Same, Normalize, FromTree;
    var text := Dumps(JObj(payload));
    DumpsAscii(JObj(payload));
    FrameRoundTrip(c.seal(key, nonce, ActionEnvelope.Encode(text)), nonce);
    AsciiRoundTrip(text);
    LoadsDumps(JObj(payload));
  }

  lemma DumpsAscii(j: Json)
    ensures Ascii(Dumps(j))
  {
    PrintAscii(Normalize(j));
  }

  /** The same for one string. */
  lemma DecryptUndoesEncryptString(c: Cipher, key: Bytes, nonce: Bytes, text: PyStr)
    requires Sound(c)
    ensures DecryptString(c, key, EncryptString(c, key, nonce, text)) == Some(FromUtf16(Utf16(text)))
    ensures DecryptString(c, key, EncryptString(c, key, nonce, text)) == Some(text) <==> PairFree(text)
  {
    hide Frame, Unframe, DecodeAscii, Loads, Dumps, Dicts, Faithful, Same, PairFree;
    var payload := [Entry(VALUE_KEY, JStr(text))];
    var out := Dumps(JObj(payload));
    DumpsAscii(JObj(payload));
    FrameRoundTrip(c.seal(key, nonce, ActionEnvelope.Encode(out)), nonce);
    AsciiRoundTrip(out);
    SingleDict(text);
    LoadsDumps(JObj(payload));
    SingleReadBack(text);
    StringReadBack(text);
  }

  lemma SingleDict(text: PyStr)
    ensures Dicts(JObj([Entry(VALUE_KEY, JStr(text))]))
  {
  }

  lemma SingleReadBack(text: PyStr)
    ensures var back := FromTree(Normalize(JObj([Entry(VALUE_KEY, JStr(text))])));
            && back == JObj([Entry(VALUE_KEY, JStr(FromUtf16(Utf16(text))))])
            && Get(back.entries, VALUE_KEY) == Some(JStr(FromUtf16(Utf16(text))))
  {
    hide FromUtf16, Utf16, FromMembers, Members, PairFree;
    var payload := [Entry(VALUE_KEY, JStr(text))];
    var pairs := Pairs(payload);
    assert pairs == [Pair(VALUE_KEY, TStr(Utf16(text)))];
    assert pairs[1..] == [] && Sort([]) == [];
    assert Sort(pairs) == pairs;
    ValueKeyPairFree();
    MembersReadBack(pairs);
    var d := FromMembers(Members(pairs));
    assert d == [Entry(VALUE_KEY, JStr(FromUtf16(Utf16(text))))];
    assert Normalize(JObj(payload)) == TObj(Members(pairs));
  }

  lemma ValueKeyPairFree()
    ensures PairFree(VALUE_KEY)
  {
  }

  /** What a frame holds: the last sixteen bytes of the sealed text as tag, the rest as ciphertext, and the nonce. */
  lemma FrameParts(body: Bytes, tag: Bytes, nonce: Bytes)
    requires |tag| == 16
    ensures Frame(body + tag, nonce) ==
            EncryptedPayload(UrlsafeEncode(body), UrlsafeEncode(nonce), Some(UrlsafeEncode(tag)), "aes-gcm", 1)
  {
    var full := body + tag;
    assert full[..|body|] == body && full[|body|..] == tag;
  }
}
