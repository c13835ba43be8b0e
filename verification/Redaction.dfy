// Redaction of provider configurations before they are shown (src/intake/deploy/provider_redaction.py).
module Redaction {
  import opened Prelude

  /** A configuration value. `Scalar` is any value that is neither None, text, list nor dict; `text` is its `str()`. */
  datatype Value =
    | PyNone
    | Scalar(text: string)
    | Str(s: string)
    | List(items: seq<Value>)
    | Dict(entries: seq<Entry>)

  /** A dict entry; a dict is its entries in insertion order. */
  datatype Entry = Entry(key: string, value: Value)

  /** Library text operations: `str.lower`, a match of one of the compiled secret patterns, a match of one of the
      path patterns. */
  datatype Rules = Rules(lower: string -> string, secretPattern: string -> bool, pathPattern: string -> bool)

  const REDACTED := "[REDACTED]"
  const PATH_REDACTED := "[FILE_PATH_REDACTED]"

  /** None of the patterns matches a placeholder. */
  predicate Sound(r: Rules) {
    !r.secretPattern(REDACTED) && !r.secretPattern(PATH_REDACTED) && !r.pathPattern(REDACTED)
        && !r.pathPattern(PATH_REDACTED)
  }

  const SECRET_KEY_NAMES: seq<string> := [
    "api_key", "apikey", "api-key", "secret", "secret_key", "secret-key", "token", "access_token", "access-token",
    "refresh_token", "refresh-token", "password", "passwd", "pwd", "credential", "credentials", "auth", "authorization",
    "private_key", "private-key", "privatekey", "signing_key", "signing-key", "encryption_key", "encryption-key",
    "sync_token", "sync-token", "database_url", "database-url", "connection_string", "connection-string",
    "session_secret", "session-secret", "access_key_id", "access-key-id", "secret_access_key", "secret-access-key",
    "AWS_ACCESS_KEY_ID", "AWS_SECRET_ACCESS_KEY", "GOOGLE_DRIVE_API_KEY", "TAILSCALE_AUTH_KEY", "CLOUDFLARE_API_TOKEN"]

  const LOCAL_ONLY_KEY_PATTERNS: seq<string> := ["INTAKE_LOCAL_", "LOCALiega", "PRIVATE_", "DEV_", "TEST_", "SECRET_"]

  predicate Contains(s: string, part: string) {
    exists i :: 0 <= i <= |s| - |part| && s[i..][..|part|] == part
  }

  predicate NamesSecret(r: Rules, key: string) {
    exists i :: 0 <= i < |SECRET_KEY_NAMES| && Contains(r.lower(key), SECRET_KEY_NAMES[i])
  }

  predicate SecretKey(r: Rules, key: string) {
    NamesSecret(r, key) || exists i :: 0 <= i < |LOCAL_ONLY_KEY_PATTERNS| && Contains(key, LOCAL_ONLY_KEY_PATTERNS[i])
  }

  predicate TokenChar(c: char) {
    'a' <= c <= 'z' || 'A' <= c <= 'Z' || '0' <= c <= '9' || c in "_-.=/+"
  }

  /** The long-token pattern; like `$`, it lets one final newline pass. */
  predicate TokenLike(s: string) {
    WithoutNewline(s) != "" && forall i :: 0 <= i < |WithoutNewline(s)| ==> TokenChar(WithoutNewline(s)[i])
  }

  function WithoutNewline(s: string): string {
    if s != "" && s[|s| - 1] == '\n' then s[..|s| - 1] else s
  }

  predicate PathChar(c: char) {
    'a' <= c <= 'z' || 'A' <= c <= 'Z' || '0' <= c <= '9' || c in "_-./\\"
  }

  predicate SlashRun(s: string) {
    exists i :: 0 <= i < |s| - 1 && (s[i] == '/' || s[i] == '\\') && PathChar(s[i + 1])
  }

  predicate PathLike(r: Rules, s: string) {
    r.pathPattern(s) || ((StartsWith(s, "/") || StartsWith(s, "C:\\") || '\\' in s) && SlashRun(s))
  }

  /** The secret rule of the first pass: a secret pattern, or a long token. */
  predicate LooksSecret(r: Rules, s: string) {
    r.secretPattern(s) || (|s| > 32 && TokenLike(s))
  }

  predicate Leaf(v: Value) {
    v.PyNone? || v.Scalar? || v.Str?
  }

  // ---- The three passes ----------------------------------------------------------------

  /** `redact_secret_value` under a key. */
  function RedactSecretValue(r: Rules, v: Value, key: string): string
    requires Leaf(v)
  {
    match v
    case PyNone => REDACTED
    case Scalar(text) => if key != "" && NamesSecret(r, key) then REDACTED else text
    case Str(s) =>
      if s == "" then s
      else if key != "" && NamesSecret(r, key) then REDACTED
      else if r.secretPattern(s) then REDACTED
      else if |s| > 32 && TokenLike(s) then REDACTED
      else s
  }

  function RedactEntry(r: Rules, e: Entry): Value
    decreases e
  {
    if SecretKey(r, e.key) then Str(REDACTED)
    else
      match e.value
      case Dict(entries) => Dict(RedactKeys(r, entries))
      case List(items) => List(RedactItems(r, items))
      case _ => Str(RedactSecretValue(r, e.value, e.key))
  }

  /** First pass: `redact_dict_keys`. */
  function RedactKeys(r: Rules, d: seq<Entry>): (out: seq<Entry>)
    ensures |out| == |d|
    decreases d
  {
    if d == [] then [] else [Entry(d[0].key, RedactEntry(r, d[0]))] + RedactKeys(r, d[1..])
  }

  /** The dicts directly inside a list are redacted; every other item stays. */
  function RedactItems(r: Rules, items: seq<Value>): (out: seq<Value>)
    ensures |out| == |items|
    decreases items
  {
    if items == [] then []
    else [if items[0].Dict? then Dict(RedactKeys(r, items[0].entries)) else items[0]] + RedactItems(r, items[1..])
  }

  /** A pass that rewrites every string below a value with `f`. */
  function MapStrings(f: string -> string, v: Value): Value
    decreases v
  {
    match v
    case Str(s) => Str(f(s))
    case List(items) => List(MapItems(f, items))
    case Dict(entries) => Dict(MapEntries(f, entries))
    case _ => v
  }

  function MapItems(f: string -> string, items: seq<Value>): (out: seq<Value>)
    ensures |out| == |items|
    decreases items
  {
    if items == [] then [] else [MapStrings(f, items[0])] + MapItems(f, items[1..])
  }

  function MapEntries(f: string -> string, d: seq<Entry>): (out: seq<Entry>)
    ensures |out| == |d|
    decreases d
  {
    if d == [] then [] else [Entry(d[0].key, MapStrings(f, d[0].value))] + MapEntries(f, d[1..])
  }

  function HidePath(r: Rules, s: string): string {
    if PathLike(r, s) then PATH_REDACTED else s
  }

  function HideSecret(r: Rules, s: string): string {
    if r.secretPattern(s) then REDACTED
    else if |s| > 40 && TokenLike(s) then REDACTED
    else s
  }

  /** Second pass: `redact_file_paths`. */
  function RedactFilePaths(r: Rules, v: Value): Value {
    MapStrings(s => HidePath(r, s), v)
  }

  /** Third pass: `check_value`. */
  function CheckValue(r: Rules, v: Value): Value {
    MapStrings(s => HideSecret(r, s), v)
  }

  /** `sanitize_provider_config`. */
  function SanitizeConfig(r: Rules, config: seq<Entry>): Value {
    CheckValue(r, RedactFilePaths(r, Dict(RedactKeys(r, config))))
  }

  // ---- The first pass as the source runs it -----------------------------------------------

  predicate DistinctKeys(d: seq<Entry>) {
    forall i, j :: 0 <= i < j < |d| ==> d[i].key != d[j].key
  }

  /** Every dict below the value has distinct keys. */
  predicate Proper(v: Value)
    decreases v
  {
    match v
    case List(items) => forall i :: 0 <= i < |items| ==> Proper(items[i])
    case Dict(entries) => DistinctKeys(entries) && forall i :: 0 <= i < |entries| ==> Proper(entries[i].value)
    case _ => true
  }

  function KeyOf(): Entry -> string { (e: Entry) => e.key }

  lemma ProperParts(d: seq<Entry>, i: nat)
    requires i < |d| && Proper(Dict(d))
    ensures match d[i].value
            case Dict(entries) => Proper(Dict(entries))
            case List(items) => forall k :: 0 <= k < |items| ==> Proper(items[k])
            case _ => true
    ensures forall k :: 0 <= k < i ==> d[k].key != d[i].key
  {
    assert Proper(d[i].value);
  }

  method RedactDictKeys(r: Rules, d: seq<Entry>) returns (result: seq<Entry>)
    requires Proper(Dict(d))
    ensures result == RedactKeys(r, d)
    decreases d
  {
    hide NamesSecret, SecretKey, RedactSecretValue, RedactItems, RedactKeys, Proper, Put;
    result := [];
    var i := 0;
    assert d[0..] == d;
    while i < |d|
      invariant 0 <= i <= |d| && |result| == i
      invariant forall k :: 0 <= k < i ==> result[k].key == d[k].key
      invariant result + RedactKeys(r, d[i..]) == RedactKeys(r, d)
    {
      var key, value := d[i].key, d[i].value;
      var redacted: Value;
      ProperParts(d, i);
      if SecretKey(r, key) {
        redacted := Str(REDACTED);
      } else if value.Dict? {
        var inner := RedactDictKeys(r, value.entries);
        redacted := Dict(inner);
      } else if value.List? {
        var items := RedactListItems(r, value.items);
        redacted := List(items);
      } else {
        redacted := Str(RedactSecretValue(r, value, key));
      }
      assert redacted == RedactEntry(r, d[i]);
      StepPuts(r, d, i, result, redacted);
      result := Put(result, KeyOf(), Entry(key, redacted));
      i := i + 1;
    }
    assert d[i..] == [];
    NoKeys(r);
  }

  /** One round of the loop, on its invariant. */
  lemma StepPuts(r: Rules, d: seq<Entry>, i: nat, result: seq<Entry>, redacted: Value)
    requires i < |d| == |result| + |d[i..]| && redacted == RedactEntry(r, d[i])
    requires forall k :: 0 <= k < i ==> result[k].key == d[k].key && d[k].key != d[i].key
    ensures var e := Entry(d[i].key, redacted);
            && Put(result, KeyOf(), e) == result + [e]
            && Put(result, KeyOf(), e) + RedactKeys(r, d[i + 1..]) == result + RedactKeys(r, d[i..])
  {
    hide RedactKeys, RedactEntry, Put;
    var e := Entry(d[i].key, redacted);
    KeysStep(r, d, i);
    PutNew(result, KeyOf(), e);
    assert result + ([e] + RedactKeys(r, d[i + 1..])) == result + [e] + RedactKeys(r, d[i + 1..]);
  }

  lemma NoKeys(r: Rules)
    ensures RedactKeys(r, []) == []
  {
  }

  lemma KeysStep(r: Rules, d: seq<Entry>, i: nat)
    requires i < |d|
    ensures RedactKeys(r, d[i..]) == [Entry(d[i].key, RedactEntry(r, d[i]))] + RedactKeys(r, d[i + 1..])
  {
    assert d[i..][1..] == d[i + 1..];
  }

  method RedactListItems(r: Rules, items: seq<Value>) returns (result: seq<Value>)
    requires forall i :: 0 <= i < |items| ==> Proper(items[i])
    ensures result == RedactItems(r, items)
    decreases items
  {
    hide RedactKeys;
    result := [];
    var i := 0;
    while i < |items|
      invariant 0 <= i <= |items|
      invariant result + RedactItems(r, items[i..]) == RedactItems(r, items)
    {
      var item := items[i];
      assert items[i..] == [item] + items[i + 1..];
      if item.Dict? {
        var inner := RedactDictKeys(r, item.entries);
        item := Dict(inner);
      }
      result := result + [item];
      i := i + 1;
    }
  }

  // ---- One pass instead of three -------------------------------------------------------------

  /** Passes two and three on one string. */
  function Scrub(r: Rules, s: string): string {
    HideSecret(r, HidePath(r, s))
  }

  function OneEntry(r: Rules, e: Entry): Value
    decreases e
  {
    if SecretKey(r, e.key) then Str(REDACTED)
    else
      match e.value
      case Dict(entries) => Dict(OneDict(r, entries))
      case List(items) => List(OneList(r, items))
      case PyNone => Str(REDACTED)
      case Scalar(text) => Str(Scrub(r, text))
      case Str(s) => Str(if s != "" && LooksSecret(r, s) then REDACTED else Scrub(r, s))
  }

  function OneDict(r: Rules, d: seq<Entry>): (out: seq<Entry>)
    ensures |out| == |d|
    decreases d
  {
    if d == [] then [] else [Entry(d[0].key, OneEntry(r, d[0]))] + OneDict(r, d[1..])
  }

  function OneItem(r: Rules, v: Value): Value
    decreases v
  {
    if v.Dict? then Dict(OneDict(r, v.entries)) else MapStrings(s => Scrub(r, s), v)
  }

  function OneList(r: Rules, items: seq<Value>): (out: seq<Value>)
    ensures |out| == |items|
    decreases items
  {
    if items == [] then [] else [OneItem(r, items[0])] + OneList(r, items[1..])
  }

  lemma {:induction false} MapsCompose(r: Rules, v: Value)
    ensures CheckValue(r, RedactFilePaths(r, v)) == MapStrings(s => Scrub(r, s), v)
    decreases v
  {
    hide PathLike, HideSecret, HidePath;
    match v
    case List(items) => ItemMapsCompose(r, items);
    case Dict(entries) => EntryMapsCompose(r, entries);
    case _ =>
  }

  lemma {:induction false} ItemMapsCompose(r: Rules, items: seq<Value>)
    ensures MapItems(s => HideSecret(r, s), MapItems(s => HidePath(r, s), items)) == MapItems(s => Scrub(r, s), items)
    decreases items
  {
    hide PathLike, HideSecret, HidePath, Scrub;
    if items != [] {
      MapsCompose(r, items[0]);
      ItemMapsCompose(r, items[1..]);
    }
  }

  lemma {:induction false} EntryMapsCompose(r: Rules, d: seq<Entry>)
    ensures MapEntries(s => HideSecret(r, s), MapEntries(s => HidePath(r, s), d)) == MapEntries(s => Scrub(r, s), d)
    decreases d
  {
    hide PathLike, HideSecret, HidePath, Scrub;
    if d != [] {
      MapsCompose(r, d[0].value);
      EntryMapsCompose(r, d[1..]);
    }
  }

  lemma ScrubPlaceholder(r: Rules)
    requires Sound(r)
    ensures Scrub(r, REDACTED) == REDACTED && Scrub(r, PATH_REDACTED) == PATH_REDACTED
  {
  }


  /** The three passes in turn compute exactly the single pass. */
  lemma PipelineIsOnePass(r: Rules, config: seq<Entry>)
    requires Sound(r)
    ensures SanitizeConfig(r, config) == Dict(OneDict(r, config))
  {
    MapsCompose(r, Dict(RedactKeys(r, config)));
    FuseKeys(r, config);
  }

  lemma {:induction false} FuseKeys(r: Rules, d: seq<Entry>)
    requires Sound(r)
    ensures MapEntries(s => Scrub(r, s), RedactKeys(r, d)) == OneDict(r, d)
    decreases d
  {
    hide Scrub, Sound, NamesSecret, SecretKey, TokenLike;
    if d != [] {
      FuseKeys(r, d[1..]);
      FuseEntry(r, d[0]);
      var rest := RedactKeys(r, d[1..]);
      assert RedactKeys(r, d)[1..] == rest;
    }
  }

  lemma {:induction false} FuseEntry(r: Rules, e: Entry)
    requires Sound(r)
    ensures MapStrings(s => Scrub(r, s), RedactEntry(r, e)) == OneEntry(r, e)
    decreases e
  {
    hide Scrub, Sound, NamesSecret, TokenLike;
    ScrubPlaceholder(r);
    if !SecretKey(r, e.key) {
      match e.value
      case Dict(entries) => FuseKeys(r, entries);
      case List(items) => FuseItems(r, items);
      case _ =>
    }
  }

  lemma {:induction false} FuseItems(r: Rules, items: seq<Value>)
    requires Sound(r)
    ensures MapItems(s => Scrub(r, s), RedactItems(r, items)) == OneList(r, items)
    decreases items
  {
    hide Scrub, Sound;
    if items != [] {
      FuseItems(r, items[1..]);
      if items[0].Dict? { FuseKeys(r, items[0].entries); }
      assert RedactItems(r, items)[1..] == RedactItems(r, items[1..]);
    }
  }

  // ---- Clean leaves and fixpoints --------------------------------------------------------------

  /** No secret rule and no path rule matches. */
  predicate Clean(r: Rules, s: string) {
    !r.secretPattern(s) && !PathLike(r, s) && !(|s| > 40 && TokenLike(s))
  }

  predicate AllClean(r: Rules, v: Value)
    decreases v
  {
    match v
    case Str(s) => Clean(r, s)
    case List(items) => ItemsClean(r, items)
    case Dict(entries) => EntriesClean(r, entries)
    case _ => true
  }

  predicate ItemsClean(r: Rules, items: seq<Value>)
    decreases items
  {
    items == [] || (AllClean(r, items[0]) && ItemsClean(r, items[1..]))
  }

  predicate EntriesClean(r: Rules, d: seq<Entry>)
    decreases d
  {
    d == [] || (AllClean(r, d[0].value) && EntriesClean(r, d[1..]))
  }

  lemma PlaceholdersClean(r: Rules)
    requires Sound(r)
    ensures Clean(r, REDACTED) && Clean(r, PATH_REDACTED)
  {
    hide TokenLike, PathChar;
    assert !SlashRun(REDACTED) && !SlashRun(PATH_REDACTED);
  }

  lemma ScrubCleans(r: Rules, s: string)
    requires Sound(r)
    ensures Clean(r, Scrub(r, s))
    ensures Clean(r, s) ==> HidePath(r, s) == s && HideSecret(r, s) == s
  {
    hide PathLike, TokenLike, Sound;
    PlaceholdersClean(r);
  }

  lemma {:induction false} MapCleans(r: Rules, v: Value)
    requires Sound(r)
    ensures AllClean(r, MapStrings(s => Scrub(r, s), v))
    decreases v
  {
    hide Sound, Scrub, Clean;
    match v
    case Str(s) => ScrubCleans(r, s);
    case List(items) => MapItemsCleans(r, items);
    case Dict(entries) => MapEntriesCleans(r, entries);
    case _ =>
  }

  lemma {:induction false} MapItemsCleans(r: Rules, items: seq<Value>)
    requires Sound(r)
    ensures ItemsClean(r, MapItems(s => Scrub(r, s), items))
    decreases items
  {
    hide Sound, Scrub, Clean;
    if items != [] {
      MapCleans(r, items[0]);
      MapItemsCleans(r, items[1..]);
    }
  }

  lemma {:induction false} MapEntriesCleans(r: Rules, d: seq<Entry>)
    requires Sound(r)
    ensures EntriesClean(r, MapEntries(s => Scrub(r, s), d))
    decreases d
  {
    hide Sound, Scrub, Clean;
    if d != [] {
      MapCleans(r, d[0].value);
      MapEntriesCleans(r, d[1..]);
    }
  }

  lemma {:induction false} CleanIsFixed(r: Rules, v: Value)
    requires Sound(r) && AllClean(r, v)
    ensures RedactFilePaths(r, v) == v && CheckValue(r, v) == v
    decreases v
  {
    hide Sound, Clean, HidePath, HideSecret;
    match v
    case Str(s) => ScrubCleans(r, s);
    case List(items) => CleanItemsFixed(r, items);
    case Dict(entries) => CleanEntriesFixed(r, entries);
    case _ =>
  }

  lemma {:induction false} CleanItemsFixed(r: Rules, items: seq<Value>)
    requires Sound(r) && ItemsClean(r, items)
    ensures MapItems(s => HidePath(r, s), items) == items && MapItems(s => HideSecret(r, s), items) == items
    decreases items
  {
    hide Sound, Clean, HidePath, HideSecret;
    if items != [] {
      CleanIsFixed(r, items[0]);
      CleanItemsFixed(r, items[1..]);
    }
  }

  lemma {:induction false} CleanEntriesFixed(r: Rules, d: seq<Entry>)
    requires Sound(r) && EntriesClean(r, d)
    ensures MapEntries(s => HidePath(r, s), d) == d && MapEntries(s => HideSecret(r, s), d) == d
    decreases d
  {
    hide Sound, Clean, HidePath, HideSecret;
    if d != [] {
      CleanIsFixed(r, d[0].value);
      CleanEntriesFixed(r, d[1..]);
    }
  }

  /** Every string of a sanitized configuration, at any depth, is clean, so passes two and three leave it as it is. */
  lemma SanitizedIsClean(r: Rules, config: seq<Entry>)
    requires Sound(r)
    ensures var out := SanitizeConfig(r, config);
            AllClean(r, out) && RedactFilePaths(r, out) == out && CheckValue(r, out) == out
  {
    MapsCompose(r, Dict(RedactKeys(r, config)));
    MapCleans(r, Dict(RedactKeys(r, config)));
    CleanIsFixed(r, SanitizeConfig(r, config));
  }

  /** A non-string value that becomes a string no rule of the later passes matches, yet the first pass would redact. */
  predicate Slips(r: Rules, text: string) {
    32 < |text| <= 40 && TokenLike(text) && !r.secretPattern(text) && !PathLike(r, text)
  }

  predicate SlipFree(r: Rules, d: seq<Entry>)
    decreases d
  {
    d == [] || (SlipFreeEntry(r, d[0]) && SlipFree(r, d[1..]))
  }

  predicate SlipFreeEntry(r: Rules, e: Entry)
    decreases e
  {
    SecretKey(r, e.key) ||
    match e.value
    case Scalar(text) => !Slips(r, text)
    case Dict(entries) => SlipFree(r, entries)
    case List(items) => SlipFreeItems(r, items)
    case _ => true
  }

  predicate SlipFreeItems(r: Rules, items: seq<Value>)
    decreases items
  {
    items == [] || ((items[0].Dict? ==> SlipFree(r, items[0].entries)) && SlipFreeItems(r, items[1..]))
  }

  /** The first pass again on a scrubbed leaf. */
  lemma ScrubbedUnderKey(r: Rules, text: string, key: string)
    requires Sound(r) && !SecretKey(r, key)
    ensures RedactSecretValue(r, Str(Scrub(r, text)), key) == Scrub(r, text) <==> !Slips(r, text)
  {
    hide PathLike, TokenLike, NamesSecret, SecretKey, Sound;
    PlaceholdersClean(r);
    SecretKeyCovers(r, key);
    assert |REDACTED| == 10 && |PATH_REDACTED| == 20;
  }

  lemma SecretKeyCovers(r: Rules, key: string)
    requires !SecretKey(r, key)
    ensures !NamesSecret(r, key)
  {
  }

  lemma StringUnderKey(r: Rules, s: string, key: string)
    requires Sound(r) && !SecretKey(r, key)
    ensures var t := OneEntry(r, Entry(key, Str(s))).s; RedactSecretValue(r, Str(t), key) == t
  {
    hide PathLike, TokenLike, NamesSecret, SecretKey, Sound;
    PlaceholdersClean(r);
    SecretKeyCovers(r, key);
    assert |REDACTED| == 10 && |PATH_REDACTED| == 20;
  }

  lemma {:induction false} KeysAgain(r: Rules, d: seq<Entry>)
    requires Sound(r)
    ensures RedactKeys(r, OneDict(r, d)) == OneDict(r, d) <==> SlipFree(r, d)
    decreases d
  {
    hide Sound, SecretKey, OneEntry, RedactEntry;
    if d != [] {
      KeysAgain(r, d[1..]);
      EntryAgain(r, d[0]);
      var one := OneDict(r, d);
      assert one[1..] == OneDict(r, d[1..]);
      var two := RedactKeys(r, one);
      assert two[1..] == RedactKeys(r, one[1..]) && two[0].value == RedactEntry(r, one[0]);
      assert two == one <==> two[0] == one[0] && two[1..] == one[1..] by {
        assert two == [two[0]] + two[1..] && one == [one[0]] + one[1..];
      }
    }
  }

  lemma {:induction false} EntryAgain(r: Rules, e: Entry)
    requires Sound(r)
    ensures RedactEntry(r, Entry(e.key, OneEntry(r, e))) == OneEntry(r, e) <==> SlipFreeEntry(r, e)
    decreases e
  {
    hide Sound, Slips, NamesSecret, PathLike, TokenLike, Scrub;
    if !SecretKey(r, e.key) {
      match e.value
      case Dict(entries) => KeysAgain(r, entries);
      case List(items) => ItemsAgain(r, items);
      case Scalar(text) => ScrubbedUnderKey(r, text, e.key);
      case Str(s) => StringUnderKey(r, s, e.key); assert e == Entry(e.key, Str(s));
      case PyNone => PlaceholdersClean(r); SecretKeyCovers(r, e.key);
    }
  }

  lemma {:induction false} ItemsAgain(r: Rules, items: seq<Value>)
    requires Sound(r)
    ensures RedactItems(r, OneList(r, items)) == OneList(r, items) <==> SlipFreeItems(r, items)
    decreases items
  {
    hide Sound, Scrub, OneDict, RedactKeys;
    if items != [] {
      ItemsAgain(r, items[1..]);
      if items[0].Dict? { KeysAgain(r, items[0].entries); }
      var one := OneList(r, items);
      assert one[1..] == OneList(r, items[1..]);
      var two := RedactItems(r, one);
      assert two[1..] == RedactItems(r, one[1..]);
      assert two == one <==> two[0] == one[0] && two[1..] == one[1..] by {
        assert two == [two[0]] + two[1..] && one == [one[0]] + one[1..];
      }
    }
  }

  lemma {:induction false} KeysStayClean(r: Rules, d: seq<Entry>)
    requires Sound(r) && EntriesClean(r, d)
    requires NoScalars(d)
    ensures EntriesClean(r, RedactKeys(r, d))
    decreases d
  {
    hide Sound, Clean, SecretKey;
    if d != [] {
      KeysStayClean(r, d[1..]);
      EntryStaysClean(r, d[0]);
      assert RedactKeys(r, d)[1..] == RedactKeys(r, d[1..]);
    }
  }

  lemma {:induction false} EntryStaysClean(r: Rules, e: Entry)
    requires Sound(r) && AllClean(r, e.value) && NoScalar(e)
    ensures AllClean(r, RedactEntry(r, e))
    decreases e
  {
    hide Sound, Clean, SecretKey, NamesSecret, TokenLike;
    PlaceholdersClean(r);
    match e.value
    case Dict(entries) => KeysStayClean(r, entries);
    case List(items) => ItemsStayClean(r, items);
    case _ =>
  }

  lemma {:induction false} ItemsStayClean(r: Rules, items: seq<Value>)
    requires Sound(r) && ItemsClean(r, items) && NoScalarItems(items)
    ensures ItemsClean(r, RedactItems(r, items))
    decreases items
  {
    hide Sound, Clean, RedactKeys;
    if items != [] {
      ItemsStayClean(r, items[1..]);
      if items[0].Dict? { KeysStayClean(r, items[0].entries); }
      assert RedactItems(r, items)[1..] == RedactItems(r, items[1..]);
    }
  }

  /** No dict the first pass reaches holds a non-string leaf. */
  predicate NoScalars(d: seq<Entry>)
    decreases d
  {
    d == [] || (NoScalar(d[0]) && NoScalars(d[1..]))
  }

  predicate NoScalar(e: Entry)
    decreases e
  {
    match e.value
    case Dict(entries) => NoScalars(entries)
    case List(items) => NoScalarItems(items)
    case Str(_) => true
    case _ => false
  }

  predicate NoScalarItems(items: seq<Value>)
    decreases items
  {
    items == [] || ((items[0].Dict? ==> NoScalars(items[0].entries)) && NoScalarItems(items[1..]))
  }

  lemma {:induction false} OneDictNoScalars(r: Rules, d: seq<Entry>)
    ensures NoScalars(OneDict(r, d))
    decreases d
  {
    hide SecretKey, Scrub;
    if d != [] {
      OneDictNoScalars(r, d[1..]);
      match d[0].value
      case Dict(entries) => OneDictNoScalars(r, entries);
      case List(items) => OneListNoScalars(r, items);
      case _ =>
    }
  }

  lemma {:induction false} OneListNoScalars(r: Rules, items: seq<Value>)
    ensures NoScalarItems(OneList(r, items))
    decreases items
  {
    hide Scrub;
    if items != [] {
      OneListNoScalars(r, items[1..]);
      if items[0].Dict? { OneDictNoScalars(r, items[0].entries); }
    }
  }

  /** Sanitizing twice is sanitizing once exactly when no non-string leaf slips; that is also exactly when the first
      pass leaves the result as it is. */
  lemma SanitizeIdempotent(r: Rules, config: seq<Entry>)
    requires Sound(r)
    ensures var out := SanitizeConfig(r, config);
            && out.Dict?
            && (SanitizeConfig(r, out.entries) == out <==> SlipFree(r, config))
            && (RedactKeys(r, out.entries) == out.entries <==> SlipFree(r, config))
  {
    hide OneDict, RedactKeys, SlipFree, Sound, EntriesClean, NoScalars;
    var d := OneDict(r, config);
    PipelineIsOnePass(r, config);
    SanitizedIsClean(r, config);
    KeysAgain(r, config);
    OneDictNoScalars(r, config);
    KeysStayClean(r, d);
    var again := Dict(RedactKeys(r, d));
    assert AllClean(r, again);
    CleanIsFixed(r, again);
  }

  lemma {:induction false} StringLeavedIsSlipFree(r: Rules, d: seq<Entry>)
    requires NoScalars(d)
    ensures SlipFree(r, d)
    decreases d
  {
    hide SecretKey, Slips;
    if d != [] {
      StringLeavedIsSlipFree(r, d[1..]);
      match d[0].value
      case Dict(entries) => StringLeavedIsSlipFree(r, entries);
      case List(items) => StringItemsSlipFree(r, items);
      case _ =>
    }
  }

  lemma {:induction false} StringItemsSlipFree(r: Rules, items: seq<Value>)
    requires NoScalarItems(items)
    ensures SlipFreeItems(r, items)
    decreases items
  {
    if items != [] {
      StringItemsSlipFree(r, items[1..]);
      if items[0].Dict? { StringLeavedIsSlipFree(r, items[0].entries); }
    }
  }

  const LONG_NUMBER := "123456789012345678901234567890123456"

  /** A 36-digit number survives one call as text and is redacted by the next. */
  lemma LongNumberSlips(r: Rules)
    requires Sound(r) && r.lower("n") == "n" && !r.secretPattern(LONG_NUMBER) && !r.pathPattern(LONG_NUMBER)
    ensures var config := [Entry("n", Scalar(LONG_NUMBER))];
            && SanitizeConfig(r, config) == Dict([Entry("n", Str(LONG_NUMBER))])
            && SanitizeConfig(r, [Entry("n", Str(LONG_NUMBER))]) == Dict([Entry("n", Str(REDACTED))])
  {
    hide SecretKey, TokenLike, PathLike, Sound;
    PipelineIsOnePass(r, [Entry("n", Scalar(LONG_NUMBER))]);
    PipelineIsOnePass(r, [Entry("n", Str(LONG_NUMBER))]);
    LongNumberFacts(r);
    ShortKey(r);
    SingleEntry(r, Entry("n", Scalar(LONG_NUMBER)));
    SingleEntry(r, Entry("n", Str(LONG_NUMBER)));
  }

  lemma LongNumberFacts(r: Rules)
    requires !r.pathPattern(LONG_NUMBER)
    ensures |LONG_NUMBER| == 36 && TokenLike(LONG_NUMBER) && !PathLike(r, LONG_NUMBER)
  {
    hide TokenChar, PathChar;
    assert LONG_NUMBER[35] == '6';
    assert forall i :: 0 <= i < |LONG_NUMBER| ==> '0' <= LONG_NUMBER[i] <= '9';
    assert forall c :: '0' <= c <= '9' ==> TokenChar(c) by { DigitsAreTokens(); }
  }

  lemma DigitsAreTokens()
    ensures forall c :: '0' <= c <= '9' ==> TokenChar(c)
  {
  }

  lemma SingleEntry(r: Rules, e: Entry)
    ensures OneDict(r, [e]) == [Entry(e.key, OneEntry(r, e))]
  {
    assert [e][1..] == [] && OneDict(r, []) == [];
  }

  lemma ShortKey(r: Rules)
    requires r.lower("n") == "n"
    ensures !SecretKey(r, "n")
  {
    assert forall i :: 0 <= i < |SECRET_KEY_NAMES| ==> |SECRET_KEY_NAMES[i]| > 1;
    assert forall i :: 0 <= i < |LOCAL_ONLY_KEY_PATTERNS| ==> |LOCAL_ONLY_KEY_PATTERNS[i]| > 1;
  }
}
