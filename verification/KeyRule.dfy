// What the key rule decides: which keys hide their value, at every position of a configuration
// (src/intake/deploy/provider_redaction.py, lines 107-142 and 225-256).
module KeyRule {
  import opened Prelude
  import opened Redaction
  import opened RedactedFields

  /** `part` stands somewhere in `s`. */
  ghost predicate Within(s: string, part: string) {
    exists before, after :: s == before + part + after
  }

  /** The lower-cased key holds one of the secret names, or the key itself one of the local-only patterns. */
  ghost predicate Hides(r: Rules, key: string) {
    || (exists name :: name in SECRET_KEY_NAMES && Within(r.lower(key), name))
    || LocalOnly(key)
  }

  ghost predicate LocalOnly(key: string) {
    exists pattern :: pattern in LOCAL_ONLY_KEY_PATTERNS && Within(key, pattern)
  }

  lemma ContainsExact(s: string, part: string)
    ensures Contains(s, part) <==> Within(s, part)
  {
    if Contains(s, part) {
      var i :| 0 <= i <= |s| - |part| && s[i..][..|part|] == part;
      assert s == s[..i] + part + s[i..][|part|..];
    }
    if Within(s, part) {
      var before, after :| s == before + part + after;
      assert s[|before|..][..|part|] == part;
    }
  }

  lemma SecretKeyExact(r: Rules, key: string)
    ensures SecretKey(r, key) <==> Hides(r, key)
  {
    hide Contains, Within;
    forall i | 0 <= i < |SECRET_KEY_NAMES|
      ensures Contains(r.lower(key), SECRET_KEY_NAMES[i]) <==> Within(r.lower(key), SECRET_KEY_NAMES[i])
    {
      ContainsExact(r.lower(key), SECRET_KEY_NAMES[i]);
    }
    forall i | 0 <= i < |LOCAL_ONLY_KEY_PATTERNS|
      ensures Contains(key, LOCAL_ONLY_KEY_PATTERNS[i]) <==> Within(key, LOCAL_ONLY_KEY_PATTERNS[i])
    {
      ContainsExact(key, LOCAL_ONLY_KEY_PATTERNS[i]);
    }
    NamesExact(r, key);
    LocalExact(key);
  }

  lemma NamesExact(r: Rules, key: string)
    requires forall i :: 0 <= i < |SECRET_KEY_NAMES| ==>
               (Contains(r.lower(key), SECRET_KEY_NAMES[i]) <==> Within(r.lower(key), SECRET_KEY_NAMES[i]))
    ensures NamesSecret(r, key) <==> exists name :: name in SECRET_KEY_NAMES && Within(r.lower(key), name)
  {
    hide Contains, Within;
    var names := SECRET_KEY_NAMES;
    if NamesSecret(r, key) {
      var i :| 0 <= i < |names| && Contains(r.lower(key), names[i]);
      assert names[i] in names;
    }
    if name :| name in names && Within(r.lower(key), name) {
      var i :| 0 <= i < |names| && names[i] == name;
      assert Contains(r.lower(key), names[i]);
    }
  }

  lemma LocalExact(key: string)
    requires forall i :: 0 <= i < |LOCAL_ONLY_KEY_PATTERNS| ==>
               (Contains(key, LOCAL_ONLY_KEY_PATTERNS[i]) <==> Within(key, LOCAL_ONLY_KEY_PATTERNS[i]))
    ensures (exists i :: 0 <= i < |LOCAL_ONLY_KEY_PATTERNS| && Contains(key, LOCAL_ONLY_KEY_PATTERNS[i])) <==>
            LocalOnly(key)
  {
    hide Contains, Within;
    var patterns := LOCAL_ONLY_KEY_PATTERNS;
    if i :| 0 <= i < |patterns| && Contains(key, patterns[i]) { assert patterns[i] in patterns; }
    if pattern :| pattern in patterns && Within(key, pattern) {
      var i :| 0 <= i < |patterns| && patterns[i] == pattern;
      assert Contains(key, patterns[i]);
    }
  }

  // ---- Positions ---------------------------------------------------------------------------------

  /** The key pass enters the dict at this position: the position goes through dicts and items of lists that are
      dicts, and none of its keys hides its value. */
  ghost predicate Entered(r: Rules, d: seq<Entry>, p: Path)
    decreases |p|
  {
    p == [] ||
    (&& p[0].Key? && !Hides(r, p[0].key)
     && match Find(d, p[0].key)
        case Some(Dict(inner)) => Entered(r, inner, p[1..])
        case Some(List(items)) =>
          |p| > 1 && p[1].Index? && p[1].i < |items| && items[p[1].i].Dict? && Entered(r, items[p[1].i].entries, p[2..])
        case _ => false)
  }

  /** The dict at an entered position. */
  function DictAt(d: seq<Entry>, p: Path): seq<Entry> {
    match At(Dict(d), p)
    case Some(Dict(inner)) => inner
    case _ => []
  }

  /** Inside an entered dict the fate of a key is the key's own. */
  lemma {:induction false} KeyDecides(r: Rules, d: seq<Entry>, p: Path, key: string)
    requires Entered(r, d, p)
    ensures At(Dict(d), p) == Some(Dict(DictAt(d, p)))
    ensures FateIn(r, d, p + [Key(key)]) ==
            match Find(DictAt(d, p), key)
            case None => Absent
            case Some(v) => if Hides(r, key) then Decided else Kept(v, UnderKey)
    decreases |p|
  {
    hide Hides, SecretKey, Find;
    SecretKeyExact(r, key);
    var q := p + [Key(key)];
    if p == [] {
      assert q == [Key(key)] && q[1..] == [];
    } else {
      SecretKeyExact(r, p[0].key);
      assert q[0] == p[0] && q[1..] == p[1..] + [Key(key)];
      match Find(d, p[0].key)
      case Some(Dict(inner)) =>
        KeyDecides(r, inner, p[1..], key);
        DictAtStep(d, p, inner);
      case Some(List(items)) =>
        var inner := items[p[1].i].entries;
        assert q[1..][1..] == p[2..] + [Key(key)] && p[1..][1..] == p[2..];
        KeyDecides(r, inner, p[2..], key);
        ItemAtStep(d, p, items);
      case _ =>
    }
  }

  lemma DictAtStep(d: seq<Entry>, p: Path, inner: seq<Entry>)
    requires p != [] && p[0].Key? && Find(d, p[0].key) == Some(Dict(inner))
    ensures At(Dict(d), p) == At(Dict(inner), p[1..])
  {
  }

  lemma ItemAtStep(d: seq<Entry>, p: Path, items: seq<Value>)
    requires |p| > 1 && p[0].Key? && Find(d, p[0].key) == Some(List(items))
    requires p[1].Index? && p[1].i < |items|
    ensures At(Dict(d), p) == At(items[p[1].i], p[2..])
  {
    assert p[1..][1..] == p[2..];
  }

  /** The key rule on the result: in every dict the key pass enters, at any depth, a key that hides its value holds the
      placeholder and is listed; any other key is not listed and holds a node of the original kind. */
  lemma KeysDecidedExactly(r: Rules, config: seq<Entry>, p: Path, key: string)
    requires Redaction.Sound(r) && Proper(Dict(config)) && Entered(r, config, p)
    requires Find(DictAt(config, p), key).Some?
    ensures var q, out := p + [Key(key)], At(SanitizeConfig(r, config), p + [Key(key)]);
            && (q in Fields(r, config) <==> Hides(r, key))
            && (Hides(r, key) ==> out == Some(Str(REDACTED)))
            && (!Hides(r, key) ==> out.Some? && SameKind(Find(DictAt(config, p), key).value, out.value))
  {
    hide FateIn, At, SanitizeConfig, Fields, Hides, Entered, Find, DictAt, SameKind, Proper, Sound;
    var q := p + [Key(key)];
    KeyDecides(r, config, p, key);
    EveryPosition(r, config, q);
    ListedHoldsPlaceholder(r, config, q);
  }

  /** Only such keys are listed: a listed position is a hiding key of a dict the key pass enters. */
  lemma {:induction false} ListedIsHidingKey(r: Rules, d: seq<Entry>, q: Path)
    requires FateIn(r, d, q) == Decided
    ensures q != [] && q[|q| - 1].Key?
    ensures var p, key := q[..|q| - 1], q[|q| - 1].key;
            Entered(r, d, p) && Hides(r, key) && Find(DictAt(d, p), key).Some?
    decreases |q|
  {
    hide Hides, SecretKey;
    SecretKeyExact(r, q[0].key);
    var v, p := Find(d, q[0].key).value, q[..|q| - 1];
    if |q| == 1 {
      assert p == [];
    } else if v.Dict? {
      ListedIsHidingKey(r, v.entries, q[1..]);
      assert q[1..][..|q| - 2] == p[1..];
    } else {
      assert v.List? && q[1].Index? && q[1].i < |v.items|;
      var item := v.items[q[1].i];
      assert q[1..][1..] == q[2..];
      ItemRoot(r, item);
      ListedIsHidingKey(r, item.entries, q[2..]);
      assert |q| > 2 && q[2..][..|q| - 3] == p[2..] && p[1..][1..] == p[2..];
    }
    assert q == p + [Key(q[|q| - 1].key)];
    KeyDecides(r, d, p, q[|q| - 1].key);
  }

  lemma ItemRoot(r: Rules, item: Value)
    ensures item.Dict? ==> FateIn(r, item.entries, []) == Absent
  {
  }

  /** Two keys that read the same in lower case, without a local-only pattern, treat every value alike. */
  lemma SameLowerSameFate(r: Rules, key: string, key': string, v: Value)
    requires Redaction.Sound(r) && r.lower(key) == r.lower(key') && !LocalOnly(key) && !LocalOnly(key')
    ensures Hides(r, key) <==> Hides(r, key')
    ensures At(SanitizeConfig(r, [Entry(key, v)]), [Key(key)]) == At(SanitizeConfig(r, [Entry(key', v)]), [Key(key')])
    ensures At(SanitizeConfig(r, [Entry(key, v)]), [Key(key)]).Some?
  {
    hide SanitizeConfig, SecretKey, OneDict, OneList, Scrub, TokenLike, Within, Sound, LooksSecret;
    SecretKeyExact(r, key);
    SecretKeyExact(r, key');
    PipelineIsOnePass(r, [Entry(key, v)]);
    PipelineIsOnePass(r, [Entry(key', v)]);
    SingleEntry(r, Entry(key, v));
    SingleEntry(r, Entry(key', v));
    assert [Key(key)][1..] == [] && [Key(key')][1..] == [];
  }

  // ---- The value rules ------------------------------------------------------------------------------

  /** `s` is `body`, or `body` and a newline, and `body` is all token characters. */
  predicate TokenBody(s: string, body: string) {
    body != "" && (s == body || s == body + "\n") && forall c :: c in body ==> TokenChar(c)
  }

  /** A long-token text: token characters to the end, or to one final newline. */
  lemma TokenLikeExact(s: string)
    ensures TokenLike(s) <==> exists body :: TokenBody(s, body)
  {
    hide TokenChar;
    if TokenLike(s) {
      var body := WithoutNewline(s);
      assert s == body || s == body + "\n" by {
        if s != "" && s[|s| - 1] == '\n' { assert s == s[..|s| - 1] + [s[|s| - 1]] && "\n" == ['\n']; }
      }
      forall c | c in body ensures TokenChar(c) {
        var i :| 0 <= i < |body| && body[i] == c;
        assert TokenChar(body[i]);
      }
      assert TokenBody(s, body);
    }
    if body :| TokenBody(s, body) { BodyIsTokenLike(s, body); }
  }

  lemma BodyIsTokenLike(s: string, body: string)
    requires TokenBody(s, body)
    ensures TokenLike(s)
  {
    NewlineIsNoToken();
    hide TokenChar;
    assert body[|body| - 1] in body;
    assert WithoutNewline(s) == body;
    forall i | 0 <= i < |body| ensures TokenChar(body[i]) { assert body[i] in body; }
  }

  lemma NewlineIsNoToken()
    ensures !TokenChar('\n')
  {
  }

  /** A path text: a path pattern, or an absolute or backslashed text with a slash before a path character. */
  lemma PathLikeExact(r: Rules, s: string)
    ensures PathLike(r, s) <==>
            || r.pathPattern(s)
            || (&& ((s != "" && s[0] == '/') || StartsWith(s, "C:\\") || '\\' in s)
                && exists a, slash, c, b ::
                     s == a + [slash, c] + b && (slash == '/' || slash == '\\') && PathChar(c))
  {
    hide PathChar;
    if SlashRun(s) {
      var i :| 0 <= i < |s| - 1 && (s[i] == '/' || s[i] == '\\') && PathChar(s[i + 1]);
      assert s == s[..i] + [s[i], s[i + 1]] + s[i + 2..];
    }
    if a, slash, c, b :| s == a + [slash, c] + b && (slash == '/' || slash == '\\') && PathChar(c) {
      assert s[|a|] == slash && s[|a| + 1] == c;
    }
    assert StartsWith(s, "/") <==> s != "" && s[0] == '/' by {
      if s != "" { assert s[..1] == [s[0]]; }
    }
  }
}
