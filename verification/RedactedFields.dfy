// Which positions of a configuration the key rule redacts, and the field list that names them
// (src/intake/deploy/provider_redaction.py, lines 107-142 and 225-256).
module RedactedFields {
  import opened Prelude
  import opened Redaction
  import JsonText

  datatype Step = Key(key: string) | Index(i: nat)

  type Path = seq<Step>

  function Find(d: seq<Entry>, key: string): Option<Value> {
    if d == [] then None else if d[0].key == key then Some(d[0].value) else Find(d[1..], key)
  }

  /** The value at a position, if there is one. */
  function At(v: Value, p: Path): Option<Value>
    decreases p
  {
    if p == [] then Some(v)
    else
      match p[0]
      case Key(k) =>
        if !v.Dict? then None
        else (match Find(v.entries, k) case Some(w) => At(w, p[1..]) case None => None)
      case Index(i) =>
        if v.List? && i < |v.items| then At(v.items[i], p[1..]) else None
  }

  /** How a kept position is reached: as a value under a key, or as an item of a list that is no dict or below one,
      where the key pass does not go. */
  datatype Reach = UnderKey | InList

  /** What happens to a position: it is below a redacted key or does not exist, its key decides, or its value is kept in
      kind. */
  datatype Fate = Absent | Decided | Kept(original: Value, reach: Reach)

  function FateIn(r: Rules, d: seq<Entry>, p: Path): Fate
    decreases p, 0
  {
    if p == [] || !p[0].Key? then Absent
    else
      match Find(d, p[0].key)
      case None => Absent
      case Some(v) =>
        if SecretKey(r, p[0].key) then (if |p| == 1 then Decided else Absent)
        else FateBelow(r, v, p[1..])
  }

  /** The fate of a position inside a value whose own key does not decide. */
  function FateBelow(r: Rules, v: Value, p: Path): Fate
    decreases p, 1
  {
    if p == [] then Kept(v, UnderKey)
    else if v.Dict? then FateIn(r, v.entries, p)
    else if v.List? && p[0].Index? && p[0].i < |v.items| then
      var item := v.items[p[0].i];
      if item.Dict? && |p| > 1 then FateIn(r, item.entries, p[1..])
      else (match At(item, p[1..]) case Some(w) => Kept(w, InList) case None => Absent)
    else Absent
  }

  predicate SameKeys(d: seq<Entry>, e: seq<Entry>) {
    |d| == |e| && forall i :: 0 <= i < |d| ==> d[i].key == e[i].key
  }

  /** Same kind of node: the same keys in the same order, the same length, or a leaf. */
  predicate SameKind(v: Value, w: Value) {
    match v
    case Dict(d) => w.Dict? && SameKeys(d, w.entries)
    case List(items) => w.List? && |items| == |w.items|
    case _ => Leaf(w)
  }

  /** What is shown of a kept leaf. In a list only strings change; under a key every leaf becomes a string, and a string
      is also held to the secret rule of the first pass. */
  function Shown(r: Rules, v: Value, reach: Reach): Value
    requires Leaf(v)
  {
    match v
    case PyNone => if reach == InList then v else Str(REDACTED)
    case Scalar(text) => if reach == InList then v else Str(Scrub(r, text))
    case Str(s) => Str(if reach == UnderKey && s != "" && LooksSecret(r, s) then REDACTED else Scrub(r, s))
  }

  predicate Meets(r: Rules, fate: Fate, out: Option<Value>) {
    match fate
    case Absent => out == None
    case Decided => out == Some(Str(REDACTED))
    case Kept(v, reach) => out.Some? && SameKind(v, out.value) && (Leaf(v) ==> out.value == Shown(r, v, reach))
  }

  lemma {:induction false} FindOne(r: Rules, d: seq<Entry>, key: string)
    ensures match Find(d, key)
            case None => Find(OneDict(r, d), key) == None
            case Some(v) => Find(OneDict(r, d), key) == Some(OneEntry(r, Entry(key, v)))
  {
    hide OneEntry;
    if d != [] {
      FindOne(r, d[1..], key);
      assert OneDict(r, d)[1..] == OneDict(r, d[1..]);
      assert d[0] == Entry(d[0].key, d[0].value);
    }
  }

  lemma {:induction false} FindMapped(f: string -> string, d: seq<Entry>, key: string)
    ensures match Find(d, key)
            case None => Find(MapEntries(f, d), key) == None
            case Some(v) => Find(MapEntries(f, d), key) == Some(MapStrings(f, v))
  {
    hide MapStrings;
    if d != [] {
      FindMapped(f, d[1..], key);
      assert MapEntries(f, d)[1..] == MapEntries(f, d[1..]);
    }
  }

  lemma {:induction false} ItemMapped(f: string -> string, items: seq<Value>, i: nat)
    requires i < |items|
    ensures MapItems(f, items)[i] == MapStrings(f, items[i])
  {
    hide MapStrings;
    if i > 0 {
      ItemMapped(f, items[1..], i - 1);
      assert MapItems(f, items)[1..] == MapItems(f, items[1..]);
    }
  }

  lemma {:induction false} ItemOne(r: Rules, items: seq<Value>, i: nat)
    requires i < |items|
    ensures OneList(r, items)[i] == OneItem(r, items[i])
  {
    hide OneItem;
    if i > 0 {
      ItemOne(r, items[1..], i - 1);
      assert OneList(r, items)[1..] == OneList(r, items[1..]);
    }
  }

  lemma {:induction false} MapKeys(f: string -> string, d: seq<Entry>)
    ensures SameKeys(d, MapEntries(f, d))
  {
    if d != [] {
      MapKeys(f, d[1..]);
      assert MapEntries(f, d)[1..] == MapEntries(f, d[1..]);
      assert forall i :: 0 < i < |d| ==> d[i] == d[1..][i - 1];
    }
  }

  lemma {:induction false} OneKeys(r: Rules, d: seq<Entry>)
    ensures SameKeys(d, OneDict(r, d))
  {
    hide OneEntry;
    if d != [] {
      OneKeys(r, d[1..]);
      assert OneDict(r, d)[1..] == OneDict(r, d[1..]);
      assert forall i :: 0 < i < |d| ==> d[i] == d[1..][i - 1];
    }
  }

  lemma MapKind(f: string -> string, v: Value)
    ensures SameKind(v, MapStrings(f, v))
  {
    if v.Dict? { MapKeys(f, v.entries); }
  }

  /** Rewriting strings keeps every position. */
  lemma {:induction false} MapAt(f: string -> string, v: Value, p: Path)
    ensures match At(v, p)
            case None => At(MapStrings(f, v), p) == None
            case Some(w) => At(MapStrings(f, v), p) == Some(MapStrings(f, w))
    decreases p
  {
    hide MapItems, MapEntries;
    if p != [] {
      match p[0]
      case Key(k) =>
        if v.Dict? {
          FindMapped(f, v.entries, k);
          var found := Find(v.entries, k);
          if found.Some? { MapAt(f, found.value, p[1..]); }
        }
      case Index(i) =>
        if v.List? && i < |v.items| {
          ItemMapped(f, v.items, i);
          MapAt(f, v.items[i], p[1..]);
        }
    }
  }

  lemma {:induction false} DictFate(r: Rules, d: seq<Entry>, p: Path)
    requires p != []
    ensures Meets(r, FateIn(r, d, p), At(Dict(OneDict(r, d)), p))
    decreases p, 1
  {
    hide SecretKey, OneDict, SameKind;
    if p[0].Key? {
      var key := p[0].key;
      FindOne(r, d, key);
      var found := Find(d, key);
      if found.Some? {
        if SecretKey(r, key) {
          assert At(Str(REDACTED), p[1..]) == if |p| == 1 then Some(Str(REDACTED)) else None;
        } else {
          EntryFate(r, key, found.value, p[1..]);
        }
      }
    }
  }

  lemma {:induction false} EntryFate(r: Rules, key: string, v: Value, p: Path)
    requires !SecretKey(r, key)
    ensures Meets(r, FateBelow(r, v, p), At(OneEntry(r, Entry(key, v)), p))
    decreases p, 2
  {
    hide SecretKey, OneDict, FateIn, TokenLike, Scrub;
    if p == [] {
      if v.Dict? { OneKeys(r, v.entries); }
    } else if v.Dict? {
      DictFate(r, v.entries, p);
    } else if v.List? && p[0].Index? && p[0].i < |v.items| {
      ItemFate(r, v.items, p);
    }
  }

  lemma {:induction false} ItemFate(r: Rules, items: seq<Value>, p: Path)
    requires p != [] && p[0].Index? && p[0].i < |items|
    ensures Meets(r, FateBelow(r, List(items), p), At(List(OneList(r, items)), p))
    decreases p, 0
  {
    hide OneDict, OneList, FateIn, Scrub, SameKind;
    var item := items[p[0].i];
    ItemOne(r, items, p[0].i);
    if item.Dict? && |p| > 1 {
      DictFate(r, item.entries, p[1..]);
    } else if item.Dict? {
      OneKeys(r, item.entries);
      SameKindDict(item.entries, OneDict(r, item.entries));
    } else {
      var f := (s: string) => Scrub(r, s);
      MapAt(f, item, p[1..]);
      var found := At(item, p[1..]);
      if found.Some? { MapKind(f, found.value); }
    }
  }

  lemma SameKindDict(d: seq<Entry>, e: seq<Entry>)
    requires SameKeys(d, e)
    ensures SameKind(Dict(d), Dict(e))
  {
  }

  /** Every position below the root: absent, the placeholder, or a node of the original kind, as its fate says. */
  lemma EveryPosition(r: Rules, config: seq<Entry>, p: Path)
    requires Sound(r) && p != []
    ensures Meets(r, FateIn(r, config, p), At(SanitizeConfig(r, config), p))
  {
    hide FateIn, At, Meets, OneDict, SanitizeConfig, Sound;
    PipelineIsOnePass(r, config);
    DictFate(r, config, p);
  }

  // ---- Long tokens that stay visible ---------------------------------------------------------------

  /** The values the first pass does not hold to its own rule: strings in lists, and what only becomes a string. They
      are seen when they have 33 to 40 token characters and no other rule matches. */
  predicate Escapes(r: Rules, fate: Fate) {
    match fate
    case Kept(Str(s), InList) => Slips(r, s)
    case Kept(Scalar(text), UnderKey) => Slips(r, text)
    case _ => false
  }

  lemma ScrubLooks(r: Rules, s: string)
    requires Sound(r)
    ensures LooksSecret(r, Scrub(r, s)) <==> Slips(r, s)
    ensures Slips(r, s) ==> Scrub(r, s) == s
    ensures !LooksSecret(r, REDACTED)
  {
    hide TokenLike, PathLike;
    assert |REDACTED| == 10 && |PATH_REDACTED| == 20;
    LooksAsShown(r, s);
  }

  lemma LooksAsShown(r: Rules, s: string)
    requires Sound(r)
    ensures Slips(r, s) ==> Scrub(r, s) == s && LooksSecret(r, s)
    ensures !Slips(r, s) ==> !LooksSecret(r, Scrub(r, s))
  {
    hide TokenLike, PathLike;
    assert |REDACTED| == 10 && |PATH_REDACTED| == 20;
  }

  /** A string of the result matches the secret rule of the first pass exactly when it comes from such a value, and it
      is then the value's own text. */
  lemma LongTokensShown(r: Rules, config: seq<Entry>, p: Path, s: string)
    requires Sound(r) && p != [] && At(SanitizeConfig(r, config), p) == Some(Str(s))
    ensures LooksSecret(r, s) <==> Escapes(r, FateIn(r, config, p))
    ensures LooksSecret(r, s) ==>
              var v := FateIn(r, config, p).original; s == if v.Str? then v.s else v.text
  {
    hide FateIn, At, SanitizeConfig, Sound, Scrub, Slips, LooksSecret;
    EveryPosition(r, config, p);
    var fate := FateIn(r, config, p);
    ScrubLooks(r, REDACTED);
    match fate
    case Kept(Str(t), _) =>
      ScrubLooks(r, t);
      LooksMeansSlips(r, t);
    case Kept(Scalar(t), _) => ScrubLooks(r, t);
    case _ =>
  }

  /** What the first pass would hide under a key. */
  lemma LooksMeansSlips(r: Rules, s: string)
    ensures Slips(r, s) ==> LooksSecret(r, s) && s != ""
  {
    hide TokenLike, PathLike;
  }

  /** The same string is hidden under a key and shown in a list. */
  lemma ListTokenShown(r: Rules)
    requires Sound(r) && r.lower("n") == "n" && !r.secretPattern(LONG_NUMBER) && !r.pathPattern(LONG_NUMBER)
    ensures SanitizeConfig(r, [Entry("n", Str(LONG_NUMBER))]) == Dict([Entry("n", Str(REDACTED))])
    ensures var config := [Entry("n", List([Str(LONG_NUMBER)]))]; SanitizeConfig(r, config) == Dict(config)
  {
    hide SecretKey, TokenLike, PathLike, Sound;
    LongNumberSlips(r);
    var list := [Str(LONG_NUMBER)];
    PipelineIsOnePass(r, [Entry("n", List(list))]);
    LongNumberFacts(r);
    ShortKey(r);
    SingleEntry(r, Entry("n", List(list)));
    assert list[1..] == [] && OneList(r, []) == [];
    assert Scrub(r, LONG_NUMBER) == LONG_NUMBER;
    assert OneList(r, list) == [OneItem(r, list[0])] && OneItem(r, list[0]) == Str(LONG_NUMBER);
  }

  // ---- get_redacted_fields --------------------------------------------------------------------

  function Prepend(step: Step, ps: seq<Path>): (out: seq<Path>)
    ensures |out| == |ps|
    ensures forall i :: 0 <= i < |ps| ==> out[i] == [step] + ps[i]
  {
    seq(|ps|, i requires 0 <= i < |ps| => [step] + ps[i])
  }

  function Fields(r: Rules, d: seq<Entry>): seq<Path>
    decreases d
  {
    if d == [] then [] else EntryFields(r, d[0]) + Fields(r, d[1..])
  }

  function EntryFields(r: Rules, e: Entry): seq<Path>
    decreases e
  {
    if SecretKey(r, e.key) then [[Key(e.key)]]
    else
      match e.value
      case Dict(entries) => Prepend(Key(e.key), Fields(r, entries))
      case List(items) => Prepend(Key(e.key), ItemFields(r, items, 0))
      case _ => []
  }

  function ItemFields(r: Rules, items: seq<Value>, from: nat): seq<Path>
    decreases items
  {
    if items == [] then []
    else
      (if items[0].Dict? then Prepend(Index(from), Fields(r, items[0].entries)) else [])
      + ItemFields(r, items[1..], from + 1)
  }

  lemma InPrepend(step: Step, ps: seq<Path>, p: Path)
    ensures p in Prepend(step, ps) <==> p != [] && p[0] == step && p[1..] in ps
  {
    if p != [] && p[0] == step && p[1..] in ps {
      var i :| 0 <= i < |ps| && ps[i] == p[1..];
      assert Prepend(step, ps)[i] == p;
    }
    if p in Prepend(step, ps) {
      var i :| 0 <= i < |ps| && Prepend(step, ps)[i] == p;
      assert p[1..] == ps[i];
    }
  }

  lemma ProperTail(d: seq<Entry>)
    requires d != [] && Proper(Dict(d))
    ensures Proper(d[0].value) && Proper(Dict(d[1..]))
    ensures Find(d[1..], d[0].key) == None
  {
    var rest := d[1..];
    assert forall i :: 0 <= i < |rest| ==> rest[i] == d[i + 1];
    FindNone(rest, d[0].key);
  }

  lemma {:induction false} FindNone(d: seq<Entry>, key: string)
    requires forall i :: 0 <= i < |d| ==> d[i].key != key
    ensures Find(d, key) == None
  {
    if d != [] { FindNone(d[1..], key); }
  }

  /** The list holds exactly the positions the key rule decides. */
  lemma {:induction false} FieldsExact(r: Rules, d: seq<Entry>, p: Path)
    requires Proper(Dict(d))
    ensures p in Fields(r, d) <==> FateIn(r, d, p) == Decided
    decreases d
  {
    hide SecretKey, Proper, EntryFields, FateBelow;
    if d != [] {
      ProperTail(d);
      EntryExact(r, d[0], p);
      FieldsExact(r, d[1..], p);
    }
  }

  /** The positions one entry contributes. */
  lemma {:induction false} EntryExact(r: Rules, e: Entry, p: Path)
    requires Proper(e.value)
    ensures p in EntryFields(r, e) <==>
            p != [] && p[0] == Key(e.key) &&
            (if SecretKey(r, e.key) then |p| == 1 else FateBelow(r, e.value, p[1..]) == Decided)
    decreases e
  {
    hide SecretKey, FateIn, FateBelow, Fields, ItemFields;
    if !SecretKey(r, e.key) {
      match e.value
      case Dict(entries) =>
        InPrepend(Key(e.key), Fields(r, entries), p);
        if p != [] {
          FieldsExact(r, entries, p[1..]);
          DecidedInDict(r, entries, p[1..]);
        }
      case List(items) =>
        InPrepend(Key(e.key), ItemFields(r, items, 0), p);
        if p != [] {
          ItemsExact(r, items, 0, p[1..]);
          DecidedInList(r, items, p[1..]);
        }
      case _ => if p != [] { DecidedInLeaf(r, e.value, p[1..]); }
    } else if |p| == 1 {
      assert p == [p[0]];
    }
  }

  lemma DecidedInLeaf(r: Rules, v: Value, p: Path)
    requires Leaf(v)
    ensures FateBelow(r, v, p) != Decided
  {
  }

  lemma DecidedInDict(r: Rules, d: seq<Entry>, p: Path)
    ensures FateBelow(r, Dict(d), p) == Decided <==> FateIn(r, d, p) == Decided
  {
  }

  lemma DecidedInList(r: Rules, items: seq<Value>, p: Path)
    ensures FateBelow(r, List(items), p) == Decided <==>
            p != [] && p[0].Index? && p[0].i < |items| &&
            items[p[0].i].Dict? && FateIn(r, items[p[0].i].entries, p[1..]) == Decided
  {
    if |p| == 1 { assert p[1..] == []; }
  }

  lemma {:induction false} ItemsExact(r: Rules, items: seq<Value>, from: nat, p: Path)
    requires forall i :: 0 <= i < |items| ==> Proper(items[i])
    ensures p in ItemFields(r, items, from) <==>
            p != [] && p[0].Index? && from <= p[0].i < from + |items| &&
            items[p[0].i - from].Dict? && FateIn(r, items[p[0].i - from].entries, p[1..]) == Decided
    decreases items
  {
    hide FateIn, Proper;
    if items != [] {
      ItemsExact(r, items[1..], from + 1, p);
      if items[0].Dict? {
        InPrepend(Index(from), Fields(r, items[0].entries), p);
        if p != [] { FieldsExact(r, items[0].entries, p[1..]); }
      }
    }
  }

  /** A position is listed exactly when its key is the rule's doing, and then the sanitized tree holds the
      placeholder there. */
  lemma ListedHoldsPlaceholder(r: Rules, config: seq<Entry>, p: Path)
    requires Sound(r) && Proper(Dict(config))
    ensures p in Fields(r, config) <==> FateIn(r, config, p) == Decided
    ensures p in Fields(r, config) ==> At(SanitizeConfig(r, config), p) == Some(Str(REDACTED))
  {
    hide SecretKey, FateBelow, SanitizeConfig, At, Fields, Sound;
    FieldsExact(r, config, p);
    if p != [] { EveryPosition(r, config, p); }
  }

  // ---- Each position once ---------------------------------------------------------------------

  lemma DistinctConcat(a: seq<Path>, b: seq<Path>)
    requires Distinct(a) && Distinct(b) && forall p :: p in a ==> p !in b
    ensures Distinct(a + b)
  {
    forall i, j | 0 <= i < j < |a + b| ensures (a + b)[i] != (a + b)[j] {
      if i < |a| <= j { assert a[i] in a && b[j - |a|] in b; }
    }
  }

  lemma DistinctPrepend(step: Step, ps: seq<Path>)
    requires Distinct(ps)
    ensures Distinct(Prepend(step, ps))
  {
    forall i, j | 0 <= i < j < |ps| ensures [step] + ps[i] != [step] + ps[j] {
      assert ([step] + ps[i])[1..] == ps[i] && ([step] + ps[j])[1..] == ps[j];
    }
  }

  lemma {:induction false} FieldsDistinct(r: Rules, d: seq<Entry>)
    requires Proper(Dict(d))
    ensures Distinct(Fields(r, d))
    decreases d
  {
    hide SecretKey, Proper, EntryFields, FateBelow, Distinct;
    if d != [] {
      ProperTail(d);
      FieldsDistinct(r, d[1..]);
      EntryFieldsDistinct(r, d[0]);
      forall p | p in EntryFields(r, d[0]) ensures p !in Fields(r, d[1..]) {
        EntryExact(r, d[0], p);
        FieldsExact(r, d[1..], p);
      }
      DistinctConcat(EntryFields(r, d[0]), Fields(r, d[1..]));
    } else {
      DistinctEmpty();
    }
  }

  lemma DistinctEmpty()
    ensures Distinct<Path>([])
  {
  }

  lemma {:induction false} EntryFieldsDistinct(r: Rules, e: Entry)
    requires Proper(e.value)
    ensures Distinct(EntryFields(r, e))
    decreases e
  {
    hide SecretKey, Fields, ItemFields;
    if !SecretKey(r, e.key) {
      match e.value
      case Dict(entries) =>
        FieldsDistinct(r, entries);
        DistinctPrepend(Key(e.key), Fields(r, entries));
      case List(items) =>
        ItemFieldsDistinct(r, items, 0);
        DistinctPrepend(Key(e.key), ItemFields(r, items, 0));
      case _ =>
    }
  }

  lemma {:induction false} ItemFieldsDistinct(r: Rules, items: seq<Value>, from: nat)
    requires forall i :: 0 <= i < |items| ==> Proper(items[i])
    ensures Distinct(ItemFields(r, items, from))
    decreases items
  {
    hide Proper, Fields, FateIn, Distinct;
    if items != [] {
      var rest := ItemFields(r, items[1..], from + 1);
      ItemFieldsDistinct(r, items[1..], from + 1);
      if items[0].Dict? {
        var first := Prepend(Index(from), Fields(r, items[0].entries));
        FieldsDistinct(r, items[0].entries);
        DistinctPrepend(Index(from), Fields(r, items[0].entries));
        forall p | p in first ensures p !in rest {
          InPrepend(Index(from), Fields(r, items[0].entries), p);
          ItemsExact(r, items[1..], from + 1, p);
        }
        DistinctConcat(first, rest);
      } else {
        assert ItemFields(r, items, from) == rest;
      }
    } else {
      DistinctEmpty();
    }
  }

  // ---- The names the source returns ---------------------------------------------------------------

  /** A position written out: keys joined by dots, indices in brackets. */
  function Render(p: Path): string {
    if p == [] then ""
    else
      var prefix := Render(p[..|p| - 1]);
      match p[|p| - 1]
      case Key(k) => if prefix == "" then k else prefix + "." + k
      case Index(i) => prefix + "[" + JsonText.Digits(i) + "]"
  }

  function Names(prefix: Path, ps: seq<Path>): (out: seq<string>)
    ensures |out| == |ps|
  {
    seq(|ps|, i requires 0 <= i < |ps| => Render(prefix + ps[i]))
  }

  lemma NamesConcat(prefix: Path, a: seq<Path>, b: seq<Path>)
    ensures Names(prefix, a + b) == Names(prefix, a) + Names(prefix, b)
  {
  }

  lemma NamesPrepend(prefix: Path, step: Step, ps: seq<Path>)
    ensures Names(prefix, Prepend(step, ps)) == Names(prefix + [step], ps)
  {
    forall i | 0 <= i < |ps| ensures prefix + ([step] + ps[i]) == prefix + [step] + ps[i] {
    }
  }

  lemma RenderStep(prefix: Path, step: Step)
    ensures Render(prefix + [step]) ==
            match step
            case Key(k) => if Render(prefix) == "" then k else Render(prefix) + "." + k
            case Index(i) => Render(prefix) + "[" + JsonText.Digits(i) + "]"
  {
    assert (prefix + [step])[..|prefix|] == prefix;
  }

  /** `_check_dict`: appends the names below `prefix`. */
  method CheckDict(
    r: Rules, d: seq<Entry>, ghost path: Path, prefix: string, redacted: seq<string>) returns (out: seq<string>)
    requires prefix == Render(path)
    ensures out == redacted + Names(path, Fields(r, d))
    decreases d
  {
    hide SecretKey, Render, EntryFields;
    out := redacted;
    var i := 0;
    while i < |d|
      invariant 0 <= i <= |d|
      invariant out + Names(path, Fields(r, d[i..])) == redacted + Names(path, Fields(r, d))
    {
      assert d[i..][1..] == d[i + 1..];
      NamesConcat(path, EntryFields(r, d[i]), Fields(r, d[i + 1..]));
      var added := CheckEntry(r, d[i], path, prefix, out);
      out := added;
      i := i + 1;
    }
    assert d[i..] == [] && Names(path, Fields(r, [])) == [];
  }

  method CheckEntry(
    r: Rules, e: Entry, ghost path: Path, prefix: string, redacted: seq<string>) returns (out: seq<string>)
    requires prefix == Render(path)
    ensures out == redacted + Names(path, EntryFields(r, e))
    decreases e
  {
    hide SecretKey, Render, Fields, ItemFields;
    var fullKey := if prefix != "" then prefix + "." + e.key else e.key;
    RenderStep(path, Key(e.key));
    ghost var below := path + [Key(e.key)];
    if SecretKey(r, e.key) {
      out := redacted + [fullKey];
      assert Names(path, [[Key(e.key)]]) == [fullKey];
    } else if e.value.Dict? {
      out := CheckDict(r, e.value.entries, below, fullKey, redacted);
      NamesPrepend(path, Key(e.key), Fields(r, e.value.entries));
    } else if e.value.List? {
      out := CheckItems(r, e.value.items, below, fullKey, redacted);
      NamesPrepend(path, Key(e.key), ItemFields(r, e.value.items, 0));
    } else {
      out := redacted;
    }
  }

  lemma ItemFieldsStep(r: Rules, items: seq<Value>, i: nat)
    requires i < |items|
    ensures ItemFields(r, items[i..], i) ==
            (if items[i].Dict? then Prepend(Index(i), Fields(r, items[i].entries)) else [])
            + ItemFields(r, items[i + 1..], i + 1)
  {
    assert items[i..][1..] == items[i + 1..];
  }

  method CheckItems(
    r: Rules, items: seq<Value>, ghost path: Path, fullKey: string, redacted: seq<string>) returns (out: seq<string>)
    requires fullKey == Render(path)
    ensures out == redacted + Names(path, ItemFields(r, items, 0))
    decreases items
  {
    hide Render, Fields, ItemFields, Names, Prepend;
    out := redacted;
    var i: nat := 0;
    assert items[0..] == items;
    while i < |items|
      invariant 0 <= i <= |items|
      invariant out + Names(path, ItemFields(r, items[i..], i)) == redacted + Names(path, ItemFields(r, items, 0))
    {
      var item := items[i];
      ghost var rest := ItemFields(r, items[i + 1..], i + 1);
      ItemFieldsStep(r, items, i);
      if item.Dict? {
        ghost var fields := Fields(r, item.entries);
        RenderStep(path, Index(i));
        NamesConcat(path, Prepend(Index(i), fields), rest);
        NamesPrepend(path, Index(i), fields);
        ghost var names := Names(path + [Index(i)], fields);
        assert out + (names + Names(path, rest)) == out + names + Names(path, rest);
        out := CheckDict(r, item.entries, path + [Index(i)], fullKey + "[" + JsonText.Digits(i) + "]", out);
      } else {
        assert [] + rest == rest;
      }
      i := i + 1;
    }
    assert items[i..] == [];
    NoItemFields(r, path, i);
  }

  lemma NoItemFields(r: Rules, path: Path, i: nat)
    ensures Names(path, ItemFields(r, [], i)) == []
  {
  }

  /** `get_redacted_fields`: the written form of each decided position, each position once. */
  method GetRedactedFields(r: Rules, config: seq<Entry>) returns (redacted: seq<string>)
    ensures redacted == Names([], Fields(r, config))
    ensures Proper(Dict(config)) && PlainKeys(Dict(config)) ==> Distinct(redacted)
  {
    hide Proper, PlainKeys, Fields, Names, Distinct;
    if Proper(Dict(config)) && PlainKeys(Dict(config)) { PlainNamesDistinct(r, config); }
    redacted := CheckDict(r, config, [], "", []);
  }

  /** Written paths do not always tell positions apart: a dotted key reads like a nested one. */
  lemma NamesAreAmbiguous()
    ensures Render([Key("a.b")]) == Render([Key("a"), Key("b")]) == "a.b"
  {
    RenderStep([], Key("a.b"));
    RenderStep([], Key("a"));
    RenderStep([Key("a")], Key("b"));
    assert [Key("a")] + [Key("b")] == [Key("a"), Key("b")];
    assert [] + [Key("a")] == [Key("a")] && [] + [Key("a.b")] == [Key("a.b")];
  }

  // ---- When written paths identify positions ----------------------------------------------------------

  predicate NoDelimiter(s: string) {
    '.' !in s && '[' !in s
  }

  /** A key that cannot be mistaken: not empty, no dot, no opening bracket. */
  predicate PlainKey(key: string) {
    key != "" && NoDelimiter(key)
  }

  /** A position that starts at a key and goes through plain keys only. */
  predicate PlainPath(p: Path) {
    && (p != [] ==> p[0].Key?)
    && forall i :: 0 <= i < |p| && p[i].Key? ==> PlainKey(p[i].key)
  }

  /** What a step adds after its delimiter. */
  function StepText(step: Step): string {
    match step
    case Key(k) => k
    case Index(i) => JsonText.Digits(i) + "]"
  }

  function Delimiter(step: Step): char {
    if step.Key? then '.' else '['
  }

  lemma DigitsPlain(i: nat)
    ensures NoDelimiter(JsonText.Digits(i) + "]")
  {
    JsonText.DigitsReadBack(i);
    var d := JsonText.Digits(i);
    forall k | 0 <= k < |d| ensures d[k] != '.' && d[k] != '[' { assert JsonText.IsDigit(d[k]); }
  }

  lemma StepTextInjective(a: Step, b: Step)
    requires a.Key? == b.Key? && StepText(a) == StepText(b)
    ensures a == b
  {
    if a.Index? {
      JsonText.DigitsReadBack(a.i);
      JsonText.DigitsReadBack(b.i);
      var s, t := StepText(a), StepText(b);
      assert s[..|s| - 1] == JsonText.Digits(a.i) && t[..|t| - 1] == JsonText.Digits(b.i);
    }
  }

  /** The last delimiter of a text is where it was put. */
  lemma LastDelimiter(a: string, c: char, x: string, b: string, d: char, y: string)
    requires NoDelimiter(x) && NoDelimiter(y) && (c == '.' || c == '[') && (d == '.' || d == '[')
    requires a + [c] + x == b + [d] + y
    ensures a == b && c == d && x == y
  {
    var s, t := a + [c] + x, b + [d] + y;
    assert s[|a|] == c && t[|b|] == d;
    forall k | |a| < k < |s| ensures s[k] != '.' && s[k] != '[' { assert s[k] == x[k - |a| - 1]; }
    forall k | |b| < k < |t| ensures t[k] != '.' && t[k] != '[' { assert t[k] == y[k - |b| - 1]; }
    assert s[..|a|] == a && t[..|b|] == b && s[|a| + 1..] == x && t[|b| + 1..] == y;
  }

  lemma PlainParts(p: Path)
    requires PlainPath(p) && p != []
    ensures PlainPath(p[..|p| - 1]) && NoDelimiter(StepText(p[|p| - 1])) && StepText(p[|p| - 1]) != ""
    ensures |p| == 1 ==> Render(p) == StepText(p[0]) && p[0].Key?
    ensures |p| > 1 && Render(p[..|p| - 1]) != "" ==>
              Render(p) == Render(p[..|p| - 1]) + [Delimiter(p[|p| - 1])] + StepText(p[|p| - 1])
  {
    var last := p[|p| - 1];
    if last.Index? { DigitsPlain(last.i); }
    if |p| == 1 { assert p[..0] == []; }
  }

  lemma {:induction false} PlainNotEmpty(p: Path)
    requires PlainPath(p)
    ensures Render(p) == "" <==> p == []
  {
    hide PlainPath, Render;
    if p != [] {
      PlainParts(p);
      if |p| > 1 { PlainNotEmpty(p[..|p| - 1]); }
    } else {
      RenderNothing();
    }
  }

  lemma RenderNothing()
    ensures Render([]) == ""
  {
  }

  /** How a written path of more than one step divides. */
  lemma RenderSplits(p: Path)
    requires PlainPath(p) && |p| > 1
    ensures Render(p) == Render(p[..|p| - 1]) + [Delimiter(p[|p| - 1])] + StepText(p[|p| - 1])
    ensures !NoDelimiter(Render(p))
  {
    hide PlainPath, Render, StepText;
    PlainParts(p);
    PlainNotEmpty(p[..|p| - 1]);
    assert Render(p)[|Render(p[..|p| - 1])|] == Delimiter(p[|p| - 1]);
  }

  /** Plain positions are written alike only if they are the same position. */
  lemma {:induction false} RenderInjective(p: Path, q: Path)
    requires PlainPath(p) && PlainPath(q)
    ensures Render(p) == Render(q) <==> p == q
    decreases |p|
  {
    hide PlainPath, Render, NoDelimiter, StepText;
    PlainNotEmpty(p);
    PlainNotEmpty(q);
    if Render(p) == Render(q) && p != [] && q != [] {
      PlainParts(p);
      PlainParts(q);
      if |p| > 1 { RenderSplits(p); }
      if |q| > 1 { RenderSplits(q); }
      if |p| > 1 && |q| > 1 {
        SameSplit(p, q);
      } else {
        assert |p| == |q| == 1;
        StepTextInjective(p[0], q[0]);
        assert p == [p[0]] && q == [q[0]];
      }
    }
  }

  lemma {:induction false} SameSplit(p: Path, q: Path)
    requires PlainPath(p) && PlainPath(q) && |p| > 1 && |q| > 1 && Render(p) == Render(q)
    ensures p == q
    decreases |p|, 0
  {
    hide PlainPath, Render, NoDelimiter, StepText;
    var init, init', last, last' := p[..|p| - 1], q[..|q| - 1], p[|p| - 1], q[|q| - 1];
    PlainParts(p);
    PlainParts(q);
    RenderSplits(p);
    RenderSplits(q);
    LastDelimiter(Render(init), Delimiter(last), StepText(last), Render(init'), Delimiter(last'), StepText(last'));
    StepTextInjective(last, last');
    RenderInjective(init, init');
    assert p == init + [last] && q == init' + [last'];
  }

  /** Every key of every dict below the value is plain. */
  predicate PlainKeys(v: Value)
    decreases v
  {
    match v
    case List(items) => forall i :: 0 <= i < |items| ==> PlainKeys(items[i])
    case Dict(entries) => forall i :: 0 <= i < |entries| ==> PlainKey(entries[i].key) && PlainKeys(entries[i].value)
    case _ => true
  }

  /** The steps of a listed position. */
  predicate PlainSteps(p: Path) {
    forall i :: 0 <= i < |p| && p[i].Key? ==> PlainKey(p[i].key)
  }

  lemma PlainPrepend(step: Step, ps: seq<Path>)
    requires step.Key? ==> PlainKey(step.key)
    requires forall p :: p in ps ==> PlainSteps(p)
    ensures forall p :: p in Prepend(step, ps) ==> p != [] && p[0] == step && PlainSteps(p)
  {
    hide PlainKey;
    forall p | p in Prepend(step, ps) ensures p != [] && p[0] == step && PlainSteps(p) {
      InPrepend(step, ps, p);
      assert PlainSteps(p[1..]);
      forall i | 0 < i < |p| ensures p[i] == p[1..][i - 1] {}
    }
  }

  lemma {:induction false} FieldsPlain(r: Rules, d: seq<Entry>)
    requires PlainKeys(Dict(d))
    ensures forall p: Path :: p in Fields(r, d) ==> p != [] && p[0].Key? && PlainSteps(p)
    decreases d
  {
    hide SecretKey, PlainKey, PlainSteps, EntryFields;
    if d != [] {
      assert PlainKeys(Dict(d[1..])) by { PlainTail(d); }
      EntryFieldsPlain(r, d[0]);
      FieldsPlain(r, d[1..]);
    }
  }

  lemma PlainTail(d: seq<Entry>)
    requires d != [] && PlainKeys(Dict(d))
    ensures PlainKeys(Dict(d[1..])) && PlainKey(d[0].key) && PlainKeys(d[0].value)
  {
    hide PlainKey;
    forall i | 0 <= i < |d[1..]| ensures d[1..][i] == d[i + 1] {}
  }

  lemma {:induction false} EntryFieldsPlain(r: Rules, e: Entry)
    requires PlainKey(e.key) && PlainKeys(e.value)
    ensures forall p: Path :: p in EntryFields(r, e) ==> p != [] && p[0].Key? && PlainSteps(p)
    decreases e
  {
    hide SecretKey, PlainKey, Fields, ItemFields;
    if !SecretKey(r, e.key) {
      match e.value
      case Dict(entries) =>
        FieldsPlain(r, entries);
        PlainPrepend(Key(e.key), Fields(r, entries));
      case List(items) =>
        ItemFieldsPlain(r, items, 0);
        PlainPrepend(Key(e.key), ItemFields(r, items, 0));
      case _ =>
    }
  }

  lemma {:induction false} ItemFieldsPlain(r: Rules, items: seq<Value>, from: nat)
    requires forall i :: 0 <= i < |items| ==> PlainKeys(items[i])
    ensures forall p :: p in ItemFields(r, items, from) ==> PlainSteps(p)
    decreases items
  {
    hide PlainKeys, PlainSteps, Fields;
    if items != [] {
      ItemFieldsPlain(r, items[1..], from + 1);
      if items[0].Dict? {
        FieldsPlain(r, items[0].entries);
        PlainPrepend(Index(from), Fields(r, items[0].entries));
      }
    }
  }

  /** On a configuration whose keys are plain, the returned names are pairwise distinct. */
  lemma PlainNamesDistinct(r: Rules, config: seq<Entry>)
    requires Proper(Dict(config)) && PlainKeys(Dict(config))
    ensures Distinct(Names([], Fields(r, config)))
  {
    hide Proper, PlainKeys, Fields, Render;
    var ps := Fields(r, config);
    FieldsDistinct(r, config);
    FieldsPlain(r, config);
    forall i, j | 0 <= i < j < |ps| ensures Names([], ps)[i] != Names([], ps)[j] {
      assert ps[i] in ps && ps[j] in ps;
      assert [] + ps[i] == ps[i] && [] + ps[j] == ps[j];
      RenderInjective(ps[i], ps[j]);
    }
  }
}
