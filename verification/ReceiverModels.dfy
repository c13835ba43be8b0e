// Allowlist tables of the local receiver and the loop that inverts them.
module ReceiverModels {
  import opened Prelude
  import opened StoragePaths

  /** One entry of `ALLOWED_CONTENT_TYPES`: a content type with its extensions, dots included. */
  datatype TypeRow = TypeRow(contentType: string, extensions: seq<string>)

  const ALLOWED_CONTENT_TYPES: seq<TypeRow> := [
    TypeRow("image/jpeg", [".jpg", ".jpeg"]),
    TypeRow("image/png", [".png"]),
    TypeRow("image/webp", [".webp"]),
    TypeRow("image/heic", [".heic"]),
    TypeRow("video/mp4", [".mp4"]),
    TypeRow("video/quicktime", [".mov"]),
    TypeRow("application/pdf", [".pdf"])
  ]

  /** The extensions listed for a content type, if it is in the table. */
  function Extensions(table: seq<TypeRow>, contentType: string): Option<seq<string>> {
    if table == [] then None
    else if table[0].contentType == contentType then Some(table[0].extensions)
    else Extensions(table[1..], contentType)
  }

  predicate TypeAllowed(contentType: string) {
    Extensions(ALLOWED_CONTENT_TYPES, contentType).Some?
  }

  // ---- The inverted table --------------------------------------------------

  function AddRow(m: map<string, string>, contentType: string, exts: seq<string>): map<string, string>
    decreases |exts|
  {
    if exts == [] then m
    else AddRow(m[Lower(exts[0]) := contentType], contentType, exts[1..])
  }

  function AddRows(m: map<string, string>, table: seq<TypeRow>): map<string, string>
    decreases |table|
  {
    if table == [] then m
    else AddRows(AddRow(m, table[0].contentType, table[0].extensions), table[1..])
  }

  /** The nested module-level loop that fills `ALLOWED_EXTENSIONS`. */
  method InvertTable(table: seq<TypeRow>) returns (m: map<string, string>)
    ensures m == AddRows(map[], table)
  {
    m := map[];
    for i := 0 to |table|
      invariant AddRows(m, table[i..]) == AddRows(map[], table)
    {
      var row := table[i];
      assert table[i..][0] == row && table[i..][1..] == table[i + 1..];
      ghost var before := m;
      for j := 0 to |row.extensions|
        invariant AddRow(m, row.contentType, row.extensions[j..]) == AddRow(before, row.contentType, row.extensions)
      {
        assert row.extensions[j..][0] == row.extensions[j] && row.extensions[j..][1..] == row.extensions[j + 1..];
        m := m[Lower(row.extensions[j]) := row.contentType];
      }
      assert row.extensions[|row.extensions|..] == [];
    }
    assert table[|table|..] == [];
  }

  const ALLOWED_EXTENSIONS: map<string, string> := AddRows(map[], ALLOWED_CONTENT_TYPES)

  predicate Lists(row: TypeRow, contentType: string, ext: string) {
    row.contentType == contentType && exists e :: e in row.extensions && Lower(e) == ext
  }

  predicate Listed(table: seq<TypeRow>, contentType: string, ext: string) {
    exists row :: row in table && Lists(row, contentType, ext)
  }

  lemma {:induction false} AddRowSound(m: map<string, string>, ct: string, exts: seq<string>, ext: string)
    requires ext in AddRow(m, ct, exts)
    ensures (ext in m && AddRow(m, ct, exts)[ext] == m[ext])
         || Lists(TypeRow(ct, exts), AddRow(m, ct, exts)[ext], ext)
    decreases |exts|
  {
    if exts != [] {
      AddRowSound(m[Lower(exts[0]) := ct], ct, exts[1..], ext);
      var v := AddRow(m, ct, exts)[ext];
      if Lists(TypeRow(ct, exts[1..]), v, ext) {
        var e :| e in exts[1..] && Lower(e) == ext;
        assert e in exts;
      } else if ext == Lower(exts[0]) {
        assert exts[0] in exts;
      }
    }
  }

  /** Every entry of the inverted table comes from a row that lists it, for every table. */
  lemma {:induction false} InvertedSound(m: map<string, string>, table: seq<TypeRow>, ext: string)
    requires ext in AddRows(m, table)
    ensures (ext in m && AddRows(m, table)[ext] == m[ext]) || Listed(table, AddRows(m, table)[ext], ext)
    decreases |table|
  {
    if table != [] {
      var m1 := AddRow(m, table[0].contentType, table[0].extensions);
      InvertedSound(m1, table[1..], ext);
      var v := AddRows(m, table)[ext];
      if Listed(table[1..], v, ext) {
        var row :| row in table[1..] && Lists(row, v, ext);
        assert row in table;
      } else {
        AddRowSound(m, table[0].contentType, table[0].extensions, ext);
        if Lists(TypeRow(table[0].contentType, table[0].extensions), v, ext) {
          assert table[0] == TypeRow(table[0].contentType, table[0].extensions) && table[0] in table;
        }
      }
    }
  }

  lemma {:induction false} AddRowComplete(m: map<string, string>, ct: string, exts: seq<string>, ext: string)
    ensures ext in m ==> ext in AddRow(m, ct, exts)
    ensures Lists(TypeRow(ct, exts), ct, ext) ==> ext in AddRow(m, ct, exts)
    decreases |exts|
  {
    if exts != [] {
      AddRowComplete(m[Lower(exts[0]) := ct], ct, exts[1..], ext);
      if Lists(TypeRow(ct, exts), ct, ext) {
        var e :| e in exts && Lower(e) == ext;
        assert e == exts[0] || e in exts[1..];
      }
    }
  }

  lemma {:induction false} InvertedComplete(m: map<string, string>, table: seq<TypeRow>, ct: string, ext: string)
    ensures ext in m || Listed(table, ct, ext) ==> ext in AddRows(m, table)
    decreases |table|
  {
    if table != [] {
      var row := table[0];
      var m1 := AddRow(m, row.contentType, row.extensions);
      InvertedComplete(m1, table[1..], ct, ext);
      AddRowComplete(m, row.contentType, row.extensions, ext);
      if Listed(table, ct, ext) {
        var r :| r in table && Lists(r, ct, ext);
        assert r == row || r in table[1..];
        assert row == TypeRow(row.contentType, row.extensions);
      }
    }
  }

  ghost predicate NoConflict(table: seq<TypeRow>) {
    forall c, c', e :: Listed(table, c, e) && Listed(table, c', e) ==> c == c'
  }

  /** When no extension is listed for two types, the loop computes exactly the inverse relation. */
  lemma InvertedExact(table: seq<TypeRow>, ct: string, ext: string)
    requires NoConflict(table)
    ensures var m := AddRows(map[], table);
            (ext in m && m[ext] == ct) <==> Listed(table, ct, ext)
  {
    InvertedComplete(map[], table, ct, ext);
    if ext in AddRows(map[], table) { InvertedSound(map[], table, ext); }
  }

  // ---- Facts about the fixed table -----------------------------------------

  function LStripDots(s: string): string {
    if s != [] && s[0] == '.' then LStripDots(s[1..]) else s
  }

  /** A dotted lower-case extension such as ".jpg". */
  predicate DottedPlain(e: string) {
    |e| > 1 && e[0] == '.' && PlainExtension(e[1..])
  }

  lemma DottedPlainFacts(e: string)
    requires DottedPlain(e)
    ensures LStripDots(e) == e[1..] && Lower(e) == e && PlainExtension(LStripDots(e))
  {
    var p := e[1..];
    assert 'a' <= p[0] <= 'z' || '0' <= p[0] <= '9';
    assert LStripDots(p) == p;
    forall i | 0 <= i < |e| ensures LowerChar(e[i]) == e[i] {
      if i > 0 { assert e[i] == p[i - 1]; }
    }
    assert Lower(e) == e;
  }

  lemma TableEntriesDotted(row: TypeRow, e: string)
    requires row in ALLOWED_CONTENT_TYPES && e in row.extensions
    ensures DottedPlain(e)
  {
    assert e in [".jpg", ".jpeg", ".png", ".webp", ".heic", ".mp4", ".mov", ".pdf"];
  }

  /** The type that owns an extension, told apart by length and first letter after the dot. */
  function Owner(e: string): string {
    if |e| < 3 then ""
    else if e[1] == 'j' then "image/jpeg"
    else if e[1] == 'w' then "image/webp"
    else if e[1] == 'h' then "image/heic"
    else if e[1] == 'm' then (if e[2] == 'p' then "video/mp4" else "video/quicktime")
    else if e[2] == 'n' then "image/png"
    else "application/pdf"
  }

  lemma OwnerOfEntry(row: TypeRow, e: string)
    requires row in ALLOWED_CONTENT_TYPES && e in row.extensions
    ensures row.contentType == Owner(e)
  {
    assert row.contentType == "image/jpeg" ==> e == ".jpg" || e == ".jpeg";
    assert row == ALLOWED_CONTENT_TYPES[0] || row == ALLOWED_CONTENT_TYPES[1] || row == ALLOWED_CONTENT_TYPES[2]
        || row == ALLOWED_CONTENT_TYPES[3] || row == ALLOWED_CONTENT_TYPES[4] || row == ALLOWED_CONTENT_TYPES[5]
        || row == ALLOWED_CONTENT_TYPES[6];
    if row == ALLOWED_CONTENT_TYPES[0] {
      assert e[1] == 'j';
    } else {
      assert e == row.extensions[0];
    }
  }

  lemma TableNoConflict()
    ensures NoConflict(ALLOWED_CONTENT_TYPES)
  {
    forall c, e | Listed(ALLOWED_CONTENT_TYPES, c, e) ensures c == Owner(e) {
      var row :| row in ALLOWED_CONTENT_TYPES && Lists(row, c, e);
      var x :| x in row.extensions && Lower(x) == e;
      OwnerOfEntry(row, x);
      TableEntriesDotted(row, x);
      DottedPlainFacts(x);
    }
  }

  predicate UniqueTypes(table: seq<TypeRow>) {
    forall i, j :: 0 <= i < j < |table| ==> table[i].contentType != table[j].contentType
  }

  lemma TableUnique()
    ensures UniqueTypes(ALLOWED_CONTENT_TYPES)
  {
    var t := ALLOWED_CONTENT_TYPES;
    assert |t[0].contentType| == 10 && |t[1].contentType| == 9 && |t[2].contentType| == 10 && |t[3].contentType| == 10
        && |t[4].contentType| == 9 && |t[5].contentType| == 15 && |t[6].contentType| == 15;
    assert t[0].contentType[6] == 'j' && t[2].contentType[6] == 'w' && t[3].contentType[6] == 'h';
    assert t[1].contentType[0] == 'i' && t[4].contentType[0] == 'v';
    assert t[5].contentType[0] == 'v' && t[6].contentType[0] == 'a';
  }

  lemma {:induction false} ExtensionsFinds(table: seq<TypeRow>, row: TypeRow)
    requires UniqueTypes(table) && row in table
    ensures Extensions(table, row.contentType) == Some(row.extensions)
  {
    var k :| 0 <= k < |table| && table[k] == row;
    if k > 0 {
      assert table[1..][k - 1] == row;
      ExtensionsFinds(table[1..], row);
    }
  }

  lemma {:induction false} ExtensionsSound(table: seq<TypeRow>, ct: string)
    requires Extensions(table, ct).Some?
    ensures TypeRow(ct, Extensions(table, ct).value) in table
  {
    if table[0].contentType == ct {
      assert table[0] == TypeRow(ct, Extensions(table, ct).value);
    } else {
      ExtensionsSound(table[1..], ct);
    }
  }

  /** `ext`, stored without its dot, is one of the extensions of `contentType`. */
  predicate TableEntry(contentType: string, ext: string) {
    var exts := Extensions(ALLOWED_CONTENT_TYPES, contentType);
    exts.Some? && ext != "" && ("." + ext) in exts.value
  }

  lemma TableEntryPlain(contentType: string, ext: string)
    requires TableEntry(contentType, ext)
    ensures PlainExtension(ext)
  {
    ExtensionsSound(ALLOWED_CONTENT_TYPES, contentType);
    var row := TypeRow(contentType, Extensions(ALLOWED_CONTENT_TYPES, contentType).value);
    TableEntriesDotted(row, "." + ext);
    assert ("." + ext)[1..] == ext;
  }

  /** An extension whose inverted entry is `contentType` is a table entry of that type. */
  lemma InvertedEntry(contentType: string, ext: string)
    requires ext in ALLOWED_EXTENSIONS && ALLOWED_EXTENSIONS[ext] == contentType
    ensures DottedPlain(ext) && TableEntry(contentType, LStripDots(ext))
  {
    InvertedSound(map[], ALLOWED_CONTENT_TYPES, ext);
    var row :| row in ALLOWED_CONTENT_TYPES && Lists(row, contentType, ext);
    var e :| e in row.extensions && Lower(e) == ext;
    TableEntriesDotted(row, e);
    DottedPlainFacts(e);
    TableUnique();
    ExtensionsFinds(ALLOWED_CONTENT_TYPES, row);
    assert "." + LStripDots(e) == e;
  }

  lemma CanonicalEntry(contentType: string)
    requires TypeAllowed(contentType)
    ensures |Extensions(ALLOWED_CONTENT_TYPES, contentType).value| > 0
    ensures TableEntry(contentType, LStripDots(Extensions(ALLOWED_CONTENT_TYPES, contentType).value[0]))
  {
    var exts := Extensions(ALLOWED_CONTENT_TYPES, contentType).value;
    ExtensionsSound(ALLOWED_CONTENT_TYPES, contentType);
    var row := TypeRow(contentType, exts);
    assert forall r :: r in ALLOWED_CONTENT_TYPES ==> |r.extensions| > 0;
    TableEntriesDotted(row, exts[0]);
    DottedPlainFacts(exts[0]);
    assert "." + LStripDots(exts[0]) == exts[0];
  }
}
