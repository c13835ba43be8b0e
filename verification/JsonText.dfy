// Compact ASCII JSON: the text `json.dumps(..., separators=(",", ":"))` writes, and the reader that undoes it
// (sections 3 to 7 of RFC 8259; numbers are integers).
module JsonText {
  import opened Prelude

  /** A UTF-16 code unit: what one `\uXXXX` escape carries. */
  type Unit = u: int | 0 <= u < 0x10000

  type Units = seq<Unit>

  /** A JSON value as it is written: strings as UTF-16 units, members in the order of the text. */
  datatype Tree =
    | TNull
    | TBool(b: bool)
    | TInt(i: int)
    | TStr(units: Units)
    | TArr(items: seq<Tree>)
    | TObj(members: seq<Member>)

  datatype Member = Member(key: Units, value: Tree)

  // ---- Printing ----------------------------------------------------------------

  function DigitChar(d: int): char
    requires 0 <= d < 10
  {
    (d + '0' as int) as char
  }

  function Digits(n: nat): (r: string)
    ensures r != ""
  {
    if n < 10 then [DigitChar(n)] else Digits(n / 10) + [DigitChar(n % 10)]
  }

  function PrintInt(i: int): string {
    if i < 0 then "-" + Digits(-i) else Digits(i)
  }

  function HexChar(d: int): char
    requires 0 <= d < 16
  {
    if d < 10 then (d + '0' as int) as char else (d - 10 + 'a' as int) as char
  }

  function Hex4(u: Unit): string {
    [HexChar(u / 4096), HexChar(u / 256 % 16), HexChar(u / 16 % 16), HexChar(u % 16)]
  }

  /** The escapes of `json.dumps` with `ensure_ascii`: short forms, `\u` outside the printable ASCII range. */
  function EscapeUnit(u: Unit): (r: string)
    ensures r != ""
  {
    if u == 0x22 then ['\\', '"']
    else if u == 0x5C then ['\\', '\\']
    else if u == 0x0A then ['\\', 'n']
    else if u == 0x0D then ['\\', 'r']
    else if u == 0x09 then ['\\', 't']
    else if u == 0x0C then ['\\', 'f']
    else if u == 0x08 then ['\\', 'b']
    else if 0x20 <= u <= 0x7E then [u as char]
    else ['\\', 'u'] + Hex4(u)
  }

  function Escape(units: Units): string {
    if units == [] then "" else EscapeUnit(units[0]) + Escape(units[1..])
  }

  function PrintStr(units: Units): string {
    "\"" + Escape(units) + "\""
  }

  function Print(t: Tree): string
    decreases t
  {
    match t
    case TNull => "null"
    case TBool(b) => if b then "true" else "false"
    case TInt(i) => PrintInt(i)
    case TStr(units) => PrintStr(units)
    case TArr(items) => "[" + PrintItems(items) + "]"
    case TObj(members) => "{" + PrintMembers(members) + "}"
  }

  function PrintItems(items: seq<Tree>): string
    decreases items
  {
    if items == [] then ""
    else if |items| == 1 then Print(items[0])
    else Print(items[0]) + "," + PrintItems(items[1..])
  }

  function PrintMember(m: Member): string
    decreases m
  {
    PrintStr(m.key) + ":" + Print(m.value)
  }

  function PrintMembers(members: seq<Member>): string
    decreases members
  {
    if members == [] then ""
    else if |members| == 1 then PrintMember(members[0])
    else PrintMember(members[0]) + "," + PrintMembers(members[1..])
  }

  // ---- Reading -----------------------------------------------------------------

  predicate IsDigit(c: char) {
    '0' <= c <= '9'
  }

  function DigitRun(s: string): (k: nat)
    ensures k <= |s|
    ensures forall i :: 0 <= i < k ==> IsDigit(s[i])
  {
    if s == "" || !IsDigit(s[0]) then 0 else 1 + DigitRun(s[1..])
  }

  function DecimalValue(s: string): nat
    requires forall i :: 0 <= i < |s| ==> IsDigit(s[i])
  {
    if s == "" then 0
    else
      assert IsDigit(s[|s| - 1]);
      DecimalValue(s[..|s| - 1]) * 10 + (s[|s| - 1] as int - '0' as int)
  }

  function ReadNat(s: string): (r: Option<(nat, string)>)
    ensures r.Some? ==> |r.value.1| < |s|
  {
    var k := DigitRun(s);
    if k == 0 then None else Some((DecimalValue(s[..k]), s[k..]))
  }

  function ReadInt(s: string): (r: Option<(int, string)>)
    ensures r.Some? ==> |r.value.1| < |s|
  {
    if s != "" && s[0] == '-' then
      match ReadNat(s[1..])
      case Some((n, rest)) => Some((-(n as int), rest))
      case None => None
    else
      match ReadNat(s)
      case Some((n, rest)) => Some((n, rest))
      case None => None
  }

  function HexValue(c: char): (r: Option<int>)
    ensures r.Some? ==> 0 <= r.value < 16
  {
    if '0' <= c <= '9' then Some(c as int - '0' as int)
    else if 'a' <= c <= 'f' then Some(c as int - 'a' as int + 10)
    else None
  }

  function ReadHex4(s: string): Option<Unit> {
    if |s| < 4 then None
    else
      match (HexValue(s[0]), HexValue(s[1]), HexValue(s[2]), HexValue(s[3]))
      case (Some(a), Some(b), Some(c), Some(d)) => Some(a * 4096 + b * 256 + c * 16 + d)
      case _ => None
  }

  /** One unit of a string, escaped or plain, with what follows it. */
  function ReadUnit(s: string): (r: Option<(Unit, string)>)
    ensures r.Some? ==> |r.value.1| < |s|
  {
    if s == "" then None
    else if s[0] != '\\' then (if ' ' <= s[0] <= '~' then Some((s[0] as int, s[1..])) else None)
    else if |s| < 2 then None
    else if s[1] == 'u' then
      match ReadHex4(s[2..])
      case Some(u) => Some((u, s[6..]))
      case None => None
    else
      var rest := s[2..];
      match s[1]
      case '"' => Some((0x22, rest))
      case '\\' => Some((0x5C, rest))
      case 'n' => Some((0x0A, rest))
      case 'r' => Some((0x0D, rest))
      case 't' => Some((0x09, rest))
      case 'f' => Some((0x0C, rest))
      case 'b' => Some((0x08, rest))
      case _ => None
  }

  /** The units up to the closing quote. */
  function ReadStr(s: string): (r: Option<(Units, string)>)
    ensures r.Some? ==> |r.value.1| < |s|
    decreases |s|
  {
    if s != "" && s[0] == '"' then Some(([], s[1..]))
    else
      match ReadUnit(s)
      case None => None
      case Some((u, rest)) =>
        match ReadStr(rest)
        case None => None
        case Some((us, rest')) => Some(([u] + us, rest'))
  }

  function ReadValue(s: string): (r: Option<(Tree, string)>)
    ensures r.Some? ==> |r.value.1| < |s|
    decreases |s|, 0
  {
    if s == "" then None
    else if s[0] == '"' then
      match ReadStr(s[1..])
      case Some((us, rest)) => Some((TStr(us), rest))
      case None => None
    else if s[0] == '[' then
      if StartsWith(s, "[]") then Some((TArr([]), s[2..]))
      else
        match ReadItems(s[1..])
        case Some((items, rest)) => Some((TArr(items), rest))
        case None => None
    else if s[0] == '{' then
      if StartsWith(s, "{}") then Some((TObj([]), s[2..]))
      else
        match ReadMembers(s[1..])
        case Some((members, rest)) => Some((TObj(members), rest))
        case None => None
    else if StartsWith(s, "null") then Some((TNull, s[4..]))
    else if StartsWith(s, "true") then Some((TBool(true), s[4..]))
    else if StartsWith(s, "false") then Some((TBool(false), s[5..]))
    else
      match ReadInt(s)
      case Some((i, rest)) => Some((TInt(i), rest))
      case None => None
  }

  /** One or more values separated by commas, and the closing bracket. */
  function ReadItems(s: string): (r: Option<(seq<Tree>, string)>)
    ensures r.Some? ==> |r.value.1| < |s|
    decreases |s|, 1
  {
    match ReadValue(s)
    case None => None
    case Some((v, rest)) =>
      if rest != "" && rest[0] == ']' then Some(([v], rest[1..]))
      else if rest != "" && rest[0] == ',' then
        match ReadItems(rest[1..])
        case Some((vs, rest')) => Some(([v] + vs, rest'))
        case None => None
      else None
  }

  function ReadMember(s: string): (r: Option<(Member, string)>)
    ensures r.Some? ==> |r.value.1| < |s|
    decreases |s|, 1
  {
    if s == "" || s[0] != '"' then None
    else
      match ReadStr(s[1..])
      case None => None
      case Some((key, rest)) =>
        if rest == "" || rest[0] != ':' then None
        else
          match ReadValue(rest[1..])
          case Some((v, rest')) => Some((Member(key, v), rest'))
          case None => None
  }

  function ReadMembers(s: string): (r: Option<(seq<Member>, string)>)
    ensures r.Some? ==> |r.value.1| < |s|
    decreases |s|, 2
  {
    match ReadMember(s)
    case None => None
    case Some((m, rest)) =>
      if rest != "" && rest[0] == '}' then Some(([m], rest[1..]))
      else if rest != "" && rest[0] == ',' then
        match ReadMembers(rest[1..])
        case Some((ms, rest')) => Some(([m] + ms, rest'))
        case None => None
      else None
  }

  // ---- Numbers and strings read back ---------------------------------------------

  predicate DigitFirst(s: string) {
    s != "" && IsDigit(s[0])
  }

  lemma {:induction false} DigitsReadBack(n: nat)
    ensures forall i :: 0 <= i < |Digits(n)| ==> IsDigit(Digits(n)[i])
    ensures DecimalValue(Digits(n)) == n
  {
    if n >= 10 {
      DigitsReadBack(n / 10);
      var r := Digits(n);
      assert r[..|r| - 1] == Digits(n / 10);
    } else {
      assert DecimalValue([DigitChar(n)][..0]) == 0;
    }
  }

  lemma {:induction false} DigitRunExact(d: string, rest: string)
    requires forall i :: 0 <= i < |d| ==> IsDigit(d[i])
    requires !DigitFirst(rest)
    ensures DigitRun(d + rest) == |d|
  {
    if d == "" {
      assert d + rest == rest;
    } else {
      assert (d + rest)[1..] == d[1..] + rest;
      DigitRunExact(d[1..], rest);
    }
  }

  lemma ReadNatPrinted(n: nat, rest: string)
    requires !DigitFirst(rest)
    ensures ReadNat(Digits(n) + rest) == Some((n, rest))
  {
    var d := Digits(n);
    DigitsReadBack(n);
    DigitRunExact(d, rest);
    assert (d + rest)[..|d|] == d && (d + rest)[|d|..] == rest;
  }

  lemma ReadIntPrinted(i: int, rest: string)
    requires !DigitFirst(rest)
    ensures ReadInt(PrintInt(i) + rest) == Some((i, rest))
    ensures PrintInt(i)[0] == '-' || IsDigit(PrintInt(i)[0])
  {
    hide ReadNat, Digits, DecimalValue;
    if i < 0 {
      var s := PrintInt(i) + rest;
      ReadNatPrinted(-i, rest);
      assert s[1..] == Digits(-i) + rest;
    } else {
      DigitsReadBack(i);
      ReadNatPrinted(i, rest);
      assert (Digits(i) + rest)[0] == Digits(i)[0];
      assert IsDigit(Digits(i)[0]);
    }
  }

  lemma HexReadBack(d: int)
    requires 0 <= d < 16
    ensures HexValue(HexChar(d)) == Some(d)
  {
  }

  lemma Shift4(u: int)
    requires 0 <= u
    ensures u / 16 / 16 == u / 256
  {
    var r0, r1 := u % 16, u / 16 % 16;
    assert u == 256 * (u / 16 / 16) + 16 * r1 + r0;
  }

  lemma Shift8(u: int)
    requires 0 <= u
    ensures u / 256 / 16 == u / 4096
  {
    var r0, r1 := u % 256, u / 256 % 16;
    assert u == 4096 * (u / 256 / 16) + 256 * r1 + r0;
  }

  lemma HexRecombine(u: Unit)
    ensures u / 4096 * 4096 + u / 256 % 16 * 256 + u / 16 % 16 * 16 + u % 16 == u
  {
    Shift4(u);
    Shift8(u);
    var a, b, c := u / 16, u / 256, u / 4096;
    assert u == 16 * a + u % 16 && a == 16 * b + a % 16 && b == 16 * c + b % 16;
  }

  lemma Hex4ReadBack(u: Unit, rest: string)
    ensures ReadHex4(Hex4(u) + rest) == Some(u)
  {
    HexReadBack(u / 4096);
    HexReadBack(u / 256 % 16);
    HexReadBack(u / 16 % 16);
    HexReadBack(u % 16);
    hide HexChar, HexValue;
    var s := Hex4(u) + rest;
    assert s[0] == HexChar(u / 4096) && s[1] == HexChar(u / 256 % 16) && s[2] == HexChar(u / 16 % 16)
        && s[3] == HexChar(u % 16);
    HexRecombine(u);
  }

  lemma ReadUnitPrinted(u: Unit, rest: string)
    ensures ReadUnit(EscapeUnit(u) + rest) == Some((u, rest))
    ensures EscapeUnit(u)[0] != '"'
  {
    var e := EscapeUnit(u);
    var s := e + rest;
    if |e| == 6 {
      assert s[2..] == Hex4(u) + rest;
      assert s[6..] == rest;
      Hex4ReadBack(u, rest);
    } else {
      assert s[|e|..] == rest;
    }
  }

  lemma {:induction false} ReadStrPrinted(units: Units, rest: string)
    ensures ReadStr(Escape(units) + "\"" + rest) == Some((units, rest))
  {
    var s := Escape(units) + "\"" + rest;
    if units == [] {
      assert s == "\"" + rest;
    } else {
      var tail := Escape(units[1..]) + "\"" + rest;
      assert s == EscapeUnit(units[0]) + tail;
      ReadUnitPrinted(units[0], tail);
      ReadStrPrinted(units[1..], rest);
      assert s[0] == EscapeUnit(units[0])[0];
      assert [units[0]] + units[1..] == units;
    }
  }

  // ---- Round trip ------------------------------------------------------------------

  /** No printed value begins like a separator or a closing bracket. */
  lemma PrintHead(t: Tree)
    ensures Print(t) != "" && Print(t)[0] != ']' && Print(t)[0] != '}' && Print(t)[0] != ','
  {
    if t.TInt? { ReadIntPrinted(t.i, ""); }
  }

  lemma StartsWithAppend(p: string, rest: string)
    ensures StartsWith(p + rest, p) && (p + rest)[|p|..] == rest
  {
  }

  lemma ReadWord(rest: string)
    ensures ReadValue("null" + rest) == Some((TNull, rest))
    ensures ReadValue("true" + rest) == Some((TBool(true), rest))
    ensures ReadValue("false" + rest) == Some((TBool(false), rest))
  {
    hide ReadItems, ReadMembers, ReadStr, ReadInt;
    StartsWithAppend("null", rest);
    StartsWithAppend("true", rest);
    StartsWithAppend("false", rest);
  }

  lemma ReadScalar(t: Tree, rest: string)
    requires t.TNull? || t.TBool? || t.TInt? || t.TStr?
    requires t.TInt? ==> !DigitFirst(rest)
    ensures ReadValue(Print(t) + rest) == Some((t, rest))
  {
    hide ReadItems, ReadMembers, ReadStr, ReadInt, Escape, PrintInt;
    if t.TInt? {
      ReadIntPrinted(t.i, rest);
      assert (PrintInt(t.i) + rest)[0] == PrintInt(t.i)[0];
    } else if t.TStr? {
      var tail := Escape(t.units) + "\"" + rest;
      ReadStrPrinted(t.units, rest);
      assert Print(t) + rest == "\"" + tail;
      assert ("\"" + tail)[1..] == tail;
    } else {
      ReadWord(rest);
    }
  }

  /** How the reader consumes a list: the last element, or an element and a comma. */
  lemma ItemsLast(s: string, v: Tree, rest: string)
    requires ReadValue(s) == Some((v, "]" + rest))
    ensures ReadItems(s) == Some(([v], rest))
  {
    assert ("]" + rest)[1..] == rest;
  }

  lemma ItemsMore(s: string, v: Tree, tail: string, vs: seq<Tree>, rest: string)
    requires ReadValue(s) == Some((v, "," + tail)) && ReadItems(tail) == Some((vs, rest))
    ensures ReadItems(s) == Some(([v] + vs, rest))
  {
    assert ("," + tail)[1..] == tail;
  }

  lemma MembersLast(s: string, m: Member, rest: string)
    requires ReadMember(s) == Some((m, "}" + rest))
    ensures ReadMembers(s) == Some(([m], rest))
  {
    assert ("}" + rest)[1..] == rest;
  }

  lemma MembersMore(s: string, m: Member, tail: string, ms: seq<Member>, rest: string)
    requires ReadMember(s) == Some((m, "," + tail)) && ReadMembers(tail) == Some((ms, rest))
    ensures ReadMembers(s) == Some(([m] + ms, rest))
  {
    assert ("," + tail)[1..] == tail;
  }

  lemma MemberParts(s: string, key: Units, tail: string, v: Tree, rest: string)
    requires s != "" && s[0] == '"' && ReadStr(s[1..]) == Some((key, ":" + tail)) && ReadValue(tail) == Some((v, rest))
    ensures ReadMember(s) == Some((Member(key, v), rest))
  {
    assert (":" + tail)[1..] == tail;
  }

  lemma BracketValue(s: string, tail: string, items: seq<Tree>, rest: string)
    requires s == "[" + tail && tail != "" && tail[0] != ']' && ReadItems(tail) == Some((items, rest))
    ensures ReadValue(s) == Some((TArr(items), rest))
  {
    assert s[1..] == tail;
    assert s[..2][1] == tail[0];
  }

  lemma BraceValue(s: string, tail: string, members: seq<Member>, rest: string)
    requires s == "{" + tail && tail != "" && tail[0] != '}' && ReadMembers(tail) == Some((members, rest))
    ensures ReadValue(s) == Some((TObj(members), rest))
  {
    assert s[1..] == tail;
    assert s[..2][1] == tail[0];
  }

  lemma EmptyValue(rest: string)
    ensures ReadValue("[]" + rest) == Some((TArr([]), rest))
    ensures ReadValue("{}" + rest) == Some((TObj([]), rest))
  {
    StartsWithAppend("[]", rest);
    StartsWithAppend("{}", rest);
  }

  lemma PrintEmpty()
    ensures Print(TArr([])) == "[]" && Print(TObj([])) == "{}"
  {
    assert PrintItems([]) == "" && PrintMembers([]) == "";
  }

  /** Reading back what was printed returns the value and leaves the rest, for every value and every rest
      that does not continue a number. */
  lemma {:induction false} ReadPrinted(t: Tree, rest: string)
    requires t.TInt? ==> !DigitFirst(rest)
    ensures ReadValue(Print(t) + rest) == Some((t, rest))
    decreases t
  {
    hide ReadValue, ReadItems, ReadMembers, PrintStr;
    match t
    case TArr(items) =>
      if items == [] {
        PrintEmpty();
        EmptyValue(rest);
      } else {
        ReadItemsPrinted(items, rest);
        PrintHead(items[0]);
        var tail := PrintItems(items) + "]" + rest;
        assert tail[0] == Print(items[0])[0];
        assert Print(t) + rest == "[" + tail;
        BracketValue("[" + tail, tail, items, rest);
      }
    case TObj(members) =>
      if members == [] {
        PrintEmpty();
        EmptyValue(rest);
      } else {
        ReadMembersPrinted(members, rest);
        MemberHead(members[0]);
        var tail := PrintMembers(members) + "}" + rest;
        assert tail[0] == PrintMember(members[0])[0];
        assert Print(t) + rest == "{" + tail;
        BraceValue("{" + tail, tail, members, rest);
      }
    case _ => ReadScalar(t, rest);
  }

  lemma MemberHead(m: Member)
    ensures PrintMember(m) != "" && PrintMember(m)[0] == '"'
  {
  }

  lemma {:induction false} ReadItemsPrinted(items: seq<Tree>, rest: string)
    requires items != []
    ensures ReadItems(PrintItems(items) + "]" + rest) == Some((items, rest))
    decreases items
  {
    hide ReadValue, ReadItems, Print;
    var s := PrintItems(items) + "]" + rest;
    if |items| == 1 {
      ReadPrinted(items[0], "]" + rest);
      assert s == Print(items[0]) + ("]" + rest);
      ItemsLast(s, items[0], rest);
      assert [items[0]] == items;
    } else {
      var tail := PrintItems(items[1..]) + "]" + rest;
      ReadPrinted(items[0], "," + tail);
      ReadItemsPrinted(items[1..], rest);
      assert s == Print(items[0]) + ("," + tail);
      ItemsMore(s, items[0], tail, items[1..], rest);
      assert [items[0]] + items[1..] == items;
    }
  }

  lemma {:induction false} ReadMemberPrinted(m: Member, rest: string)
    requires !DigitFirst(rest)
    ensures ReadMember(PrintMember(m) + rest) == Some((m, rest))
    decreases m
  {
    hide ReadValue, ReadMember, ReadStr, Print, Escape;
    var s := PrintMember(m) + rest;
    var tail := Print(m.value) + rest;
    ReadStrPrinted(m.key, ":" + tail);
    assert s == "\"" + (Escape(m.key) + "\"" + (":" + tail));
    assert s[1..] == Escape(m.key) + "\"" + (":" + tail);
    ReadPrinted(m.value, rest);
    MemberParts(s, m.key, tail, m.value, rest);
  }

  lemma {:induction false} ReadMembersPrinted(members: seq<Member>, rest: string)
    requires members != []
    ensures ReadMembers(PrintMembers(members) + "}" + rest) == Some((members, rest))
    decreases members
  {
    hide ReadMember, ReadMembers, PrintMember;
    var s := PrintMembers(members) + "}" + rest;
    if |members| == 1 {
      ReadMemberPrinted(members[0], "}" + rest);
      assert s == PrintMember(members[0]) + ("}" + rest);
      MembersLast(s, members[0], rest);
      assert [members[0]] == members;
    } else {
      var tail := PrintMembers(members[1..]) + "}" + rest;
      ReadMemberPrinted(members[0], "," + tail);
      ReadMembersPrinted(members[1..], rest);
      assert s == PrintMember(members[0]) + ("," + tail);
      MembersMore(s, members[0], tail, members[1..], rest);
      assert [members[0]] + members[1..] == members;
    }
  }

  /** `json.loads` on a compact text: one value and nothing after it. */
  function Parse(s: string): Option<Tree> {
    match ReadValue(s)
    case Some((t, rest)) => if rest == "" then Some(t) else None
    case None => None
  }

  lemma ParsePrint(t: Tree)
    ensures Parse(Print(t)) == Some(t)
  {
    ReadPrinted(t, "");
    assert Print(t) + "" == Print(t);
  }

  /** Two trees are written alike only if they are the same tree. */
  lemma PrintInjective(t: Tree, u: Tree)
    ensures Print(t) == Print(u) <==> t == u
  {
    ParsePrint(t);
    ParsePrint(u);
  }

  // ---- The text is ASCII, so its UTF-8 encoding is itself ---------------------------

  predicate Ascii(s: string) {
    forall i :: 0 <= i < |s| ==> s[i] as int < 128
  }

  lemma {:induction false} DigitsAscii(n: nat)
    ensures Ascii(Digits(n))
  {
    if n >= 10 { DigitsAscii(n / 10); }
  }

  lemma {:induction false} EscapeAscii(units: Units)
    ensures Ascii(Escape(units))
  {
    if units != [] {
      EscapeAscii(units[1..]);
      assert Ascii(EscapeUnit(units[0]));
    }
  }

  lemma {:induction false} PrintAscii(t: Tree)
    ensures Ascii(Print(t))
    decreases t
  {
    match t
    case TInt(i) => DigitsAscii(if i < 0 then -i else i);
    case TStr(units) => EscapeAscii(units);
    case TArr(items) => PrintItemsAscii(items);
    case TObj(members) => PrintMembersAscii(members);
    case _ =>
  }

  lemma {:induction false} PrintItemsAscii(items: seq<Tree>)
    ensures Ascii(PrintItems(items))
    decreases items
  {
    if items != [] {
      PrintAscii(items[0]);
      PrintItemsAscii(items[1..]);
    }
  }

  lemma {:induction false} PrintMembersAscii(members: seq<Member>)
    ensures Ascii(PrintMembers(members))
    decreases members
  {
    if members != [] {
      EscapeAscii(members[0].key);
      PrintAscii(members[0].value);
      PrintMembersAscii(members[1..]);
    }
  }
}
