/** Which texts are JSON. */
module Rfc8259 {
  import opened Wrappers
  import opened Bytes
  import opened Codec
  import opened Json
  import opened JsonProofs
  import Utf8

  // ------------------------------------------------------------------
  // Strings (section 7)
  // ------------------------------------------------------------------

  /** One character of a string literal: as it is, after a backslash, or spelt by
      one or two groups of four hexadecimal digits. */
  datatype Piece = Plain(c: char) | Short(e: char) | Hex(digits: string) | Pair(high: string, low: string)

  function Nibble(c: char): (r: Option<nat>)
    ensures r.Some? ==> r.value < 16
  {
    if '0' <= c <= '9' then Some(c as int - '0' as int)
    else if 'A' <= c <= 'F' then Some(c as int - 'A' as int + 10)
    else if 'a' <= c <= 'f' then Some(c as int - 'a' as int + 10)
    else None
  }

  predicate FourDigits(s: string)
  {
    |s| == 4 && forall i :: 0 <= i < 4 ==> Nibble(s[i]).Some?
  }

  function CodeUnit(s: string): nat
    requires FourDigits(s)
  {
    Nibble(s[0]).value * 0x1000 + Nibble(s[1]).value * 0x100 + Nibble(s[2]).value * 0x10 + Nibble(s[3]).value
  }

  predicate ShortEscape(e: char)
  {
    e == '"' || e == '\\' || e == '/' || e == 'b' || e == 'f' || e == 'n' || e == 'r' || e == 't'
  }

  predicate WellFormed(p: Piece)
  {
    match p
    case Plain(c) => c as int >= 0x20 && c != '"' && c != '\\'
    case Short(e) => ShortEscape(e)
    case Hex(d) => FourDigits(d) && !(0xD800 <= CodeUnit(d) <= 0xDFFF)
    case Pair(h, l) =>
      FourDigits(h) && FourDigits(l) && 0xD800 <= CodeUnit(h) <= 0xDBFF && 0xDC00 <= CodeUnit(l) <= 0xDFFF
  }

  predicate AllWellFormed(pieces: seq<Piece>) { forall i :: 0 <= i < |pieces| ==> WellFormed(pieces[i]) }

  function Written(p: Piece): string
  {
    match p
    case Plain(c) => [c]
    case Short(e) => ['\\', e]
    case Hex(d) => "\\u" + d
    case Pair(h, l) => "\\u" + h + "\\u" + l
  }

  function Meant(p: Piece): char
    requires WellFormed(p)
  {
    match p
    case Plain(c) => c
    case Short(e) =>
      if e == 'b' then 0x08 as char
      else if e == 'f' then 0x0c as char
      else if e == 'n' then 0x0a as char
      else if e == 'r' then 0x0d as char
      else if e == 't' then 0x09 as char
      else e
    case Hex(d) => CodeUnit(d) as char
    case Pair(h, l) => ((CodeUnit(h) - 0xD800) * 0x400 + (CodeUnit(l) - 0xDC00) + 0x1_0000) as char
  }

  function AllWritten(pieces: seq<Piece>): string
  {
    if pieces == [] then "" else Written(pieces[0]) + AllWritten(pieces[1..])
  }

  function AllMeant(pieces: seq<Piece>): string
    requires AllWellFormed(pieces)
  {
    if pieces == [] then "" else [Meant(pieces[0])] + AllMeant(pieces[1..])
  }

  lemma NibbleIs(c: char)
    ensures HexDigitAnyCase(c) == Nibble(c)
  {
  }

  lemma {:induction false} FourRead(d: string, rest: string)
    requires FourDigits(d)
    ensures ReadHex4(d + rest) == Some(Read(CodeUnit(d), rest))
  {
    hide HexDigitAnyCase, Nibble;
    NibbleIs(d[0]);
    NibbleIs(d[1]);
    NibbleIs(d[2]);
    NibbleIs(d[3]);
    assert (d + rest)[4..] == rest;
  }

  lemma {:induction false} UnicodeRead(p: Piece, rest: string)
    requires WellFormed(p) && (p.Hex? || p.Pair?)
    ensures ReadEscape(Written(p)[1..] + rest) == Some(Read(Meant(p), rest))
  {
    hide ReadHex4, FourDigits, CodeUnit;
    match p
    case Hex(d) =>
      assert (Written(p)[1..] + rest)[1..] == d + rest;
      FourRead(d, rest);
    case Pair(h, l) =>
      var u := "\\u" + (l + rest);
      assert (Written(p)[1..] + rest)[1..] == h + u;
      FourRead(h, u);
      assert u[..2] == "\\u" && u[2..] == l + rest;
      FourRead(l, rest);
  }

  lemma {:induction false} ShortRead(e: char, rest: string)
    requires ShortEscape(e)
    ensures ReadEscape([e] + rest) == Some(Read(Meant(Short(e)), rest))
  {
    hide ReadUnicode;
    assert ([e] + rest)[1..] == rest;
  }

  lemma {:induction false} PieceRead(p: Piece, tail: string)
    requires WellFormed(p)
    ensures ReadString(Written(p) + tail)
         == var t := ReadString(tail); if t.None? then None else Some(Read([Meant(p)] + t.value.value, t.value.rest))
  {
    hide ReadEscape, Meant, FourDigits, CodeUnit;
    var s := Written(p) + tail;
    match p
    case Plain(c) =>
      assert s[1..] == tail;
      assert Meant(p) == c by { PlainMeans(c); }
    case Short(e) =>
      assert s[1..] == [e] + tail;
      ShortRead(e, tail);
    case Hex(d) =>
      assert s[1..] == Written(p)[1..] + tail;
      UnicodeRead(p, tail);
    case Pair(h, l) =>
      assert s[1..] == Written(p)[1..] + tail;
      UnicodeRead(p, tail);
  }

  lemma PlainMeans(c: char)
    requires WellFormed(Plain(c))
    ensures Meant(Plain(c)) == c
  {
  }

  /** Every string literal is read as the characters it spells. */
  lemma {:induction false} StringRead(pieces: seq<Piece>, rest: string)
    requires AllWellFormed(pieces)
    ensures ReadString(AllWritten(pieces) + ("\"" + rest)) == Some(Read(AllMeant(pieces), rest))
  {
    hide ReadString, Written, Meant, WellFormed;
    if pieces == [] {
      assert AllWritten(pieces) + ("\"" + rest) == "\"" + rest;
      QuoteEnds(rest);
    } else {
      StringRead(pieces[1..], rest);
      PieceRead(pieces[0], AllWritten(pieces[1..]) + ("\"" + rest));
      assert AllWritten(pieces) + ("\"" + rest) == Written(pieces[0]) + (AllWritten(pieces[1..]) + ("\"" + rest));
    }
  }

  lemma QuoteEnds(rest: string)
    ensures ReadString("\"" + rest) == Some(Read("", rest))
  {
    assert ("\"" + rest)[1..] == rest;
  }

  /** The escape that was read. */
  lemma {:induction false} EscapeSpelt(s: string) returns (p: Piece)
    requires ReadEscape(s).Some?
    ensures WellFormed(p) && !p.Plain? && Meant(p) == ReadEscape(s).value.value
    ensures "\\" + s == Written(p) + ReadEscape(s).value.rest
  {
    hide ReadUnicode, FourDigits, CodeUnit, Meant;
    var rest := s[1..];
    assert s == [s[0]] + rest;
    if s[0] == 'u' {
      p := UnicodeSpelt(rest);
      assert "\\" + s == "\\u" + rest;
    } else {
      p := Short(s[0]);
      assert ShortEscape(s[0]);
      ShortRead(s[0], rest);
      assert "\\" + s == Written(p) + rest;
    }
  }

  lemma {:induction false} FourSpelt(s: string)
    requires ReadHex4(s).Some?
    ensures |s| >= 4 && FourDigits(s[..4]) && ReadHex4(s) == Some(Read(CodeUnit(s[..4]), s[4..]))
  {
    hide HexDigitAnyCase, Nibble;
    NibbleIs(s[0]);
    NibbleIs(s[1]);
    NibbleIs(s[2]);
    NibbleIs(s[3]);
  }

  /** A surrogate pair. */
  lemma {:induction false} PairSpelt(s: string) returns (p: Piece)
    requires ReadUnicode(s).Some? && |s| >= 4 && FourDigits(s[..4]) && 0xD800 <= CodeUnit(s[..4]) <= 0xDBFF
    requires ReadHex4(s) == Some(Read(CodeUnit(s[..4]), s[4..]))
    ensures WellFormed(p) && !p.Plain? && Meant(p) == ReadUnicode(s).value.value
    ensures "\\u" + s == Written(p) + ReadUnicode(s).value.rest
  {
    hide ReadHex4, FourDigits, CodeUnit;
    var high, rest := s[..4], s[4..];
    var more := rest[2..];
    FourSpelt(more);
    var low := more[..4];
    p := Pair(high, low);
    assert s == high + rest && rest == "\\u" + more && more == low + more[4..];
    TwoUnits(high, low, more[4..]);
  }

  lemma TwoUnits(high: string, low: string, rest: string)
    ensures "\\u" + (high + ("\\u" + (low + rest))) == "\\u" + high + "\\u" + low + rest
  {
  }

  lemma {:induction false} UnicodeSpelt(s: string) returns (p: Piece)
    requires ReadUnicode(s).Some?
    ensures WellFormed(p) && !p.Plain? && Meant(p) == ReadUnicode(s).value.value
    ensures "\\u" + s == Written(p) + ReadUnicode(s).value.rest
  {
    hide ReadHex4, FourDigits, CodeUnit;
    FourSpelt(s);
    var high := s[..4];
    if 0xD800 <= CodeUnit(high) <= 0xDBFF {
      p := PairSpelt(s);
    } else {
      p := Hex(high);
      assert s == high + s[4..];
    }
  }

  /** Every string that is read was such a literal. */
  lemma {:induction false} StringSpelt(s: string) returns (pieces: seq<Piece>)
    requires ReadString(s).Some?
    ensures AllWellFormed(pieces) && AllMeant(pieces) == ReadString(s).value.value
    ensures s == AllWritten(pieces) + ("\"" + ReadString(s).value.rest)
    decreases |s|
  {
    hide ReadEscape, WellFormed, Meant, Written;
    if s[0] == '"' {
      pieces := [];
      assert s == "\"" + s[1..];
    } else {
      var p, tail;
      if s[0] == '\\' {
        p := EscapeSpelt(s[1..]);
        tail := ReadEscape(s[1..]).value.rest;
        assert s == "\\" + s[1..];
      } else {
        p, tail := Plain(s[0]), s[1..];
        PlainPiece(s[0]);
        assert s == [s[0]] + s[1..];
      }
      var more := StringSpelt(tail);
      pieces := [p] + more;
      assert pieces[1..] == more;
      assert s == Written(p) + AllWritten(more) + ("\"" + ReadString(s).value.rest);
    }
  }

  lemma PlainPiece(c: char)
    requires c != '"' && c != '\\' && c as int >= 0x20
    ensures WellFormed(Plain(c)) && Meant(Plain(c)) == c && Written(Plain(c)) == [c]
  {
  }

  // ------------------------------------------------------------------
  // White space and numbers (sections 2 and 6)
  // ------------------------------------------------------------------

  predicate Spaces(s: string)
  {
    forall i :: 0 <= i < |s| ==> s[i] == ' ' || s[i] == '\t' || s[i] == '\n' || s[i] == '\r'
  }

  lemma {:induction false} SpacesSkipped(sp: string, t: string)
    requires Spaces(sp)
    ensures SkipSpace(sp + t) == SkipSpace(t)
  {
    if sp == "" {
      assert sp + t == t;
    } else {
      SpacesSkipped(sp[1..], t);
      assert (sp + t)[1..] == sp[1..] + t;
    }
  }

  /** What was skipped was white space. */
  lemma {:induction false} SkippedSpaces(s: string) returns (sp: string)
    ensures Spaces(sp) && s == sp + SkipSpace(s)
    ensures SkipSpace(s) != "" ==> !IsSpace(SkipSpace(s)[0])
  {
    if s != "" && IsSpace(s[0]) {
      var more := SkippedSpaces(s[1..]);
      sp := [s[0]] + more;
      assert s == [s[0]] + s[1..];
    } else {
      sp := "";
    }
  }

  /** Digits without a leading zero, as a number. */
  predicate Digits(d: string)
  {
    d != "" && (forall i :: 0 <= i < |d| ==> '0' <= d[i] <= '9') && (d[0] == '0' ==> |d| == 1)
  }

  function Denary(d: string): nat
    requires forall i :: 0 <= i < |d| ==> '0' <= d[i] <= '9'
  {
    if d == "" then 0 else Denary(d[..|d| - 1]) * 10 + (d[|d| - 1] as int - '0' as int)
  }

  lemma {:induction false} DenaryIs(d: string)
    requires AllDigits(d)
    ensures DecimalValue(d) == Denary(d)
  {
    if d != "" {
      assert IsDigit(d[|d| - 1]);
      DenaryIs(d[..|d| - 1]);
    }
  }

  /** The integer that a number spells, if there is a value for it. */
  function NumberMeant(negative: bool, d: string): Option<Value>
    requires Digits(d)
  {
    if !negative then (if Denary(d) <= 0xffff_ffff_ffff_ffff then Some(Uint(Denary(d))) else None)
    else if 1 <= Denary(d) <= 0x8000_0000_0000_0000 then Some(Nint(Denary(d) - 1))
    else None
  }

  /** What may follow a value. */
  predicate Ends(rest: string)
  {
    rest == "" || rest[0] == ',' || rest[0] == ']' || rest[0] == '}' || IsSpace(rest[0])
  }

  lemma EndsNumber(rest: string)
    requires Ends(rest)
    ensures rest == "" || (!IsDigit(rest[0]) && rest[0] != '.' && rest[0] != 'e' && rest[0] != 'E')
  {
  }

  lemma {:induction false} NumberReadAs(negative: bool, d: string, rest: string)
    requires Digits(d) && Ends(rest)
    ensures var v := NumberMeant(negative, d);
      ReadNumber((if negative then "-" else "") + d + rest) == if v.None? then None else Some(Read(v.value, rest))
  {
    hide DigitCount, DecimalValue, Denary, Ends;
    EndsNumber(rest);
    DigitRun(d, rest);
    DenaryIs(d);
    PositiveUnlessZero(d);
    var s := (if negative then "-" else "") + d + rest;
    if negative {
      assert s[1..] == d + rest && s[..1] == "-";
    } else {
      assert s == d + rest && s[0] == d[0] && s[..1] == [d[0]];
    }
  }

  /** Every number that is read was such digits. */
  lemma {:induction false} NumberSpelt(s: string) returns (negative: bool, d: string)
    requires ReadNumber(s).Some?
    ensures Digits(d) && NumberMeant(negative, d) == Some(ReadNumber(s).value.value)
    ensures s == (if negative then "-" else "") + d + ReadNumber(s).value.rest
  {
    hide DecimalValue, Denary;
    negative := StartsWith(s, "-");
    var t := if negative then s[1..] else s;
    var n := DigitCount(t);
    d := t[..n];
    DenaryIs(d);
    PositiveUnlessZero(d);
    forall i | 0 <= i < |d| ensures '0' <= d[i] <= '9' { assert IsDigit(d[i]); }
    assert t == d + t[n..];
    if negative { assert s == s[..1] + t; }
  }

  // ------------------------------------------------------------------
  // Texts (sections 2 to 5)
  // ------------------------------------------------------------------

  /** A JSON text with its white space and its way of spelling strings. */
  datatype Doc =
    | Number(negative: bool, digits: string)
    | Str(pieces: seq<Piece>)
    | Literal(value: Value)
    | List(blank: string, items: seq<Padded>)
    | Object(blank: string, members: seq<Field>)

  datatype Padded = Padded(before: string, doc: Doc, after: string)

  datatype Field = Field(before: string, name: seq<Piece>, gap: string, val: Padded)

  ghost predicate Proper(d: Doc)
    decreases d
  {
    match d
    case Number(_, digits) => Digits(digits)
    case Str(pieces) => AllWellFormed(pieces)
    case Literal(v) => v.Bool? || v.Null?
    case List(blank, items) => Spaces(blank) && ProperItems(items)
    case Object(blank, members) => Spaces(blank) && ProperMembers(members)
  }

  ghost predicate ProperItems(items: seq<Padded>)
    decreases items
  {
    items == []
    || (assert items[0].doc < items[0];
        Spaces(items[0].before) && Proper(items[0].doc) && Spaces(items[0].after) && ProperItems(items[1..]))
  }

  ghost predicate ProperMembers(members: seq<Field>)
    decreases members
  {
    members == []
    || (var m := members[0];
        assert m.val < m && m.val.doc < m.val;
        Spaces(m.before) && AllWellFormed(m.name) && Spaces(m.gap)
        && Spaces(m.val.before) && Proper(m.val.doc) && Spaces(m.val.after) && ProperMembers(members[1..]))
  }

  function Print(d: Doc): string
    decreases d
  {
    match d
    case Number(negative, digits) => (if negative then "-" else "") + digits
    case Str(pieces) => "\"" + AllWritten(pieces) + "\""
    case Literal(v) => if v.Bool? then (if v.f then "true" else "false") else "null"
    case List(blank, items) => "[" + (if items == [] then blank else PrintItems(items)) + "]"
    case Object(blank, members) => "{" + (if members == [] then blank else PrintMembers(members)) + "}"
  }

  function PrintItems(items: seq<Padded>): string
    decreases items
  {
    if items == [] then ""
    else
      assert items[0].doc < items[0];
      items[0].before + Print(items[0].doc) + items[0].after
      + if |items| == 1 then "" else "," + PrintItems(items[1..])
  }

  function PrintMembers(members: seq<Field>): string
    decreases members
  {
    if members == [] then ""
    else
      var m := members[0];
      assert m.val < m && m.val.doc < m.val;
      m.before + ("\"" + AllWritten(m.name) + "\"") + m.gap + ":" + m.val.before + Print(m.val.doc) + m.val.after
      + if |members| == 1 then "" else "," + PrintMembers(members[1..])
  }

  /** What a text at some depth stands for: strings are byte strings or texts by
      their marks, keys also integers; keys differ, and no value lies deeper than
      64. */
  ghost function Meaning(d: Doc, depth: nat): Option<Value>
    requires Proper(d)
    decreases d
  {
    if depth > 64 then None
    else
      match d
      case Number(negative, digits) => NumberMeant(negative, digits)
      case Str(pieces) => StringValue(AllMeant(pieces))
      case Literal(v) => Some(v)
      case List(_, items) =>
        var vs :- ItemsMeant(items, depth + 1);
        if |vs| < U64_SIZE then Some(Array(vs)) else None
      case Object(_, members) =>
        var es :- MembersMeant(members, depth + 1);
        if DifferentKeys(es) && |es| < U64_SIZE then Some(Map(es)) else None
  }

  ghost function ItemsMeant(items: seq<Padded>, depth: nat): (r: Option<seq<Value>>)
    requires ProperItems(items)
    ensures r.Some? ==> |r.value| == |items|
    decreases items
  {
    if items == [] then Some([])
    else
      assert items[0].doc < items[0];
      var v :- Meaning(items[0].doc, depth);
      var vs :- ItemsMeant(items[1..], depth);
      Some([v] + vs)
  }

  ghost function MembersMeant(members: seq<Field>, depth: nat): (r: Option<seq<Entry>>)
    requires ProperMembers(members)
    ensures r.Some? ==> |r.value| == |members|
    decreases members
  {
    if members == [] then Some([])
    else
      var m := members[0];
      assert m.val < m && m.val.doc < m.val;
      var k :- KeyValue(AllMeant(m.name));
      var v :- Meaning(m.val.doc, depth);
      var es :- MembersMeant(members[1..], depth);
      Some([Entry(k, v)] + es)
  }

  /** What reading comes to, before `rest`. */
  ghost function Outcome<T>(v: Option<T>, rest: string): Option<Read<T>>
  {
    if v.None? then None else Some(Read(v.value, rest))
  }

  /** A text is read as what it means, and reading stops at its end. */
  ghost predicate ReadsAs(d: Doc, rest: string, depth: nat)
    requires Proper(d)
  {
    ReadValue(Print(d) + rest, depth) == Outcome(Meaning(d, depth), rest)
  }

  lemma {:induction false} DocStart(d: Doc)
    requires Proper(d)
    ensures var s := Print(d);
      s != "" && !IsSpace(s[0]) && s[0] != ']' && s[0] != '}' && s[0] != ',' && s[0] != ':'
      && match d
         case Number(_, _) => s[0] == '-' || IsDigit(s[0])
         case Str(_) => s[0] == '"'
         case Literal(v) => if v.Bool? then s[0] == (if v.f then 't' else 'f') else s[0] == 'n'
         case List(_, _) => s[0] == '['
         case Object(_, _) => s[0] == '{'
  {
    hide AllWritten, PrintItems, PrintMembers, ProperItems, ProperMembers, AllWellFormed;
  }

  lemma {:induction false} ValueAfterSpace(s: string, depth: nat)
    ensures ReadValue(SkipSpace(s), depth) == ReadValue(s, depth)
  {
    var sp := SkippedSpaces(s);
    SkipTwice(s);
    hide ReadObject, ReadArray, ReadString, ReadNumber, SkipSpace;
  }

  lemma {:induction false} SkipTwice(s: string)
    ensures SkipSpace(SkipSpace(s)) == SkipSpace(s)
  {
    if s != "" && IsSpace(s[0]) { SkipTwice(s[1..]); }
  }

  lemma {:induction false} ScalarReads(d: Doc, rest: string, depth: nat)
    requires Proper(d) && Ends(rest) && (d.Number? || d.Str? || d.Literal?)
    ensures ReadsAs(d, rest, depth)
  {
    hide ReadNumber, ReadString, StringValue, AllWritten, AllMeant, SkipSpace, Digits, AllWellFormed, Ends, NumberMeant;
    DocStart(d);
    NoSpace(Print(d), rest);
    match d
    case Number(negative, digits) => NumberReadAs(negative, digits, rest);
    case Str(pieces) =>
      StringRead(pieces, rest);
      assert (Print(d) + rest)[1..] == AllWritten(pieces) + ("\"" + rest);
    case Literal(v) => LiteralRead(Print(d), rest);
  }

  lemma {:induction false} DocReads(d: Doc, rest: string, depth: nat)
    requires Proper(d) && Ends(rest)
    ensures ReadsAs(d, rest, depth)
    decreases d, 2
  {
    match d
    case List(blank, items) => ListReads(blank, items, rest, depth);
    case Object(blank, members) => ObjectReads(blank, members, rest, depth);
    case _ => ScalarReads(d, rest, depth);
  }

  lemma {:induction false} ListReads(blank: string, items: seq<Padded>, rest: string, depth: nat)
    requires Spaces(blank) && ProperItems(items)
    ensures ReadsAs(List(blank, items), rest, depth)
    decreases items, 3
  {
    hide ReadElements, PrintItems, ItemsMeant, ProperItems;
    var body := (if items == [] then blank else PrintItems(items)) + ("]" + rest);
    if items == [] {
      SpacesSkipped(blank, "]" + rest);
      NoSpace("]", rest);
      assert ("]" + rest)[1..] == rest;
      NoItemsMeant(depth + 1);
    } else if depth <= 64 {
      ItemsRead(items, rest, depth);
      ItemsStart(items, rest);
    }
    Opened(blank, items, body, rest, depth);
  }

  lemma NoItemsMeant(depth: nat)
    ensures ProperItems([]) && ItemsMeant([], depth) == Some([])
    ensures ProperMembers([]) && MembersMeant([], depth) == Some([])
  {
  }

  lemma {:induction false} Opened(blank: string, items: seq<Padded>, body: string, rest: string, depth: nat)
    requires Proper(List(blank, items))
    requires body == (if items == [] then blank else PrintItems(items)) + ("]" + rest)
    requires depth <= 64 ==> ReadArray(body, depth) == Outcome(Meaning(List(blank, items), depth), rest)
    ensures ReadsAs(List(blank, items), rest, depth)
  {
    hide ReadArray, PrintItems, ItemsMeant, ProperItems, Spaces;
    var s := Print(List(blank, items)) + rest;
    assert s == "[" + body;
    NoSpace("[", body);
    assert s[1..] == body;
  }

  /** The first item starts with something that is no bracket. */
  lemma {:induction false} ItemsStart(items: seq<Padded>, rest: string)
    requires items != [] && ProperItems(items)
    ensures var t := SkipSpace(PrintItems(items) + ("]" + rest)); t != "" && t[0] != ']'
  {
    hide SkipSpace, Print, Proper;
    var x := items[0];
    DocStart(x.doc);
    var tail := x.after + (if |items| == 1 then "" else "," + PrintItems(items[1..])) + ("]" + rest);
    assert PrintItems(items) + ("]" + rest) == x.before + (Print(x.doc) + tail);
    SpacesSkipped(x.before, Print(x.doc) + tail);
    NoSpace(Print(x.doc), tail);
  }

  lemma {:induction false} ElementsAfterSpace(s: string, depth: nat)
    ensures ReadElements(SkipSpace(s), depth) == ReadElements(s, depth)
  {
    hide ReadValue, SkipSpace;
    ValueAfterSpace(s, depth + 1);
  }

  lemma {:induction false} ItemsRead(items: seq<Padded>, rest: string, depth: nat)
    requires items != [] && ProperItems(items)
    ensures ReadElements(SkipSpace(PrintItems(items) + ("]" + rest)), depth) == Outcome(ItemsMeant(items, depth + 1), rest)
    decreases items, 1
  {
    hide *;
    var x, xs := items[0], items[1..];
    SplitItems(items, depth + 1);
    var next := if xs == [] then "]" + rest else "," + (PrintItems(xs) + ("]" + rest));
    assert x.doc < x;
    AfterEnds(x.after, next);
    DocReads(x.doc, x.after + next, depth + 1);
    ElementsAfterSpace(PrintItems(items) + ("]" + rest), depth);
    PrintedItems(items, next, rest);
    if xs != [] { ItemsRead(xs, rest, depth); }
    OneElement(x, xs, next, rest, depth);
  }

  lemma SplitItems(items: seq<Padded>, depth: nat)
    requires items != [] && ProperItems(items)
    ensures var x, xs := items[0], items[1..];
      Spaces(x.before) && Proper(x.doc) && Spaces(x.after) && ProperItems(xs) && items == [x] + xs
      && ItemsMeant(items, depth)
         == (if Meaning(x.doc, depth).None? || ItemsMeant(xs, depth).None? then None
             else Some([Meaning(x.doc, depth).value] + ItemsMeant(xs, depth).value))
      && (xs == [] ==> ItemsMeant(xs, depth) == Some([]))
  {
    hide Meaning, Proper, Spaces;
  }

  lemma PrintedItems(items: seq<Padded>, next: string, rest: string)
    requires items != []
    requires next == if items[1..] == [] then "]" + rest else "," + (PrintItems(items[1..]) + ("]" + rest))
    ensures PrintItems(items) + ("]" + rest) == items[0].before + (Print(items[0].doc) + (items[0].after + next))
  {
    hide Print;
  }

  lemma AfterEnds(after: string, next: string)
    requires Spaces(after) && next != "" && (next[0] == ',' || next[0] == ']' || next[0] == '}')
    ensures Ends(after + next)
  {
  }

  lemma {:induction false} OneElement(x: Padded, xs: seq<Padded>, next: string, rest: string, depth: nat)
    requires Spaces(x.before) && Proper(x.doc) && Spaces(x.after) && ProperItems(xs)
    requires next == if xs == [] then "]" + rest else "," + (PrintItems(xs) + ("]" + rest))
    requires ReadsAs(x.doc, x.after + next, depth + 1)
    requires xs != [] ==>
      ReadElements(SkipSpace(PrintItems(xs) + ("]" + rest)), depth) == Outcome(ItemsMeant(xs, depth + 1), rest)
    requires xs == [] ==> ItemsMeant(xs, depth + 1) == Some([])
    ensures ReadElements(x.before + (Print(x.doc) + (x.after + next)), depth)
         == Outcome(if Meaning(x.doc, depth + 1).None? || ItemsMeant(xs, depth + 1).None? then None
                    else Some([Meaning(x.doc, depth + 1).value] + ItemsMeant(xs, depth + 1).value), rest)
  {
    hide ReadValue, SkipSpace, Print, Meaning, ItemsMeant, PrintItems, Proper, ProperItems, Spaces;
    var s := Print(x.doc) + (x.after + next);
    SpacesSkipped(x.before, s);
    ValueAfterSpace(x.before + s, depth + 1);
    ValueAfterSpace(s, depth + 1);
    SpacesSkipped(x.after, next);
    if xs == [] {
      NoSpace("]", rest);
      assert next[1..] == rest;
      var v := Meaning(x.doc, depth + 1);
      if v.Some? { assert [v.value] + [] == [v.value]; }
    } else {
      var more := PrintItems(xs) + ("]" + rest);
      NoSpace(",", more);
      assert next[1..] == more;
    }
  }

  lemma {:induction false} ObjectReads(blank: string, members: seq<Field>, rest: string, depth: nat)
    requires Spaces(blank) && ProperMembers(members)
    ensures ReadsAs(Object(blank, members), rest, depth)
    decreases members, 3
  {
    hide ReadMembers, PrintMembers, MembersMeant, ProperMembers, DifferentKeys;
    var body := (if members == [] then blank else PrintMembers(members)) + ("}" + rest);
    if members == [] {
      SpacesSkipped(blank, "}" + rest);
      NoSpace("}", rest);
      assert ("}" + rest)[1..] == rest;
      NoItemsMeant(depth + 1);
      assert DifferentKeys([]) by { NoKeys(); }
    } else if depth <= 64 {
      MembersReadAs(members, [], rest, depth);
      FieldsStart(members, rest);
      FreshOfNone(members, depth + 1);
    }
    OpenedObject(blank, members, body, rest, depth);
  }

  lemma NoKeys()
    ensures DifferentKeys([])
  {
  }

  lemma FreshOfNone(members: seq<Field>, depth: nat)
    requires ProperMembers(members)
    ensures MembersMeant(members, depth).Some? ==>
      (FreshKeys(MembersMeant(members, depth).value, []) <==> DifferentKeys(MembersMeant(members, depth).value))
  {
    hide MembersMeant, ProperMembers;
  }

  lemma {:induction false} OpenedObject(blank: string, members: seq<Field>, body: string, rest: string, depth: nat)
    requires Proper(Object(blank, members))
    requires body == (if members == [] then blank else PrintMembers(members)) + ("}" + rest)
    requires depth <= 64 ==> ReadObject(body, depth) == Outcome(Meaning(Object(blank, members), depth), rest)
    ensures ReadsAs(Object(blank, members), rest, depth)
  {
    hide ReadObject, PrintMembers, MembersMeant, ProperMembers, Spaces, DifferentKeys;
    var s := Print(Object(blank, members)) + rest;
    assert s == "{" + body;
    NoSpace("{", body);
    assert s[1..] == body;
  }

  /** Members begin with white space and a quotation mark. */
  lemma {:induction false} QuoteFirst(members: seq<Field>) returns (tail: string)
    requires members != []
    ensures PrintMembers(members) == members[0].before + ("\"" + tail)
  {
    hide Print, AllWritten, PrintMembers;
    var m, more := members[0], if |members| == 1 then "" else "," + PrintMembers(members[1..]);
    FirstField(members);
    tail := AllWritten(m.name) + "\"" + m.gap + ":" + m.val.before + Print(m.val.doc) + m.val.after + more;
    BeforeQuote(m.before, AllWritten(m.name), m.gap, m.val.before, Print(m.val.doc), m.val.after, more);
  }

  lemma FirstField(members: seq<Field>)
    requires members != []
    ensures var m := members[0];
      PrintMembers(members)
      == m.before + ("\"" + AllWritten(m.name) + "\"") + m.gap + ":" + m.val.before + Print(m.val.doc) + m.val.after
         + if |members| == 1 then "" else "," + PrintMembers(members[1..])
  {
    hide Print, AllWritten;
  }

  lemma BeforeQuote(before: string, name: string, gap: string, b: string, val: string, after: string, more: string)
    ensures before + ("\"" + name + "\"") + gap + ":" + b + val + after + more
         == before + ("\"" + (name + "\"" + gap + ":" + b + val + after + more))
  {
  }

  lemma {:induction false} FieldsStart(members: seq<Field>, rest: string)
    requires members != [] && ProperMembers(members)
    ensures var t := SkipSpace(PrintMembers(members) + ("}" + rest)); t != "" && t[0] == '"'
  {
    hide SkipSpace, Print, PrintMembers, Proper, AllWritten;
    var before := members[0].before;
    var tail := QuoteFirst(members);
    var more := tail + ("}" + rest);
    assert before + ("\"" + tail) + ("}" + rest) == before + ("\"" + more);
    SpacesSkipped(before, "\"" + more);
    NoSpace("\"", more);
  }

  lemma {:induction false} MembersAfterSpace(s: string, depth: nat, seen: seq<Value>)
    ensures ReadMembers(SkipSpace(s), depth, seen) == ReadMembers(s, depth, seen)
  {
    hide ReadValue, SkipSpace, ReadString, KeyValue;
    SkipTwice(s);
  }

  /** A member up to its colon. */
  lemma {:induction false} FieldKey(m: Field, tail: string)
    requires Spaces(m.before) && AllWellFormed(m.name) && Spaces(m.gap)
    ensures ReadKey(m.before + ("\"" + (AllWritten(m.name) + ("\"" + (m.gap + (":" + tail))))))
         == Outcome(KeyValue(AllMeant(m.name)), tail)
  {
    hide SkipSpace, ReadString, KeyValue, AllWritten, AllMeant, AllWellFormed, Spaces;
    var u := m.gap + (":" + tail);
    var t := AllWritten(m.name) + ("\"" + u);
    SpacesSkipped(m.before, "\"" + t);
    NoSpace("\"", t);
    assert ("\"" + t)[1..] == t;
    StringRead(m.name, u);
    SpacesSkipped(m.gap, ":" + tail);
    NoSpace(":", tail);
    assert (":" + tail)[1..] == tail;
  }

  lemma {:induction false} MembersReadAs(members: seq<Field>, seen: seq<Value>, rest: string, depth: nat)
    requires members != [] && ProperMembers(members)
    ensures var es := MembersMeant(members, depth + 1);
      ReadMembers(SkipSpace(PrintMembers(members) + ("}" + rest)), depth, seen)
      == Outcome(if es.Some? && FreshKeys(es.value, seen) then es else None, rest)
    decreases members, 1
  {
    hide *;
    var m, ms := members[0], members[1..];
    SplitFields(members, depth + 1);
    var next := if ms == [] then "}" + rest else "," + (PrintMembers(ms) + ("}" + rest));
    assert m.val < m && m.val.doc < m.val;
    AfterEnds(m.val.after, next);
    DocReads(m.val.doc, m.val.after + next, depth + 1);
    MembersAfterSpace(PrintMembers(members) + ("}" + rest), depth, seen);
    PrintedFields(members, next, rest);
    FieldKey(m, m.val.before + (Print(m.val.doc) + (m.val.after + next)));
    var k := KeyValue(AllMeant(m.name));
    if k.Some? && ms != [] {
      MembersReadAs(ms, seen + [k.value], rest, depth);
    }
    if k.Some? {
      OneMember(m, ms, k.value, seen, next, rest, depth);
    } else {
      NoMember(m.before + ("\"" + (AllWritten(m.name) + ("\"" + (m.gap + (":" + (m.val.before + (Print(m.val.doc) + (m.val.after + next)))))))), depth, seen);
      OutcomeNone<seq<Entry>>(rest);
      OutcomeNone<Value>(m.val.before + (Print(m.val.doc) + (m.val.after + next)));
      NothingMeant(Meaning(m.val.doc, depth + 1), MembersMeant(ms, depth + 1));
    }
  }

  lemma OutcomeNone<T>(rest: string)
    ensures Outcome<T>(None, rest) == None
  {
  }

  lemma NoMember(s: string, depth: nat, seen: seq<Value>)
    ensures ReadKey(s).None? ==> ReadMembers(s, depth, seen) == None
  {
    hide ReadKey;
  }

  lemma SplitFields(members: seq<Field>, depth: nat)
    requires members != [] && ProperMembers(members)
    ensures var m, ms := members[0], members[1..];
      Spaces(m.before) && AllWellFormed(m.name) && Spaces(m.gap) && Spaces(m.val.before) && Proper(m.val.doc)
      && Spaces(m.val.after) && ProperMembers(ms) && members == [m] + ms
      && MembersMeant(members, depth)
         == MemberMeant(KeyValue(AllMeant(m.name)), Meaning(m.val.doc, depth), MembersMeant(ms, depth))
      && (ms == [] ==> MembersMeant(ms, depth) == Some([]))
  {
    hide Meaning, Proper, Spaces, KeyValue, AllMeant, AllWellFormed;
  }

  ghost function MemberMeant(k: Option<Value>, v: Option<Value>, es: Option<seq<Entry>>): Option<seq<Entry>>
  {
    if k.None? || v.None? || es.None? then None else Some([Entry(k.value, v.value)] + es.value)
  }

  lemma NothingMeant(v: Option<Value>, es: Option<seq<Entry>>)
    ensures MemberMeant(None, v, es) == None
  {
  }

  lemma PrintMembersStep(members: seq<Field>)
    requires members != []
    ensures var m := members[0];
      PrintMembers(members)
      == m.before + ("\"" + AllWritten(m.name) + "\"") + m.gap + ":" + m.val.before + Print(m.val.doc) + m.val.after
         + if |members| == 1 then "" else "," + PrintMembers(members[1..])
  {
    hide Print, AllWritten;
  }

  lemma PrintedFields(members: seq<Field>, next: string, rest: string)
    requires members != []
    requires next == if members[1..] == [] then "}" + rest else "," + (PrintMembers(members[1..]) + ("}" + rest))
    ensures var m := members[0];
      PrintMembers(members) + ("}" + rest)
      == m.before + ("\"" + (AllWritten(m.name) + ("\"" + (m.gap + (":" + (m.val.before + (Print(m.val.doc) + (m.val.after + next))))))))
  {
    hide *;
    PrintMembersStep(members);
    var m := members[0];
    var tail := if members[1..] == [] then "" else "," + PrintMembers(members[1..]);
    FieldText(m.before, AllWritten(m.name), m.gap, m.val.before, Print(m.val.doc), m.val.after, tail, "}" + rest);
    assert tail + ("}" + rest) == next by {
      if members[1..] != [] { Comma(PrintMembers(members[1..]), "}" + rest); }
    }
  }

  lemma Comma(a: string, b: string)
    ensures "," + a + b == "," + (a + b)
  {
  }

  lemma FieldText(a: string, n: string, g: string, b: string, d: string, c: string, tail: string, rest: string)
    ensures a + ("\"" + n + "\"") + g + ":" + b + d + c + tail + rest
         == a + ("\"" + (n + ("\"" + (g + (":" + (b + (d + (c + (tail + rest)))))))))
  {
  }

  lemma {:induction false} OneMember(m: Field, ms: seq<Field>, key: Value, seen: seq<Value>, next: string, rest: string, depth: nat)
    requires AllWellFormed(m.name) && Spaces(m.val.before) && Proper(m.val.doc) && Spaces(m.val.after) && ProperMembers(ms)
    requires KeyValue(AllMeant(m.name)) == Some(key)
    requires next == if ms == [] then "}" + rest else "," + (PrintMembers(ms) + ("}" + rest))
    requires ReadsAs(m.val.doc, m.val.after + next, depth + 1)
    requires var tail := m.val.before + (Print(m.val.doc) + (m.val.after + next));
      ReadKey(m.before + ("\"" + (AllWritten(m.name) + ("\"" + (m.gap + (":" + tail))))))
      == Outcome(Some(key), tail)
    requires var more := MembersMeant(ms, depth + 1);
      ms != [] ==>
        ReadMembers(SkipSpace(PrintMembers(ms) + ("}" + rest)), depth, seen + [key])
        == Outcome(if more.Some? && FreshKeys(more.value, seen + [key]) then more else None, rest)
    requires ms == [] ==> MembersMeant(ms, depth + 1) == Some([])
    ensures var tail := m.val.before + (Print(m.val.doc) + (m.val.after + next));
      var es := MemberMeant(Some(key), Meaning(m.val.doc, depth + 1), MembersMeant(ms, depth + 1));
      ReadMembers(m.before + ("\"" + (AllWritten(m.name) + ("\"" + (m.gap + (":" + tail))))), depth, seen)
      == Outcome(if es.Some? && FreshKeys(es.value, seen) then es else None, rest)
  {
    hide ReadValue, ReadKey, SkipSpace, Print, Meaning, MembersMeant, PrintMembers, Proper, ProperMembers, Spaces, KeyValue,
         AllMeant, AllWritten, FreshKeys, AllWellFormed;
    var s := Print(m.val.doc) + (m.val.after + next);
    var tail := m.val.before + s;
    SpacesSkipped(m.val.before, s);
    ValueAfterSpace(tail, depth + 1);
    ValueAfterSpace(s, depth + 1);
    SpacesSkipped(m.val.after, next);
    var v, es := Meaning(m.val.doc, depth + 1), MembersMeant(ms, depth + 1);
    if v.Some? && es.Some? { FreshStep(Entry(key, v.value), es.value, seen); }
    if ms == [] {
      NoSpace("}", rest);
      assert next[1..] == rest;
      NothingFresh(seen + [key]);
      if v.Some? { assert [Entry(key, v.value)] + [] == [Entry(key, v.value)]; }
    } else {
      var more := PrintMembers(ms) + ("}" + rest);
      NoSpace(",", more);
      assert next[1..] == more;
      MembersAfterSpace(more, depth, seen + [key]);
    }
  }

  lemma NothingFresh(seen: seq<Value>)
    ensures FreshKeys([], seen)
  {
  }

  /** Every JSON text, with any white space around it and between its tokens and
      any spelling of its strings, is parsed as what it means, or refused if that
      is nothing. */
  lemma {:induction false} TextParsed(before: string, d: Doc, after: string)
    requires Spaces(before) && Proper(d) && Spaces(after)
    ensures FromJson(before + Print(d) + after) == Meaning(d, 0)
  {
    hide ReadValue, Print, Meaning, SkipSpace, Proper, Spaces;
    var s := Print(d) + after;
    assert before + Print(d) + after == before + s;
    SpacesSkipped(before, s);
    ValueAfterSpace(before + s, 0);
    ValueAfterSpace(s, 0);
    SpacesEnd(after);
    DocReads(d, after, 0);
    SpacesSkipped(after, "");
    assert after + "" == after;
    NothingToSkip();
  }

  lemma SpacesEnd(after: string)
    requires Spaces(after)
    ensures Ends(after)
  {
  }

  lemma NothingToSkip()
    ensures SkipSpace("") == ""
  {
  }

  // ------------------------------------------------------------------
  // Nothing else is accepted
  // ------------------------------------------------------------------

  /** The text that was read. */
  lemma {:induction false} TextRead(s: string, depth: nat) returns (before: string, d: Doc)
    requires ReadValue(s, depth).Some?
    ensures Spaces(before) && Proper(d)
    ensures s == before + (Print(d) + ReadValue(s, depth).value.rest)
    decreases |s|, 1
  {
    hide ReadObject, ReadArray, ReadString, ReadNumber, SkipSpace, StringValue, Spaces;
    before := SkippedSpaces(s);
    var t := SkipSpace(s);
    var rest := ReadValue(s, depth).value.rest;
    assert t == [t[0]] + t[1..];
    if t[0] == '{' {
      d := ObjectText(t[1..], depth);
      assert t == Print(d) + rest;
    } else if t[0] == '[' {
      d := ArrayText(t[1..], depth);
      assert t == Print(d) + rest;
    } else if t[0] == '"' {
      var pieces := StringSpelt(t[1..]);
      d := Str(pieces);
      assert t == Print(d) + rest;
    } else if t[0] == '-' || IsDigit(t[0]) {
      var negative, digits := NumberSpelt(t);
      d := Number(negative, digits);
      assert t == Print(d) + rest;
    } else {
      d := Literal(ReadValue(s, depth).value.value);
      assert t == Print(d) + rest by { LiteralText(t); }
    }
  }

  lemma LiteralText(t: string)
    ensures StartsWith(t, "true") ==> t == "true" + t[4..]
    ensures StartsWith(t, "false") ==> t == "false" + t[5..]
    ensures StartsWith(t, "null") ==> t == "null" + t[4..]
  {
  }

  lemma {:induction false} ArrayText(s: string, depth: nat) returns (d: Doc)
    requires ReadArray(s, depth).Some?
    ensures Proper(d) && "[" + s == Print(d) + ReadArray(s, depth).value.rest
    decreases |s|, 3
  {
    hide ReadElements, SkipSpace, Spaces, PrintItems, ProperItems;
    var blank := SkippedSpaces(s);
    var t := SkipSpace(s);
    if t != "" && t[0] == ']' {
      d := List(blank, []);
      NoItemsMeant(0);
      assert t == "]" + t[1..];
      assert "[" + s == Print(d) + ReadArray(s, depth).value.rest;
    } else {
      var items := ElementsText(t, blank, depth);
      d := List("", items);
      NoSpaces();
      assert "[" + s == "[" + (PrintItems(items) + ("]" + ReadArray(s, depth).value.rest));
    }
  }

  lemma NoSpaces()
    ensures Spaces("")
  {
  }

  /** The items that were read, the first one after `blank`. */
  lemma {:induction false} ElementsText(s: string, blank: string, depth: nat) returns (items: seq<Padded>)
    requires ReadElements(s, depth).Some? && Spaces(blank)
    ensures items != [] && ProperItems(items)
    ensures blank + s == PrintItems(items) + ("]" + ReadElements(s, depth).value.rest)
    decreases |s|, 2
  {
    hide ReadValue, SkipSpace, Spaces, Print, Proper;
    var v := ReadValue(s, depth + 1).value;
    var before, doc := TextRead(s, depth + 1);
    var after := SkippedSpaces(v.rest);
    var t := SkipSpace(v.rest);
    var x := Padded(blank + before, doc, after);
    JoinedSpaces(blank, before);
    assert t == [t[0]] + t[1..];
    if t[0] == ',' {
      var gap := SkippedSpaces(t[1..]);
      var more := ElementsText(SkipSpace(t[1..]), gap, depth);
      items := [x] + more;
      assert items[1..] == more;
      FirstOfMany(blank, before, Print(doc), after, PrintItems(more), "]" + ReadElements(s, depth).value.rest);
    } else {
      items := [x];
      assert items[1..] == [];
      FirstOfOne(blank, before, Print(doc), after, t);
    }
  }

  lemma JoinedSpaces(a: string, b: string)
    requires Spaces(a) && Spaces(b)
    ensures Spaces(a + b)
  {
  }

  lemma FirstOfMany(blank: string, before: string, doc: string, after: string, more: string, rest: string)
    ensures blank + (before + (doc + (after + ("," + (more + rest))))) == blank + before + doc + after + ("," + more) + rest
  {
  }

  lemma FirstOfOne(blank: string, before: string, doc: string, after: string, t: string)
    ensures blank + (before + (doc + (after + t))) == blank + before + doc + after + "" + t
  {
  }

  lemma {:induction false} ObjectText(s: string, depth: nat) returns (d: Doc)
    requires ReadObject(s, depth).Some?
    ensures Proper(d) && "{" + s == Print(d) + ReadObject(s, depth).value.rest
    decreases |s|, 3
  {
    hide ReadMembers, SkipSpace, Spaces, PrintMembers, ProperMembers;
    var blank := SkippedSpaces(s);
    var t := SkipSpace(s);
    if t != "" && t[0] == '}' {
      d := Object(blank, []);
      NoItemsMeant(0);
      assert t == "}" + t[1..];
      assert "{" + s == Print(d) + ReadObject(s, depth).value.rest;
    } else {
      var members := MembersText(t, blank, depth, []);
      d := Object("", members);
      NoSpaces();
      assert "{" + s == "{" + (PrintMembers(members) + ("}" + ReadObject(s, depth).value.rest));
    }
  }

  lemma {:induction false} KeyText(s: string) returns (before: string, name: seq<Piece>, gap: string)
    requires ReadKey(s).Some?
    ensures Spaces(before) && AllWellFormed(name) && Spaces(gap)
    ensures s == before + ("\"" + AllWritten(name) + "\"") + gap + ":" + ReadKey(s).value.rest
  {
    hide SkipSpace, ReadString, KeyValue, Spaces, AllWellFormed, AllWritten;
    before := SkippedSpaces(s);
    var t := SkipSpace(s);
    name := StringSpelt(t[1..]);
    var raw := ReadString(t[1..]).value;
    gap := SkippedSpaces(raw.rest);
    var u := SkipSpace(raw.rest);
    assert t == "\"" + t[1..] && u == ":" + u[1..];
    KeySpelt(before, AllWritten(name), gap, u[1..]);
  }

  lemma KeySpelt(before: string, name: string, gap: string, rest: string)
    ensures before + ("\"" + (name + ("\"" + (gap + (":" + rest))))) == before + ("\"" + name + "\"") + gap + ":" + rest
  {
  }

  lemma {:induction false} MembersText(s: string, blank: string, depth: nat, seen: seq<Value>) returns (members: seq<Field>)
    requires ReadMembers(s, depth, seen).Some? && Spaces(blank)
    ensures members != [] && ProperMembers(members)
    ensures blank + s == PrintMembers(members) + ("}" + ReadMembers(s, depth, seen).value.rest)
    decreases |s|, 2
  {
    hide ReadValue, ReadKey, SkipSpace, Spaces, Print, Proper, AllWellFormed, AllWritten;
    var k := ReadKey(s).value;
    var front, name, gap := KeyText(s);
    var before, doc := TextRead(k.rest, depth + 1);
    var v := ReadValue(k.rest, depth + 1).value;
    var after := SkippedSpaces(v.rest);
    var t := SkipSpace(v.rest);
    var m := Field(blank + front, name, gap, Padded(before, doc, after));
    JoinedSpaces(blank, front);
    assert t == [t[0]] + t[1..];
    if t[0] == ',' {
      NoSpaces();
      var more := MembersText(t[1..], "", depth, seen + [k.value]);
      members := [m] + more;
      assert members[1..] == more;
      MemberSpelt(blank, front, AllWritten(name), gap, before, Print(doc), after, "," + PrintMembers(more),
                  "}" + ReadMembers(s, depth, seen).value.rest);
      Comma(PrintMembers(more), "}" + ReadMembers(s, depth, seen).value.rest);
      assert "" + t[1..] == t[1..];
    } else {
      members := [m];
      assert members[1..] == [];
      MemberSpelt(blank, front, AllWritten(name), gap, before, Print(doc), after, "", t);
    }
  }

  lemma MemberSpelt(blank: string, front: string, name: string, gap: string, before: string, doc: string, after: string,
                    tail: string, rest: string)
    ensures blank + (front + ("\"" + name + "\"") + gap + ":" + (before + (doc + (after + (tail + rest)))))
         == blank + front + ("\"" + name + "\"") + gap + ":" + before + doc + after + tail + rest
    ensures "" + rest == rest
  {
  }

  /** The parser accepts nothing but JSON texts that mean something, each as what
      it means. */
  lemma {:induction false} OnlyTextsAccepted(s: string) returns (before: string, d: Doc, after: string)
    requires FromJson(s).Some?
    ensures Spaces(before) && Proper(d) && Spaces(after) && s == before + Print(d) + after
    ensures Meaning(d, 0) == FromJson(s)
  {
    hide ReadValue, SkipSpace, Spaces, Print, Proper, Meaning;
    before, d := TextRead(s, 0);
    var rest := ReadValue(s, 0).value.rest;
    after := SkippedSpaces(rest);
    assert after + "" == after;
    assert s == before + Print(d) + after;
    TextParsed(before, d, after);
  }

  // ------------------------------------------------------------------
  // Marks
  // ------------------------------------------------------------------

  /** Two lower-case hexadecimal digits for one octet. */
  predicate OctetSpelt(x: char, y: char, b: byte)
  {
    ('0' <= x <= '9' || 'a' <= x <= 'f') && ('0' <= y <= '9' || 'a' <= y <= 'f')
    && b == 16 * Nibble(x).value + Nibble(y).value
  }

  ghost predicate OctetsSpelt(d: string, b: seq<byte>)
  {
    |d| == 2 * |b| && forall i, j :: 0 <= i < |b| && j == 2 * i ==> OctetSpelt(d[j], d[j + 1], b[i])
  }

  lemma {:induction false} HexSpelt(d: string, b: seq<byte>)
    ensures DecodeHex(d) == Some(b) <==> OctetsSpelt(d, b)
    decreases |d|
  {
    if |d| >= 2 {
      hide DecodeHex, OctetsSpelt, OctetSpelt;
      HexSpelt(d[2..], if b == [] then [] else b[1..]);
      SpeltStep(d, b);
      DecodedStep(d, b);
    }
  }

  lemma SpeltStep(d: string, b: seq<byte>)
    requires |d| >= 2
    ensures OctetsSpelt(d, b) <==> b != [] && OctetSpelt(d[0], d[1], b[0]) && OctetsSpelt(d[2..], b[1..])
  {
    hide OctetSpelt;
    if b != [] {
      var t, c := d[2..], b[1..];
      if OctetSpelt(d[0], d[1], b[0]) && OctetsSpelt(t, c) {
        forall i, j | 0 <= i < |b| && j == 2 * i
          ensures OctetSpelt(d[j], d[j + 1], b[i])
        {
          if i > 0 { assert OctetSpelt(t[j - 2], t[j - 1], c[i - 1]); }
        }
      }
      if OctetsSpelt(d, b) {
        assert OctetSpelt(d[0], d[0 + 1], b[0]);
        forall i, j | 0 <= i < |c| && j == 2 * i
          ensures OctetSpelt(t[j], t[j + 1], c[i])
        {
          assert OctetSpelt(d[j + 2], d[j + 2 + 1], b[i + 1]);
        }
      }
    }
  }

  lemma DecodedStep(d: string, b: seq<byte>)
    requires |d| >= 2
    ensures DecodeHex(d) == Some(b) <==> b != [] && OctetSpelt(d[0], d[1], b[0]) && DecodeHex(d[2..]) == Some(b[1..])
  {
    if b != [] { assert b == [b[0]] + b[1..]; }
    if DecodeHex(d).Some? { assert DecodeHex(d).value[1..] == DecodeHex(d[2..]).value; }
  }

  /** In value position a string stands for octets if it is marked `hex:`, and
      otherwise for itself, without the mark `txt:`. */
  lemma {:induction false} StringMeans(s: string, b: Vec<byte>, t: Str)
    ensures StringValue("hex:" + s) == Some(Value.Bytes(b)) <==> OctetsSpelt(s, b)
    ensures StringValue("hex:" + s) != Some(Text(t))
    ensures StringValue("txt:" + t) == Some(Text(t))
    ensures t[..if |t| < 4 then |t| else 4] != "hex:" && t[..if |t| < 4 then |t| else 4] != "txt:" ==>
      StringValue(t) == Some(Text(t))
  {
    hide DecodeHex, OctetsSpelt, Utf8.Encode;
    HexSpelt(s, b);
    var marked := "hex:" + s;
    assert marked[..4] == "hex:" && marked[4..] == s;
    assert ("txt:" + t)[..4] == "txt:" && ("txt:" + t)[4..] == t;
  }

  /** In key position a string spells an integer if it is written as a number, and
      stands for what it does elsewhere if not. */
  lemma {:induction false} KeyMeans(negative: bool, d: string, s: string)
    requires Digits(d)
    ensures !negative && Denary(d) <= 0xffff_ffff_ffff_ffff ==> KeyValue(d) == Some(Uint(Denary(d)))
    ensures negative && 1 <= Denary(d) <= 0x1_0000_0000_0000_0000 ==> KeyValue("-" + d) == Some(Nint(Denary(d) - 1))
    ensures (forall e: string :: Digits(e) ==> s != e && s != "-" + e) ==> KeyValue(s) == StringValue(s)
  {
    hide Denary, DecimalValue, StringValue;
    DenaryIs(d);
    forall i | 0 <= i < |d| ensures IsDigit(d[i]) { }
    PositiveUnlessZero(d);
    assert d[0] != '-' && d[..1] == [d[0]];
    assert ("-" + d)[1..] == d && ("-" + d)[..1] == "-";
    if IntKey(s).Some? {
      var digits := if StartsWith(s, "-") then s[1..] else s;
      forall i | 0 <= i < |digits| ensures '0' <= digits[i] <= '9' { assert IsDigit(digits[i]); }
      assert Digits(digits);
      if StartsWith(s, "-") { assert s == "-" + digits; }
    }
  }
}
