/** What the renderer writes, as concrete syntax: no white space, the shortest
    escapes, marks only where they are needed. */
module JsonWire {
  import opened Wrappers
  import opened Bytes
  import opened Codec
  import opened Json
  import opened Rfc8259
  import JsonProofs
  import Utf8

  // ------------------------------------------------------------------
  // Strings
  // ------------------------------------------------------------------

  predicate LowerDigit(c: char) { '0' <= c <= '9' || 'a' <= c <= 'f' }

  /** A character as itself where that is allowed; else by its letter; else, for
      the control characters that have none, by four lower-case digits. */
  predicate Shortest(p: Piece)
  {
    match p
    case Plain(_) => true
    case Short(e) => e != '/'
    case Hex(d) =>
      && FourDigits(d) && CodeUnit(d) < 0x20 && (forall i :: 0 <= i < 4 ==> LowerDigit(d[i]))
      && CodeUnit(d) != 0x08 && CodeUnit(d) != 0x09 && CodeUnit(d) != 0x0a && CodeUnit(d) != 0x0c && CodeUnit(d) != 0x0d
    case Pair(_, _) => false
  }

  /** The shortest spelling of a string. */
  predicate Spells(pieces: seq<Piece>, s: string)
  {
    AllWellFormed(pieces) && AllMeant(pieces) == s && forall i :: 0 <= i < |pieces| ==> Shortest(pieces[i])
  }

  lemma {:induction false} OneChar(c: char) returns (p: Piece)
    ensures WellFormed(p) && Shortest(p) && Meant(p) == c && Rfc8259.Written(p) == EscapeChar(c)
  {
    if c == '"' { p := Short('"'); }
    else if c == '\\' { p := Short('\\'); }
    else if c == '\n' { p := Short('n'); }
    else if c == '\r' { p := Short('r'); }
    else if c == '\t' { p := Short('t'); }
    else if c as int == 0x08 { p := Short('b'); }
    else if c as int == 0x0c { p := Short('f'); }
    else if (c as int) < 0x20 {
      var d := ['0', '0', LowerHex(c as int / 16), LowerHex(c as int % 16)];
      HexOfControl(c as int);
      p := Hex(d);
      assert Rfc8259.Written(p) == EscapeChar(c);
    } else { p := Plain(c); }
  }

  lemma HexOfControl(n: nat)
    requires n < 0x20
    ensures var d := ['0', '0', LowerHex(n / 16), LowerHex(n % 16)];
      FourDigits(d) && CodeUnit(d) == n && forall i :: 0 <= i < 4 ==> LowerDigit(d[i])
  {
    var d := ['0', '0', LowerHex(n / 16), LowerHex(n % 16)];
    assert Nibble(d[0]) == Some(0) && Nibble(d[1]) == Some(0);
    assert Nibble(d[2]) == Some(n / 16) && Nibble(d[3]) == Some(n % 16);
  }

  lemma {:induction false} StringSpelled(s: string) returns (pieces: seq<Piece>)
    ensures Spells(pieces, s) && Quoted(s) == "\"" + AllWritten(pieces) + "\"" && AllWritten(pieces) == Escaped(s)
  {
    hide EscapeChar, WellFormed, Shortest, Meant, Rfc8259.Written;
    if s == "" {
      pieces := [];
    } else {
      var rest := StringSpelled(s[1..]);
      var p := OneChar(s[0]);
      pieces := [p] + rest;
      assert pieces[1..] == rest;
      assert s == [s[0]] + s[1..];
    }
  }

  // ------------------------------------------------------------------
  // Values
  // ------------------------------------------------------------------

  predicate Spelled(digits: string, n: nat) { Digits(digits) && Denary(digits) == n }

  lemma {:induction false} DecimalSpelled(n: nat)
    ensures Spelled(Decimal(n), n)
  {
    hide Decimal, DecimalValue, Denary;
    JsonProofs.DecimalFacts(n);
    forall i | 0 <= i < |Decimal(n)|
      ensures '0' <= Decimal(n)[i] <= '9'
    {
      assert IsDigit(Decimal(n)[i]);
    }
    DenaryIs(Decimal(n));
  }

  predicate Begins(s: string, mark: string) { |mark| <= |s| && s[..|mark|] == mark }

  /** A text as it is, behind `txt:` if it begins like a mark. */
  function Marked(s: string): string
  {
    if Begins(s, "hex:") || Begins(s, "txt:") then "txt:" + s else s
  }

  /** The decimal spelling of an integer that a value can be. */
  ghost predicate LooksLikeInteger(s: string)
  {
    || (Digits(s) && Denary(s) <= 0xffff_ffff_ffff_ffff)
    || (s != "" && s[0] == '-' && Digits(s[1..]) && 1 <= Denary(s[1..]) <= 0x1_0000_0000_0000_0000)
  }

  ghost predicate KeySpells(pieces: seq<Piece>, k: Value)
  {
    match k
    case Uint(n) => exists d :: Spelled(d, n) && Spells(pieces, d)
    case Nint(n) => exists d :: Spelled(d, n + 1) && Spells(pieces, "-" + d)
    case Bytes(b) => exists d :: OctetsSpelt(d, b) && Spells(pieces, "hex:" + d)
    case Text(s) => Spells(pieces, if LooksLikeInteger(s) then "txt:" + s else Marked(s))
    case _ => false
  }

  /** The text of a value. */
  ghost predicate Renders(d: Doc, v: Value)
    decreases v
  {
    match v
    case Uint(n) => d.Number? && !d.negative && Spelled(d.digits, n)
    case Nint(n) => d.Number? && d.negative && Spelled(d.digits, n + 1)
    case Bytes(b) => d.Str? && exists s :: OctetsSpelt(s, b) && Spells(d.pieces, "hex:" + s)
    case Text(s) => d.Str? && Spells(d.pieces, Marked(s))
    case Array(items) => d.List? && d.blank == "" && RendersItems(d.items, items)
    case Map(entries) => d.Object? && d.blank == "" && RendersMembers(d.members, entries)
    case _ => d == Literal(v)
  }

  ghost predicate RendersItems(ds: seq<Padded>, items: seq<Value>)
    decreases items
  {
    if items == [] then ds == []
    else ds != [] && ds[0].before == "" && ds[0].after == "" && Renders(ds[0].doc, items[0]) && RendersItems(ds[1..], items[1..])
  }

  ghost predicate RendersMembers(ds: seq<Field>, entries: seq<Entry>)
    decreases entries
  {
    if entries == [] then ds == []
    else
      assert entries[0].key < entries[0] && entries[0].val < entries[0];
      && ds != [] && ds[0].before == "" && ds[0].gap == "" && ds[0].val.before == "" && ds[0].val.after == ""
      && KeySpells(ds[0].name, entries[0].key) && Renders(ds[0].val.doc, entries[0].val)
      && RendersMembers(ds[1..], entries[1..])
  }

  /** Every key of every map in it is an integer, a byte string or a text. */
  predicate PlainKeys(v: Value)
    decreases v
  {
    match v
    case Array(items) => PlainKeysAll(items)
    case Map(entries) => PlainKeysEntries(entries)
    case _ => true
  }

  predicate PlainKeysAll(items: seq<Value>)
    decreases items
  {
    items == [] || (PlainKeys(items[0]) && PlainKeysAll(items[1..]))
  }

  predicate PlainKeysEntries(entries: seq<Entry>)
    decreases entries
  {
    entries == []
    || (assert entries[0].val < entries[0];
        KeyType(entries[0].key) && PlainKeys(entries[0].val) && PlainKeysEntries(entries[1..]))
  }

  lemma MarkedIs(s: string)
    ensures TextString(s) == Marked(s)
  {
  }

  lemma {:induction false} LooksExactly(s: string)
    ensures IntKey(s).Some? <==> LooksLikeInteger(s)
  {
    hide DecimalValue, Denary;
    var digits := if StartsWith(s, "-") then s[1..] else s;
    if AllDigits(digits) {
      DenaryIs(digits);
      forall i | 0 <= i < |digits| ensures '0' <= digits[i] <= '9' { assert IsDigit(digits[i]); }
      if digits != "" && (digits[0] == '0' ==> |digits| == 1) { PositiveUnlessZero(digits); }
    }
    if Digits(digits) {
      forall i | 0 <= i < |digits| ensures IsDigit(digits[i]) { }
    }
    if s != "" { assert s[..1] == [s[0]]; }
  }

  lemma {:induction false} HexSpelled(b: seq<byte>)
    ensures OctetsSpelt(HexLower(b), b)
  {
    hide HexLower, DecodeHex, OctetsSpelt;
    JsonProofs.HexRoundTrip(b);
    HexSpelt(HexLower(b), b);
  }

  lemma {:induction false} KeySpelled(k: Value, debug: Value -> string) returns (pieces: seq<Piece>)
    requires KeyType(k)
    ensures KeySpells(pieces, k) && Quoted(KeyString(k, debug)) == "\"" + AllWritten(pieces) + "\""
  {
    hide Spells, Spelled, OctetsSpelt, Quoted, AllWritten, HexLower, Decimal, IntKey, TextString, Marked, LooksLikeInteger;
    pieces := StringSpelled(KeyString(k, debug));
    match k
    case Uint(n) => DecimalSpelled(n);
    case Nint(n) => DecimalSpelled(n + 1);
    case Bytes(b) => HexSpelled(b);
    case Text(s) =>
      LooksExactly(s);
      MarkedIs(s);
  }

  /** What a value is rendered as, if its keys have a form in JSON at all. */
  lemma {:induction false} RenderedAs(v: Value, debug: Value -> string) returns (d: Doc)
    requires PlainKeys(v)
    ensures Renders(d, v) && ToJson(v, debug) == Print(d)
    decreases v
  {
    hide Spells, Spelled, OctetsSpelt, Quoted, AllWritten, HexLower, Decimal, TextString, Marked, Elements, Members,
         PrintItems, PrintMembers, RendersItems, RendersMembers, PlainKeysAll, PlainKeysEntries;
    match v
    case Uint(n) =>
      DecimalSpelled(n);
      d := Number(false, Decimal(n));
    case Nint(n) =>
      DecimalSpelled(n + 1);
      d := Number(true, Decimal(n + 1));
    case Bytes(b) =>
      HexSpelled(b);
      var p := StringSpelled("hex:" + HexLower(b));
      d := Str(p);
    case Text(s) =>
      MarkedIs(s);
      var p := StringSpelled(TextString(s));
      d := Str(p);
    case Array(items) =>
      var ds := ItemsRenderedAs(items, debug);
      d := List("", ds);
    case Map(entries) =>
      var ds := MembersRenderedAs(entries, debug);
      d := Object("", ds);
    case _ => d := Literal(v);
  }

  lemma {:induction false} ItemsRenderedAs(items: seq<Value>, debug: Value -> string) returns (ds: seq<Padded>)
    requires PlainKeysAll(items)
    ensures RendersItems(ds, items) && Elements(items, debug) == (if ds == [] then "" else PrintItems(ds))
    decreases items
  {
    hide ToJson, Print, Renders, PlainKeys;
    if items == [] {
      ds := [];
    } else {
      var d := RenderedAs(items[0], debug);
      var rest := ItemsRenderedAs(items[1..], debug);
      ds := [Padded("", d, "")] + rest;
      assert ds[1..] == rest;
      SameLength(rest, items[1..]);
      assert "" + Print(d) + "" == Print(d) && Print(d) + "" == Print(d);
    }
  }

  lemma SameLength(ds: seq<Padded>, items: seq<Value>)
    requires RendersItems(ds, items)
    ensures ds == [] <==> items == []
  {
    hide Renders;
  }

  lemma {:induction false} MembersRenderedAs(entries: seq<Entry>, debug: Value -> string) returns (ds: seq<Field>)
    requires PlainKeysEntries(entries)
    ensures RendersMembers(ds, entries) && Members(entries, debug) == (if ds == [] then "" else PrintMembers(ds))
    decreases entries
  {
    hide ToJson, Print, Renders, PlainKeys, KeySpells, Quoted, KeyString, AllWritten;
    if entries == [] {
      ds := [];
    } else {
      var e := entries[0];
      assert e.key < e && e.val < e;
      var name := KeySpelled(e.key, debug);
      var d := RenderedAs(e.val, debug);
      var rest := MembersRenderedAs(entries[1..], debug);
      ds := [Field("", name, "", Padded("", d, ""))] + rest;
      assert ds[1..] == rest;
      SameCount(rest, entries[1..]);
      OneMember("\"" + AllWritten(name) + "\"", Print(d));
    }
  }

  lemma SameCount(ds: seq<Field>, entries: seq<Entry>)
    requires RendersMembers(ds, entries)
    ensures ds == [] <==> entries == []
  {
    hide Renders, KeySpells;
  }

  lemma OneMember(name: string, val: string)
    ensures "" + name + "" + ":" + "" + val + "" == name + ":" + val
    ensures name + ":" + val + "" == name + ":" + val
  {
  }
}
