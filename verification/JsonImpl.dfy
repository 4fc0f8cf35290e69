/** The JSON renderer and parser as they run: one appends to a string, the
    other takes characters off an iterator. */
module JsonImpl {
  import opened Wrappers
  import opened Bytes
  import opened Codec
  import opened Json
  import opened JsonProofs

  // ------------------------------------------------------------------
  // Renderer
  // ------------------------------------------------------------------

  class TextBuffer {
    var text: string

    constructor ()
      ensures text == ""
    {
      text := "";
    }

    method Push(s: string)
      modifies this
      ensures text == old(text) + s
    {
      text := text + s;
    }
  }

  method PushEscaped(out: TextBuffer, s: string)
    modifies out
    ensures out.text == old(out.text) + Escaped(s)
  {
    hide EscapeChar;
    ghost var done := "";
    assert s[0..] == s;
    for i := 0 to |s|
      invariant out.text == old(out.text) + done
      invariant Escaped(s) == done + Escaped(s[i..])
    {
      assert s[i..][1..] == s[i + 1..];
      out.Push(EscapeChar(s[i]));
      done := done + EscapeChar(s[i]);
    }
    assert s[|s|..] == "";
  }

  method PushQuoted(out: TextBuffer, s: string)
    modifies out
    ensures out.text == old(out.text) + Quoted(s)
  {
    out.Push("\"");
    PushEscaped(out, s);
    out.Push("\"");
  }

  method ValueToJson(v: Value, debug: Value -> string, out: TextBuffer)
    modifies out
    ensures out.text == old(out.text) + ToJson(v, debug)
    decreases v, 1
  {
    hide Escaped, Decimal, HexLower, TextString, Elements, Members;
    match v
    case Uint(n) => out.Push(Decimal(n));
    case Nint(n) => out.Push(NintDecimal(n));
    case Bytes(b) => PushQuoted(out, "hex:" + HexLower(b));
    case Text(s) => PushQuoted(out, TextString(s));
    case Array(items) =>
      out.Push("[");
      ElementsToJson(items, debug, out);
      out.Push("]");
    case Map(entries) =>
      out.Push("{");
      MembersToJson(entries, debug, out);
      out.Push("}");
    case Bool(f) => out.Push(if f then "true" else "false");
    case Null => out.Push("null");
  }

  /** What is still to be written after `i` items: a comma first, unless none
      has been written. */
  ghost function ElementsFrom(items: seq<Value>, i: nat, debug: Value -> string): string
    requires i <= |items|
  {
    if i == |items| then "" else (if i > 0 then "," else "") + Elements(items[i..], debug)
  }

  lemma {:induction false} ElementsTurn(items: seq<Value>, i: nat, debug: Value -> string)
    requires i < |items|
    ensures ElementsFrom(items, i, debug)
         == (if i > 0 then "," else "") + ToJson(items[i], debug) + ElementsFrom(items, i + 1, debug)
  {
    hide ToJson;
    assert items[i..][1..] == items[i + 1..];
  }

  lemma {:induction false} ElementsWhole(items: seq<Value>, debug: Value -> string)
    ensures ElementsFrom(items, 0, debug) == Elements(items, debug)
  {
    assert items[0..] == items;
  }

  method ElementsToJson(items: seq<Value>, debug: Value -> string, out: TextBuffer)
    modifies out
    ensures out.text == old(out.text) + Elements(items, debug)
    decreases items, 0
  {
    hide ToJson, Elements, ElementsFrom;
    ElementsWhole(items, debug);
    ghost var done := "";
    for i := 0 to |items|
      invariant out.text == old(out.text) + done
      invariant Elements(items, debug) == done + ElementsFrom(items, i, debug)
    {
      ElementsTurn(items, i, debug);
      if i > 0 { out.Push(","); }
      ValueToJson(items[i], debug, out);
      done := done + (if i > 0 then "," else "") + ToJson(items[i], debug);
    }
    ElementsDone(items, debug);
  }

  lemma ElementsDone(items: seq<Value>, debug: Value -> string)
    ensures ElementsFrom(items, |items|, debug) == ""
  {
  }

  ghost function MembersFrom(entries: seq<Entry>, i: nat, debug: Value -> string): string
    requires i <= |entries|
  {
    if i == |entries| then "" else (if i > 0 then "," else "") + Members(entries[i..], debug)
  }

  lemma {:induction false} MembersTurn(entries: seq<Entry>, i: nat, debug: Value -> string)
    requires i < |entries|
    ensures MembersFrom(entries, i, debug)
         == (if i > 0 then "," else "") + Member(entries[i], debug) + MembersFrom(entries, i + 1, debug)
  {
    hide Member;
    assert entries[i..][1..] == entries[i + 1..];
  }

  lemma {:induction false} MembersWhole(entries: seq<Entry>, debug: Value -> string)
    ensures MembersFrom(entries, 0, debug) == Members(entries, debug)
    ensures MembersFrom(entries, |entries|, debug) == ""
  {
    assert entries[0..] == entries;
  }

  method MembersToJson(entries: seq<Entry>, debug: Value -> string, out: TextBuffer)
    modifies out
    ensures out.text == old(out.text) + Members(entries, debug)
    decreases entries, 0
  {
    hide ToJson, Members, MembersFrom, Quoted, KeyString;
    MembersWhole(entries, debug);
    ghost var done := "";
    for i := 0 to |entries|
      invariant out.text == old(out.text) + done
      invariant Members(entries, debug) == done + MembersFrom(entries, i, debug)
    {
      MembersTurn(entries, i, debug);
      assert entries[i].key < entries[i] && entries[i].val < entries[i];
      if i > 0 { out.Push(","); }
      PushQuoted(out, KeyString(entries[i].key, debug));
      out.Push(":");
      ValueToJson(entries[i].val, debug, out);
      done := done + (if i > 0 then "," else "") + Member(entries[i], debug);
    }
  }

  // ------------------------------------------------------------------
  // Parser
  // ------------------------------------------------------------------

  /** What a parser method returned and left, against what should be read. */
  ghost predicate Agrees<T>(r: Option<T>, rest: string, spec: Option<Read<T>>)
  {
    (r.Some? <==> spec.Some?) && (spec.Some? ==> r.value == spec.value.value && rest == spec.value.rest)
  }

  class Parser {
    /** The characters not taken yet. */
    var rest: string

    constructor (s: string)
      ensures rest == s
    {
      rest := s;
    }

    method Peek() returns (c: Option<char>)
      ensures c == if rest == "" then None else Some(rest[0])
    {
      c := if rest == "" then None else Some(rest[0]);
    }

    method Next() returns (c: Option<char>)
      modifies this
      ensures c == if old(rest) == "" then None else Some(old(rest)[0])
      ensures rest == if old(rest) == "" then "" else old(rest)[1..]
    {
      if rest == "" { return None; }
      c := Some(rest[0]);
      rest := rest[1..];
    }

    method SkipWhitespace()
      modifies this
      ensures rest == SkipSpace(old(rest))
    {
      while rest != "" && IsSpace(rest[0])
        invariant SkipSpace(rest) == SkipSpace(old(rest))
        decreases |rest|
      {
        rest := rest[1..];
      }
    }

    method Expect(c: char) returns (ok: bool)
      modifies this
      ensures ok <==> old(rest) != "" && old(rest)[0] == c
      ensures ok ==> rest == old(rest)[1..]
      ensures |rest| <= |old(rest)|
    {
      var x := Next();
      ok := x == Some(c);
    }

    method TakeHex4() returns (r: Option<nat>)
      modifies this
      ensures Agrees(r, rest, ReadHex4(old(rest)))
      ensures |rest| <= |old(rest)|
    {
      hide HexDigitAnyCase, ReadHex4, HexFrom;
      var v: nat := 0;
      ghost var s := rest;
      HexWhole(s);
      for i := 0 to 4
        invariant i <= |s| && rest == s[i..]
        invariant ReadHex4(s) == HexFrom(v, s[i..], 4 - i)
        modifies this
      {
        HexTurn(v, s[i..], 4 - i);
        var c := Next();
        if c.None? { return None; }
        var d := HexDigitAnyCase(c.value);
        if d.None? { return None; }
        v := v * 16 + d.value;
      }
      HexEnds(v, s[4..]);
      r := Some(v);
    }

    /** One escape, after its backslash. */
    method TakeEscape() returns (r: Option<char>)
      modifies this
      ensures Agrees(r, rest, ReadEscape(old(rest)))
      ensures |rest| <= |old(rest)|
    {
      hide ReadUnicode;
      var esc := Next();
      if esc.None? { return None; }
      match esc.value
      case '"' => r := Some('"');
      case '\\' => r := Some('\\');
      case '/' => r := Some('/');
      case 'b' => r := Some(0x08 as char);
      case 'f' => r := Some(0x0c as char);
      case 'n' => r := Some('\n');
      case 'r' => r := Some('\r');
      case 't' => r := Some('\t');
      case 'u' => r := TakeUnicode();
      case _ => r := None;
    }

    method TakeUnicode() returns (r: Option<char>)
      modifies this
      ensures Agrees(r, rest, ReadUnicode(old(rest)))
      ensures |rest| <= |old(rest)|
    {
      hide ReadHex4;
      var high := TakeHex4();
      if high.None? { return None; }
      if 0xD800 <= high.value <= 0xDBFF {
        ghost var s := rest;
        var a := Next();
        if a != Some('\\') { return None; }
        var b := Next();
        if b != Some('u') { return None; }
        assert s[..2] == "\\u" && rest == s[2..];
        var low := TakeHex4();
        if low.None? || !(0xDC00 <= low.value <= 0xDFFF) { return None; }
        r := Some((0x1_0000 + (high.value - 0xD800) * 0x400 + (low.value - 0xDC00)) as char);
      } else if 0xDC00 <= high.value <= 0xDFFF {
        r := None;
      } else {
        r := Some(high.value as char);
      }
    }

    /** `parse_string_raw`. */
    method TakeString() returns (r: Option<string>)
      modifies this
      ensures Agrees(r, rest, ReadString(old(rest)))
      ensures |rest| <= |old(rest)|
    {
      hide ReadEscape;
      var s := "";
      NoCharsYet(ReadString(rest));
      while true
        invariant AfterChars(s, ReadString(rest)) == ReadString(old(rest))
        invariant |rest| <= |old(rest)|
        decreases |rest|
      {
        CharTurn(s, rest);
        var c := Next();
        if c.None? { return None; }
        if c.value == '"' {
          return Some(s);
        } else if c.value == '\\' {
          var e := TakeEscape();
          if e.None? { return None; }
          s := s + [e.value];
        } else if (c.value as int) < 0x20 {
          return None;
        } else {
          s := s + [c.value];
        }
      }
    }

    method TakeLiteral(lit: string, v: Value) returns (r: Option<Value>)
      requires lit != ""
      modifies this
      ensures Agrees(r, rest, ReadLiteral(old(rest), lit, v))
      ensures |rest| <= |old(rest)|
    {
      ghost var s := rest;
      for i := 0 to |lit|
        invariant i <= |s| && rest == s[i..] && s[..i] == lit[..i]
        modifies this
      {
        var c := Next();
        if c != Some(lit[i]) { return None; }
      }
      assert lit[..|lit|] == lit;
      r := Some(v);
    }

    method TakeDigits() returns (digits: string)
      modifies this
      ensures old(rest) == digits + rest && AllDigits(digits)
      ensures DigitCount(old(rest)) == |digits|
    {
      digits := "";
      while rest != "" && IsDigit(rest[0])
        invariant old(rest) == digits + rest && AllDigits(digits)
        decreases |rest|
      {
        ghost var before := rest;
        digits := digits + [rest[0]];
        rest := rest[1..];
        assert before == [before[0]] + rest;
      }
      DigitRun(digits, rest);
    }

    method TakeNumber() returns (r: Option<Value>)
      modifies this
      ensures Agrees(r, rest, ReadNumber(old(rest)))
      ensures |rest| <= |old(rest)|
    {
      hide DecimalValue, ReadNumber, DigitCount, AllDigits;
      ghost var s := rest;
      var negative := false;
      if rest != "" && rest[0] == '-' {
        negative := true;
        rest := rest[1..];
      }
      MinusSign(s);
      ghost var t := rest;
      var digits := TakeDigits();
      NumberOf(s, t, digits, rest, negative);
      if digits == "" { return None; }
      if rest != "" && (rest[0] == '.' || rest[0] == 'e' || rest[0] == 'E') { return None; }
      if |digits| > 1 && digits[0] == '0' { return None; }
      if negative && digits == "0" { return None; }
      var m := DecimalValue(digits);
      if negative {
        PositiveUnlessZero(digits);
        if m > I64_MAX + 1 { return None; }
        r := Some(Nint(m - 1));
      } else {
        if m >= U64_SIZE { return None; }
        r := Some(Uint(m));
      }
    }

    method TakeValue(depth: nat) returns (r: Option<Value>)
      modifies this
      ensures Agrees(r, rest, ReadValue(old(rest), depth))
      ensures |rest| <= |old(rest)|
      decreases |rest|, 1
    {
      hide SkipSpace, ReadArray, ReadObject, ReadString, StringValue, ReadNumber, ReadLiteral;
      if depth > MAX_DEPTH { return None; }
      ghost var start := rest;
      SkipWhitespace();
      assert |rest| <= |start|;
      var c := Peek();
      if c.None? { return None; }
      if c.value == '{' {
        var _ := Next();
        r := TakeObject(depth);
      } else if c.value == '[' {
        var _ := Next();
        r := TakeArray(depth);
      } else if c.value == '"' {
        var _ := Next();
        var raw := TakeString();
        if raw.None? { return None; }
        r := StringValue(raw.value);
      } else if c.value == '-' || IsDigit(c.value) {
        r := TakeNumber();
      } else if c.value == 't' {
        r := TakeLiteral("true", Bool(true));
      } else if c.value == 'f' {
        r := TakeLiteral("false", Bool(false));
      } else if c.value == 'n' {
        r := TakeLiteral("null", Null);
      } else {
        r := None;
      }
    }

    /** `parse_array`, after its `[`. */
    method TakeArray(depth: nat) returns (r: Option<Value>)
      modifies this
      ensures Agrees(r, rest, ReadArray(old(rest), depth))
      ensures |rest| <= |old(rest)|
      decreases |rest|, 2
    {
      hide SkipSpace, ReadElements, ReadValue;
      ghost var start := rest;
      SkipWhitespace();
      assert |rest| <= |start|;
      var c := Peek();
      if c == Some(']') {
        var _ := Next();
        return Some(Array([]));
      }
      var items: seq<Value> := [];
      ghost var whole := ReadElements(rest, depth);
      NothingTaken(whole);
      while true
        invariant whole == AfterElements(items, ReadElements(rest, depth))
        invariant |rest| <= |start|
        decreases |rest|
      {
        ElementTurn(items, rest, depth);
        var v := TakeValue(depth + 1);
        if v.None? { return None; }
        items := items + [v.value];
        SkipWhitespace();
        var sep := Next();
        if sep == Some(',') {
          SkipWhitespace();
        } else if sep == Some(']') {
          break;
        } else {
          return None;
        }
      }
      if |items| >= U64_SIZE { return None; }
      r := Some(Array(items));
    }

    /** `parse_object`, after its `{`; the duplicate check comes after the value
        is parsed. */
    method TakeObject(depth: nat) returns (r: Option<Value>)
      modifies this
      ensures Agrees(r, rest, ReadObject(old(rest), depth))
      ensures |rest| <= |old(rest)|
      decreases |rest|, 2
    {
      hide SkipSpace, ReadMembers, ReadValue, ReadKey;
      ghost var start := rest;
      SkipWhitespace();
      assert |rest| <= |start|;
      var c := Peek();
      if c == Some('}') {
        var _ := Next();
        return Some(Map([]));
      }
      var entries: seq<Entry> := [];
      ghost var whole := ReadMembers(rest, depth, []);
      NoMembersTaken(whole);
      while true
        invariant whole == AfterMembers(entries, ReadMembers(rest, depth, Keys(entries)))
        invariant |rest| <= |start|
        decreases |rest|
      {
        MemberTurn(entries, rest, depth);
        var key := TakeKey();
        if key.None? { return None; }
        var v := TakeValue(depth + 1);
        if v.None? { return None; }
        var known := exists i :: 0 <= i < |entries| && entries[i].key == key.value;
        KnownKey(entries, key.value);
        if known { return None; }
        entries := entries + [Entry(key.value, v.value)];
        SkipWhitespace();
        var sep := Next();
        if sep == Some(',') {
        } else if sep == Some('}') {
          break;
        } else {
          return None;
        }
      }
      if |entries| >= U64_SIZE { return None; }
      r := Some(Map(entries));
    }

    method TakeKey() returns (r: Option<Value>)
      modifies this
      ensures Agrees(r, rest, ReadKey(old(rest)))
      ensures |rest| <= |old(rest)|
    {
      hide SkipSpace, ReadString, KeyValue;
      ghost var start := rest;
      SkipWhitespace();
      assert |rest| <= |start|;
      var open := Expect('"');
      if !open { return None; }
      var raw := TakeString();
      if raw.None? { return None; }
      r := KeyValue(raw.value);
      if r.None? { return None; }
      SkipWhitespace();
      var colon := Expect(':');
      if !colon { return None; }
    }
  }

  /** `from_json`: what it accepts reads back from its own JSON form. */
  method ParseJson(s: string, ghost debug: Value -> string) returns (r: Option<Value>)
    ensures r == FromJson(s)
    ensures r.Some? ==> FromJson(ToJson(r.value, debug)) == r
  {
    hide ReadValue, ToJson;
    if FromJson(s).Some? { AcceptedRoundTrips(s, debug); }
    var parser := new Parser(s);
    var v := parser.TakeValue(0);
    if v.None? { return None; }
    parser.SkipWhitespace();
    var c := parser.Peek();
    if c.Some? { return None; }
    r := v;
  }

  /** `to_json`. */
  method RenderJson(v: Value, debug: Value -> string) returns (s: string)
    ensures s == ToJson(v, debug)
  {
    var out := new TextBuffer();
    ValueToJson(v, debug, out);
    s := out.text;
  }

  // ------------------------------------------------------------------
  // One turn of each loop
  // ------------------------------------------------------------------

  ghost function HexFrom(v: nat, s: string, n: nat): Option<Read<nat>>
    decreases n
  {
    if n == 0 then Some(Read(v, s))
    else if s == "" || HexDigitAnyCase(s[0]).None? then None
    else HexFrom(v * 16 + HexDigitAnyCase(s[0]).value, s[1..], n - 1)
  }

  lemma HexTurn(v: nat, s: string, n: nat)
    requires n > 0
    ensures HexFrom(v, s, n)
         == if s == "" || HexDigitAnyCase(s[0]).None? then None
            else HexFrom(v * 16 + HexDigitAnyCase(s[0]).value, s[1..], n - 1)
  {
    hide HexDigitAnyCase;
  }

  lemma {:induction false} HexWhole(s: string)
    ensures s[0..] == s && ReadHex4(s) == HexFrom(0, s, 4)
  {
    hide HexDigitAnyCase, HexFrom;
    if |s| >= 1 {
      HexTurn(0, s, 4);
      var a := HexDigitAnyCase(s[0]);
      if a.Some? {
        HexRest(s[1..], a.value);
      }
    } else {
      HexTurn(0, s, 4);
    }
  }

  lemma {:induction false} HexRest(t: string, a: nat)
    ensures HexFrom(a, t, 3)
         == if |t| < 3 then None
            else
              var b, c, d := HexDigitAnyCase(t[0]), HexDigitAnyCase(t[1]), HexDigitAnyCase(t[2]);
              if b.None? || c.None? || d.None? then None
              else Some(Read(((a * 16 + b.value) * 16 + c.value) * 16 + d.value, t[3..]))
  {
    hide HexDigitAnyCase;
    if |t| >= 2 { assert t[1..][0] == t[1] && t[1..][1..] == t[2..]; }
    if |t| >= 3 { assert t[2..][0] == t[2] && t[2..][1..] == t[3..]; }
  }

  lemma HexEnds(v: nat, s: string)
    ensures HexFrom(v, s, 0) == Some(Read(v, s))
  {
  }

  ghost function AfterChars(done: string, r: Option<Read<string>>): Option<Read<string>>
  {
    if r.None? then None else Some(Read(done + r.value.value, r.value.rest))
  }

  lemma NoCharsYet(r: Option<Read<string>>)
    ensures AfterChars("", r) == r
  {
    if r.Some? { assert "" + r.value.value == r.value.value; }
  }

  lemma {:induction false} CharTurn(done: string, s: string)
    ensures AfterChars(done, ReadString(s))
         == if s == "" then None
            else if s[0] == '"' then Some(Read(done, s[1..]))
            else if s[0] == '\\' then
              var e := ReadEscape(s[1..]);
              if e.None? then None else AfterChars(done + [e.value.value], ReadString(e.value.rest))
            else if (s[0] as int) < 0x20 then None
            else AfterChars(done + [s[0]], ReadString(s[1..]))
  {
    hide ReadEscape;
    assert done + "" == done;
    if s != "" && s[0] == '\\' {
      var e := ReadEscape(s[1..]);
      if e.Some? && ReadString(e.value.rest).Some? {
        var t := ReadString(e.value.rest).value.value;
        assert done + ([e.value.value] + t) == done + [e.value.value] + t;
      }
    } else if s != "" && ReadString(s[1..]).Some? {
      var t := ReadString(s[1..]).value.value;
      assert done + ([s[0]] + t) == done + [s[0]] + t;
    }
  }

  lemma MinusSign(s: string)
    ensures StartsWith(s, "-") <==> s != "" && s[0] == '-'
  {
    if s != "" { assert s[..1] == [s[0]]; }
  }

  /** What `ReadNumber` says once its parts are known. */
  lemma {:induction false} NumberOf(s: string, t: string, digits: string, rest: string, negative: bool)
    requires negative == StartsWith(s, "-") && t == (if negative then s[1..] else s)
    requires t == digits + rest && AllDigits(digits) && DigitCount(t) == |digits|
    ensures ReadNumber(s)
         == if digits == "" then None
            else if rest != "" && (rest[0] == '.' || rest[0] == 'e' || rest[0] == 'E') then None
            else if |digits| > 1 && digits[0] == '0' then None
            else if negative && digits == "0" then None
            else
              var m := DecimalValue(digits);
              (PositiveUnlessZero(digits);
               if negative then (if m > I64_MAX + 1 then None else Some(Read(Nint(m - 1), rest)))
               else if m >= U64_SIZE then None
               else Some(Read(Uint(m), rest)))
  {
    hide DigitCount, DecimalValue;
    assert t[..|digits|] == digits && t[|digits|..] == rest;
  }

  ghost function AfterElements(done: seq<Value>, r: Option<Read<seq<Value>>>): Option<Read<seq<Value>>>
  {
    if r.None? then None else Some(Read(done + r.value.value, r.value.rest))
  }

  lemma NothingTaken(r: Option<Read<seq<Value>>>)
    ensures AfterElements([], r) == r
  {
    if r.Some? { assert [] + r.value.value == r.value.value; }
  }

  lemma {:induction false} ElementTurn(done: seq<Value>, s: string, depth: nat)
    ensures AfterElements(done, ReadElements(s, depth))
         == var v := ReadValue(s, depth + 1);
            if v.None? then None
            else
              var t := SkipSpace(v.value.rest);
              if t == "" then None
              else if t[0] == ',' then
                AfterElements(done + [v.value.value], ReadElements(SkipSpace(t[1..]), depth))
              else if t[0] == ']' then Some(Read(done + [v.value.value], t[1..]))
              else None
  {
    hide ReadValue, SkipSpace;
    var v := ReadValue(s, depth + 1);
    if v.Some? {
      var t := SkipSpace(v.value.rest);
      if t != "" && t[0] == ',' {
        var more := ReadElements(SkipSpace(t[1..]), depth);
        if more.Some? {
          assert done + ([v.value.value] + more.value.value) == done + [v.value.value] + more.value.value;
        }
      }
    }
  }

  function Keys(entries: seq<Entry>): (r: seq<Value>)
    ensures |r| == |entries| && forall i :: 0 <= i < |entries| ==> r[i] == entries[i].key
  {
    if entries == [] then [] else [entries[0].key] + Keys(entries[1..])
  }

  lemma {:induction false} KnownKey(entries: seq<Entry>, k: Value)
    ensures (exists i :: 0 <= i < |entries| && entries[i].key == k) <==> k in Keys(entries)
    ensures forall v :: Keys(entries + [Entry(k, v)]) == Keys(entries) + [k]
  {
    if i :| 0 <= i < |entries| && entries[i].key == k { assert Keys(entries)[i] == k; }
    if k in Keys(entries) {
      var i :| 0 <= i < |entries| && Keys(entries)[i] == k;
      assert entries[i].key == k;
    }
  }

  ghost function AfterMembers(done: seq<Entry>, r: Option<Read<seq<Entry>>>): Option<Read<seq<Entry>>>
  {
    if r.None? then None else Some(Read(done + r.value.value, r.value.rest))
  }

  lemma NoMembersTaken(r: Option<Read<seq<Entry>>>)
    ensures AfterMembers([], r) == r && Keys([]) == []
  {
    if r.Some? { assert [] + r.value.value == r.value.value; }
  }

  lemma {:induction false} MemberTurn(done: seq<Entry>, s: string, depth: nat)
    ensures AfterMembers(done, ReadMembers(s, depth, Keys(done)))
         == var k := ReadKey(s);
            if k.None? then None
            else
              var v := ReadValue(k.value.rest, depth + 1);
              if v.None? || k.value.value in Keys(done) then None
              else
                var e := Entry(k.value.value, v.value.value);
                var t := SkipSpace(v.value.rest);
                if t == "" then None
                else if t[0] == ',' then AfterMembers(done + [e], ReadMembers(t[1..], depth, Keys(done) + [e.key]))
                else if t[0] == '}' then Some(Read(done + [e], t[1..]))
                else None
  {
    hide ReadValue, SkipSpace, ReadKey, Keys;
    var k := ReadKey(s);
    if k.Some? {
      var v := ReadValue(k.value.rest, depth + 1);
      if v.Some? {
        var e := Entry(k.value.value, v.value.value);
        var t := SkipSpace(v.value.rest);
        if t != "" && t[0] == ',' {
          var more := ReadMembers(t[1..], depth, Keys(done) + [e.key]);
          if more.Some? {
            assert done + ([e] + more.value.value) == done + [e] + more.value.value;
          }
        }
      }
    }
  }
}
