/** The JSON form of values (`codec.rs`): rendering, the strict parser, and the
    escapes that keep byte strings, texts and integer keys apart. */
module Json {
  import opened Wrappers
  import opened Bytes
  import opened Codec
  import Utf8

  // ------------------------------------------------------------------
  // Hexadecimal and decimal
  // ------------------------------------------------------------------

  function LowerHex(d: nat): char
    requires d < 16
  {
    if d < 10 then ('0' as int + d) as char else ('a' as int + d - 10) as char
  }

  function HexLower(b: seq<byte>): string
  {
    if b == [] then "" else [LowerHex(b[0] / 16), LowerHex(b[0] % 16)] + HexLower(b[1..])
  }

  /** A digit of a byte string: lower case only. */
  function HexDigit(c: char): (r: Option<nat>)
    ensures r.Some? ==> r.value < 16
  {
    if '0' <= c <= '9' then Some(c as int - '0' as int)
    else if 'a' <= c <= 'f' then Some(c as int - 'a' as int + 10)
    else None
  }

  function DecodeHex(s: string): Option<seq<byte>>
  {
    if s == "" then Some([])
    else if |s| == 1 then None
    else
      var hi :- HexDigit(s[0]);
      var lo :- HexDigit(s[1]);
      var t :- DecodeHex(s[2..]);
      Some([hi * 16 + lo] + t)
  }

  function Decimal(n: nat): (s: string)
    ensures s != ""
  {
    var last := ('0' as int + n % 10) as char;
    if n < 10 then [last] else Decimal(n / 10) + [last]
  }

  predicate IsDigit(c: char) { '0' <= c <= '9' }

  predicate AllDigits(s: string)
  {
    forall i :: 0 <= i < |s| ==> IsDigit(s[i])
  }

  function DecimalValue(s: string): nat
    requires AllDigits(s)
  {
    if s == "" then 0 else DecimalValue(s[..|s| - 1]) * 10 + (s[|s| - 1] as int - '0' as int)
  }

  /** Without a leading zero only "0" itself is zero. */
  lemma {:induction false} PositiveUnlessZero(s: string)
    requires s != "" && AllDigits(s) && (s[0] == '0' ==> |s| == 1)
    ensures DecimalValue(s) == 0 <==> s == "0"
  {
    assert IsDigit(s[|s| - 1]);
    if |s| > 1 {
      PositiveUnlessZero(s[..|s| - 1]);
      assert s[..|s| - 1][0] == s[0];
    } else {
      assert s == [s[0]] && s[..0] == "";
    }
  }

  predicate StartsWith(s: string, p: string) { |p| <= |s| && s[..|p|] == p }

  // ------------------------------------------------------------------
  // Rendering
  // ------------------------------------------------------------------

  function NintDecimal(n: u64): string { "-" + Decimal(n + 1) }

  /** Texts that would read as something else are marked with `txt:`. */
  function TextString(s: string): string
  {
    if StartsWith(s, "hex:") || StartsWith(s, "txt:") then "txt:" + s else s
  }

  /** An integer written exactly as a key would be: no leading zero, no `-0`,
      within the range of `Uint` and `Nint`. */
  function IntKey(s: string): Option<Value>
  {
    var negative := StartsWith(s, "-");
    var digits := if negative then s[1..] else s;
    if digits == "" || !AllDigits(digits) then None
    else if |digits| > 1 && digits[0] == '0' then None
    else if negative && digits == "0" then None
    else
      var m := DecimalValue(digits);
      PositiveUnlessZero(digits);
      if negative then (if m > U64_SIZE then None else Some(Nint(m - 1)))
      else if m >= U64_SIZE then None
      else Some(Uint(m))
  }

  predicate KeyType(k: Value) { k.Uint? || k.Nint? || k.Bytes? || k.Text? }

  /** The string of a map key; `debug` stands for the formatting of keys JSON
      has no form for. */
  function KeyString(k: Value, debug: Value -> string): string
  {
    match k
    case Uint(n) => Decimal(n)
    case Nint(n) => NintDecimal(n)
    case Bytes(b) => "hex:" + HexLower(b)
    case Text(s) => if IntKey(s).Some? then "txt:" + s else TextString(s)
    case _ => "unsupported-key:" + debug(k)
  }

  function EscapeChar(c: char): string
  {
    if c == '"' then "\\\""
    else if c == '\\' then "\\\\"
    else if c == '\n' then "\\n"
    else if c == '\r' then "\\r"
    else if c == '\t' then "\\t"
    else if c as int == 0x08 then "\\b"
    else if c as int == 0x0c then "\\f"
    else if (c as int) < 0x20 then ['\\', 'u', '0', '0', LowerHex(c as int / 16), LowerHex(c as int % 16)]
    else [c]
  }

  function Escaped(s: string): string
  {
    if s == "" then "" else EscapeChar(s[0]) + Escaped(s[1..])
  }

  function Quoted(s: string): string { "\"" + Escaped(s) + "\"" }

  function ToJson(v: Value, debug: Value -> string): string
    decreases v
  {
    match v
    case Uint(n) => Decimal(n)
    case Nint(n) => NintDecimal(n)
    case Bytes(b) => Quoted("hex:" + HexLower(b))
    case Text(s) => Quoted(TextString(s))
    case Array(items) => "[" + Elements(items, debug) + "]"
    case Map(entries) => "{" + Members(entries, debug) + "}"
    case Bool(f) => if f then "true" else "false"
    case Null => "null"
  }

  /** Comma-separated items. */
  function Elements(items: seq<Value>, debug: Value -> string): string
    decreases items
  {
    if items == [] then ""
    else if |items| == 1 then ToJson(items[0], debug)
    else ToJson(items[0], debug) + "," + Elements(items[1..], debug)
  }

  function Member(e: Entry, debug: Value -> string): string
    decreases e
  {
    Quoted(KeyString(e.key, debug)) + ":" + ToJson(e.val, debug)
  }

  function Members(entries: seq<Entry>, debug: Value -> string): string
    decreases entries
  {
    if entries == [] then ""
    else if |entries| == 1 then Member(entries[0], debug)
    else Member(entries[0], debug) + "," + Members(entries[1..], debug)
  }

  // ------------------------------------------------------------------
  // Parsing
  // ------------------------------------------------------------------

  /** Something read from the front of the input, and what follows it. */
  datatype Read<+T> = Read(value: T, rest: string)

  predicate IsSpace(c: char) { c == ' ' || c == '\t' || c == '\n' || c == '\r' }

  function SkipSpace(s: string): (r: string)
    ensures |r| <= |s|
  {
    if s != "" && IsSpace(s[0]) then SkipSpace(s[1..]) else s
  }

  /** A digit of a Unicode escape: either case. */
  function HexDigitAnyCase(c: char): (r: Option<nat>)
    ensures r.Some? ==> r.value < 16
  {
    if 'A' <= c <= 'F' then Some(c as int - 'A' as int + 10) else HexDigit(c)
  }

  function ReadHex4(s: string): (r: Option<Read<nat>>)
    ensures r.Some? ==> r.value.value < 0x1_0000 && |r.value.rest| + 4 == |s|
  {
    if |s| < 4 then None
    else
      var a :- HexDigitAnyCase(s[0]);
      var b :- HexDigitAnyCase(s[1]);
      var c :- HexDigitAnyCase(s[2]);
      var d :- HexDigitAnyCase(s[3]);
      Some(Read(((a * 16 + b) * 16 + c) * 16 + d, s[4..]))
  }

  /** The character of a Unicode escape, after its `\u`: a surrogate pair takes
      two of them, a lone surrogate is refused. */
  function ReadUnicode(s: string): (r: Option<Read<char>>)
    ensures r.Some? ==> |r.value.rest| < |s|
  {
    var h :- ReadHex4(s);
    if 0xD800 <= h.value <= 0xDBFF then
      if !StartsWith(h.rest, "\\u") then None
      else
        var l :- ReadHex4(h.rest[2..]);
        if !(0xDC00 <= l.value <= 0xDFFF) then None
        else Some(Read((0x1_0000 + (h.value - 0xD800) * 0x400 + (l.value - 0xDC00)) as char, l.rest))
    else if 0xDC00 <= h.value <= 0xDFFF then None
    else Some(Read(h.value as char, h.rest))
  }

  /** What a backslash introduces. */
  function ReadEscape(s: string): (r: Option<Read<char>>)
    ensures r.Some? ==> |r.value.rest| < |s|
  {
    if s == "" then None
    else
      match s[0]
      case '"' => Some(Read('"', s[1..]))
      case '\\' => Some(Read('\\', s[1..]))
      case '/' => Some(Read('/', s[1..]))
      case 'b' => Some(Read(0x08 as char, s[1..]))
      case 'f' => Some(Read(0x0c as char, s[1..]))
      case 'n' => Some(Read('\n', s[1..]))
      case 'r' => Some(Read('\r', s[1..]))
      case 't' => Some(Read('\t', s[1..]))
      case 'u' => ReadUnicode(s[1..])
      case _ => None
  }

  /** A string literal, after its opening quote. */
  function ReadString(s: string): (r: Option<Read<string>>)
    ensures r.Some? ==> |r.value.rest| < |s|
    decreases |s|
  {
    if s == "" then None
    else if s[0] == '"' then Some(Read("", s[1..]))
    else if s[0] == '\\' then
      var e :- ReadEscape(s[1..]);
      var t :- ReadString(e.rest);
      Some(Read([e.value] + t.value, t.rest))
    else if (s[0] as int) < 0x20 then None
    else
      var t :- ReadString(s[1..]);
      Some(Read([s[0]] + t.value, t.rest))
  }

  function DigitCount(s: string): (n: nat)
    ensures n <= |s| && AllDigits(s[..n]) && (n < |s| ==> !IsDigit(s[n]))
  {
    if s != "" && IsDigit(s[0]) then
      var n := 1 + DigitCount(s[1..]);
      assert s[..n] == [s[0]] + s[1..][..n - 1];
      n
    else 0
  }

  function ReadNumber(s: string): (r: Option<Read<Value>>)
    ensures r.Some? ==> |r.value.rest| < |s|
  {
    var negative := StartsWith(s, "-");
    var t := if negative then s[1..] else s;
    var n := DigitCount(t);
    var digits, rest := t[..n], t[n..];
    if n == 0 then None
    else if rest != "" && (rest[0] == '.' || rest[0] == 'e' || rest[0] == 'E') then None
    else if n > 1 && digits[0] == '0' then None
    else if negative && digits == "0" then None
    else
      var m := DecimalValue(digits);
      PositiveUnlessZero(digits);
      if negative then (if m > I64_MAX + 1 then None else Some(Read(Nint(m - 1), rest)))
      else if m >= U64_SIZE then None
      else Some(Read(Uint(m), rest))
  }

  /** A string in value position. Text or bytes longer than a vector can be do
      not exist; they are refused here. */
  function StringValue(raw: string): Option<Value>
  {
    if StartsWith(raw, "hex:") then
      var b :- DecodeHex(raw[4..]);
      if |b| < U64_SIZE then Some(Value.Bytes(b)) else None
    else
      var s := if StartsWith(raw, "txt:") then raw[4..] else raw;
      if |Utf8.Encode(s)| < U64_SIZE then Some(Text(s)) else None
  }

  function KeyValue(raw: string): Option<Value>
  {
    if IntKey(raw).Some? then IntKey(raw) else StringValue(raw)
  }

  function ReadLiteral(s: string, lit: string, v: Value): (r: Option<Read<Value>>)
    requires lit != ""
    ensures r.Some? ==> |r.value.rest| < |s|
  {
    if StartsWith(s, lit) then Some(Read(v, s[|lit|..])) else None
  }

  function ReadValue(s: string, depth: nat): (r: Option<Read<Value>>)
    ensures r.Some? ==> |r.value.rest| < |s|
    decreases |s|, 1
  {
    var t := SkipSpace(s);
    if depth > MAX_DEPTH || t == "" then None
    else if t[0] == '{' then ReadObject(t[1..], depth)
    else if t[0] == '[' then ReadArray(t[1..], depth)
    else if t[0] == '"' then
      var raw :- ReadString(t[1..]);
      var v :- StringValue(raw.value);
      Some(Read(v, raw.rest))
    else if t[0] == '-' || IsDigit(t[0]) then ReadNumber(t)
    else if t[0] == 't' then ReadLiteral(t, "true", Bool(true))
    else if t[0] == 'f' then ReadLiteral(t, "false", Bool(false))
    else if t[0] == 'n' then ReadLiteral(t, "null", Null)
    else None
  }

  /** An array, after its `[`. */
  function ReadArray(s: string, depth: nat): (r: Option<Read<Value>>)
    ensures r.Some? ==> |r.value.rest| < |s|
    decreases |s|, 3
  {
    var t := SkipSpace(s);
    if t != "" && t[0] == ']' then Some(Read(Array([]), t[1..]))
    else
      var items :- ReadElements(t, depth);
      if |items.value| < U64_SIZE then Some(Read(Array(items.value), items.rest)) else None
  }

  function ReadElements(s: string, depth: nat): (r: Option<Read<seq<Value>>>)
    ensures r.Some? ==> |r.value.rest| < |s| && r.value.value != []
    decreases |s|, 2
  {
    var v :- ReadValue(s, depth + 1);
    var t := SkipSpace(v.rest);
    if t == "" then None
    else if t[0] == ',' then
      var more :- ReadElements(SkipSpace(t[1..]), depth);
      Some(Read([v.value] + more.value, more.rest))
    else if t[0] == ']' then Some(Read([v.value], t[1..]))
    else None
  }

  /** An object, after its `{`. */
  function ReadObject(s: string, depth: nat): (r: Option<Read<Value>>)
    ensures r.Some? ==> |r.value.rest| < |s|
    decreases |s|, 3
  {
    var t := SkipSpace(s);
    if t != "" && t[0] == '}' then Some(Read(Map([]), t[1..]))
    else
      var entries :- ReadMembers(t, depth, []);
      if |entries.value| < U64_SIZE then Some(Read(Map(entries.value), entries.rest)) else None
  }

  /** A key, its colon and the space around it. */
  function ReadKey(s: string): (r: Option<Read<Value>>)
    ensures r.Some? ==> |r.value.rest| < |s|
  {
    var t := SkipSpace(s);
    if t == "" || t[0] != '"' then None
    else
      var raw :- ReadString(t[1..]);
      var key :- KeyValue(raw.value);
      var u := SkipSpace(raw.rest);
      if u == "" || u[0] != ':' then None else Some(Read(key, u[1..]))
  }

  /** Members whose keys are none of `seen` and all different. */
  function ReadMembers(s: string, depth: nat, seen: seq<Value>): (r: Option<Read<seq<Entry>>>)
    ensures r.Some? ==> |r.value.rest| < |s| && r.value.value != []
    decreases |s|, 2
  {
    var k :- ReadKey(s);
    var v :- ReadValue(k.rest, depth + 1);
    if k.value in seen then None
    else
      var t := SkipSpace(v.rest);
      if t == "" then None
      else if t[0] == ',' then
        var more :- ReadMembers(t[1..], depth, seen + [k.value]);
        Some(Read([Entry(k.value, v.value)] + more.value, more.rest))
      else if t[0] == '}' then Some(Read([Entry(k.value, v.value)], t[1..]))
      else None
  }

  function FromJson(s: string): Option<Value>
  {
    var v :- ReadValue(s, 0);
    if SkipSpace(v.rest) == "" then Some(v.value) else None
  }

  // ------------------------------------------------------------------
  // The values JSON can carry
  // ------------------------------------------------------------------

  predicate DifferentKeys(entries: seq<Entry>)
  {
    forall i, j :: 0 <= i < j < |entries| ==> entries[i].key != entries[j].key
  }

  /** Map keys are integers, byte strings or texts, all different; integers in
      value position are no lower than the least signed 64-bit integer. */
  predicate Jsonable(v: Value)
    decreases v
  {
    match v
    case Nint(n) => n <= I64_MAX
    case Array(items) => AllJsonable(items)
    case Map(entries) => EntriesJsonable(entries) && DifferentKeys(entries)
    case _ => true
  }

  predicate AllJsonable(items: seq<Value>)
    decreases items
  {
    items == [] || (Jsonable(items[0]) && AllJsonable(items[1..]))
  }

  predicate EntriesJsonable(entries: seq<Entry>)
    decreases entries
  {
    entries == []
    || (assert entries[0].val < entries[0];
        KeyType(entries[0].key) && Jsonable(entries[0].val) && EntriesJsonable(entries[1..]))
  }
}
