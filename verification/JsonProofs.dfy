/** The JSON form loses nothing it can carry, and carries nothing else: which values
    come back from their own text, and which texts are refused. */
module JsonProofs {
  import opened Wrappers
  import opened Bytes
  import opened Codec
  import opened Json
  import Utf8

  // ------------------------------------------------------------------
  // Digits
  // ------------------------------------------------------------------

  lemma HexDigitOf(d: nat)
    requires d < 16
    ensures HexDigit(LowerHex(d)) == Some(d) && HexDigitAnyCase(LowerHex(d)) == Some(d)
  {
  }

  lemma {:induction false} HexRoundTrip(b: seq<byte>)
    ensures DecodeHex(HexLower(b)) == Some(b)
  {
    hide HexDigit, LowerHex;
    if b != [] {
      HexRoundTrip(b[1..]);
      HexDigitOf(b[0] / 16);
      HexDigitOf(b[0] % 16);
      assert HexLower(b)[2..] == HexLower(b[1..]);
      assert b == [b[0]] + b[1..];
    }
  }

  lemma {:induction false} DecimalFacts(n: nat)
    ensures var d := Decimal(n);
      AllDigits(d) && DecimalValue(d) == n && (d[0] == '0' ==> n == 0) && (n == 0 ==> d == "0")
    ensures |Decimal(n)| > 1 ==> Decimal(n)[0] != '0'
  {
    var last := ('0' as int + n % 10) as char;
    if n >= 10 {
      DecimalFacts(n / 10);
      var d := Decimal(n);
      assert d[..|d| - 1] == Decimal(n / 10) && d[|d| - 1] == last;
    } else {
      assert Decimal(n)[..0] == "";
    }
  }

  lemma {:induction false} DigitRun(d: string, rest: string)
    requires AllDigits(d) && (rest == "" || !IsDigit(rest[0]))
    ensures DigitCount(d + rest) == |d| && (d + rest)[..|d|] == d && (d + rest)[|d|..] == rest
  {
    if d == "" {
      assert d + rest == rest;
    } else {
      DigitRun(d[1..], rest);
      assert (d + rest)[1..] == d[1..] + rest;
    }
  }

  /** What may follow a value: the end, a comma or a closing bracket. */
  predicate Stops(rest: string)
  {
    rest == "" || rest[0] == ',' || rest[0] == ']' || rest[0] == '}'
  }

  lemma {:induction false} NumberRead(n: u64, rest: string)
    requires Stops(rest)
    ensures ReadNumber(Decimal(n) + rest) == Some(Read(Uint(n), rest))
    ensures n <= I64_MAX ==> ReadNumber(NintDecimal(n) + rest) == Some(Read(Nint(n), rest))
  {
    hide *;
    DecimalFacts(n);
    DecimalFacts(n + 1);
    StopIsNoDigit(rest);
    DigitRun(Decimal(n), rest);
    UintRead(Decimal(n), n, rest);
    DigitRun(Decimal(n + 1), rest);
    if n <= I64_MAX { NintRead(Decimal(n + 1), n, rest); }
    IsNintDecimal(n);
  }

  lemma StopIsNoDigit(rest: string)
    requires Stops(rest)
    ensures rest == "" || !IsDigit(rest[0])
  {
  }

  lemma IsNintDecimal(n: u64)
    ensures NintDecimal(n) == "-" + Decimal(n + 1)
  {
  }

  lemma {:induction false} UintRead(d: string, n: u64, rest: string)
    requires Stops(rest) && d != "" && AllDigits(d) && DecimalValue(d) == n && (|d| > 1 ==> d[0] != '0')
    requires DigitCount(d + rest) == |d| && (d + rest)[..|d|] == d && (d + rest)[|d|..] == rest
    ensures ReadNumber(d + rest) == Some(Read(Uint(n), rest))
  {
    hide DecimalValue, DigitCount;
    assert IsDigit(d[0]);
    assert (d + rest)[..1] != "-";
  }

  lemma {:induction false} NintRead(e: string, n: u64, rest: string)
    requires Stops(rest) && e != "" && AllDigits(e) && DecimalValue(e) == n + 1 && n <= I64_MAX && (|e| > 1 ==> e[0] != '0')
    requires DigitCount(e + rest) == |e| && (e + rest)[..|e|] == e && (e + rest)[|e|..] == rest
    ensures ReadNumber("-" + e + rest) == Some(Read(Nint(n), rest))
  {
    hide DecimalValue, DigitCount;
    var s := "-" + e + rest;
    assert s[1..] == e + rest && s[..1] == "-";
    PositiveUnlessZero(e);
  }

  // ------------------------------------------------------------------
  // Strings
  // ------------------------------------------------------------------

  /** Each escape reads back as the character it stands for. */
  lemma {:induction false} EscapeRead(c: char, tail: string)
    requires |EscapeChar(c)| > 1
    ensures EscapeChar(c)[0] == '\\' && (EscapeChar(c) + tail)[0] == '\\'
    ensures ReadEscape((EscapeChar(c) + tail)[1..]) == Some(Read(c, tail))
  {
    var e := EscapeChar(c);
    assert (e + tail)[1..] == e[1..] + tail;
    if |e| == 2 {
      assert (e[1..] + tail)[1..] == tail;
      assert (e[1..] + tail)[0] == e[1];
    } else {
      ControlRead(c, tail);
    }
  }

  lemma {:induction false} ControlRead(c: char, tail: string)
    requires (c as int) < 0x20
    ensures ReadEscape(['u', '0', '0', LowerHex(c as int / 16), LowerHex(c as int % 16)] + tail) == Some(Read(c, tail))
  {
    hide LowerHex, HexDigit, HexDigitAnyCase;
    var hi, lo := LowerHex(c as int / 16), LowerHex(c as int % 16);
    var s := ['u', '0', '0', hi, lo] + tail;
    HexDigitOf(c as int / 16);
    HexDigitOf(c as int % 16);
    ZeroDigit();
    assert s[1..] == ['0', '0', hi, lo] + tail && s[1..][4..] == tail;
    assert ReadHex4(s[1..]) == Some(Read(c as int, tail));
  }

  lemma ZeroDigit()
    ensures HexDigitAnyCase('0') == Some(0)
  {
  }

  lemma {:induction false} StringStep(c: char, tail: string)
    ensures ReadString(EscapeChar(c) + tail)
         == var t := ReadString(tail); if t.None? then None else Some(Read([c] + t.value.value, t.value.rest))
  {
    var e := EscapeChar(c);
    if |e| > 1 {
      EscapeRead(c, tail);
    } else {
      assert e == [c] && (e + tail)[1..] == tail;
    }
  }

  lemma {:induction false} EscapedCons(c: char, t: string, tail: string)
    ensures Escaped([c] + t) + tail == EscapeChar(c) + (Escaped(t) + tail)
  {
    hide EscapeChar;
    assert ([c] + t)[1..] == t;
  }

  lemma {:induction false} StringEnds(rest: string)
    ensures ReadString(Escaped("") + ("\"" + rest)) == Some(Read("", rest))
  {
    assert Escaped("") + ("\"" + rest) == "\"" + rest;
    assert ("\"" + rest)[1..] == rest;
  }

  lemma {:induction false} EscapedRead(t: string, rest: string)
    ensures ReadString(Escaped(t) + ("\"" + rest)) == Some(Read(t, rest))
  {
    hide *;
    if t == "" {
      StringEnds(rest);
    } else {
      var c, u := t[0], t[1..];
      assert t == [c] + u;
      EscapedRead(u, rest);
      EscapedCons(c, u, "\"" + rest);
      StringStep(c, Escaped(u) + ("\"" + rest));
    }
  }

  /** A quoted string is read back and leaves what follows it. */
  lemma {:induction false} QuotedRead(t: string, rest: string)
    ensures var s := Quoted(t) + rest;
      s != "" && s[0] == '"' && ReadString(s[1..]) == Some(Read(t, rest))
  {
    hide ReadString, Escaped;
    EscapedRead(t, rest);
    assert (Quoted(t) + rest)[1..] == Escaped(t) + ("\"" + rest);
  }

  // ------------------------------------------------------------------
  // Marked strings and keys
  // ------------------------------------------------------------------

  lemma {:induction false} TextStringRead(s: Str)
    ensures StringValue(TextString(s)) == Some(Text(s))
  {
    MarkedTextRead(s);
  }

  lemma {:induction false} MarkedTextRead(s: Str)
    ensures StringValue("txt:" + s) == Some(Text(s)) && IntKey("txt:" + s) == None
  {
    hide Utf8.Encode, DecodeHex, DecimalValue;
    var r := "txt:" + s;
    assert r[..4] == "txt:" && r[4..] == s;
    assert r[0] == 't' && r[..1] == "t" && !IsDigit(r[0]);
  }

  lemma {:induction false} HexStringRead(b: Vec<byte>)
    ensures StringValue("hex:" + HexLower(b)) == Some(Bytes(b)) && IntKey("hex:" + HexLower(b)) == None
  {
    hide HexLower, DecodeHex, DecimalValue;
    HexRoundTrip(b);
    var r := "hex:" + HexLower(b);
    assert r[..4] == "hex:" && r[4..] == HexLower(b);
    assert r[0] == 'h' && r[..1] == "h" && !IsDigit(r[0]);
  }

  lemma {:induction false} UintKeyRead(d: string, n: u64)
    requires d != "" && AllDigits(d) && DecimalValue(d) == n && (|d| > 1 ==> d[0] != '0')
    ensures IntKey(d) == Some(Uint(n))
  {
    hide DecimalValue;
    assert IsDigit(d[0]);
    assert d[..1] != "-";
  }

  lemma {:induction false} NintKeyRead(e: string, n: u64)
    requires e != "" && AllDigits(e) && DecimalValue(e) == n + 1 && (|e| > 1 ==> e[0] != '0')
    ensures IntKey("-" + e) == Some(Nint(n))
  {
    hide DecimalValue;
    assert ("-" + e)[1..] == e && ("-" + e)[..1] == "-";
    PositiveUnlessZero(e);
  }

  lemma {:induction false} IntKeyRead(n: u64)
    ensures IntKey(Decimal(n)) == Some(Uint(n)) && IntKey(NintDecimal(n)) == Some(Nint(n))
  {
    DecimalFacts(n);
    DecimalFacts(n + 1);
    hide Decimal, DecimalValue, IntKey, AllDigits;
    UintKeyRead(Decimal(n), n);
    NintKeyRead(Decimal(n + 1), n);
  }

  /** Every key of a key type is read back from its string: integers as
      integers, and texts that look like integers, byte strings or marked texts
      as texts. */
  lemma {:induction false} KeyRead(k: Value, debug: Value -> string)
    requires KeyType(k)
    ensures KeyValue(KeyString(k, debug)) == Some(k)
  {
    hide IntKey, StringValue, Decimal, HexLower, TextString;
    match k
    case Uint(n) => IntKeyRead(n);
    case Nint(n) => IntKeyRead(n);
    case Bytes(b) => HexStringRead(b);
    case Text(s) =>
      MarkedTextRead(s);
      TextStringRead(s);
      PlainOrMarked(s);
  }

  lemma {:induction false} PlainOrMarked(s: string)
    ensures TextString(s) == s || TextString(s) == "txt:" + s
  {
  }

  // ------------------------------------------------------------------
  // Values
  // ------------------------------------------------------------------

  lemma {:induction false} DecimalStart(n: nat)
    ensures IsDigit(Decimal(n)[0])
  {
    DecimalFacts(n);
  }

  /** A rendered value starts with the character that tells its kind apart. */
  lemma {:induction false} JsonStart(v: Value, debug: Value -> string)
    ensures var s := ToJson(v, debug);
      s != "" && !IsSpace(s[0]) && s[0] != ']' && s[0] != '}'
      && match v
         case Uint(_) => IsDigit(s[0])
         case Nint(_) => s[0] == '-'
         case Bytes(_) => s[0] == '"'
         case Text(_) => s[0] == '"'
         case Array(_) => s[0] == '['
         case Map(_) => s[0] == '{'
         case Bool(f) => s[0] == if f then 't' else 'f'
         case Null => s[0] == 'n'
  {
    hide Decimal, Escaped, Elements, Members;
    match v
    case Uint(n) => DecimalStart(n);
    case _ =>
  }

  lemma {:induction false} NoSpace(s: string, rest: string)
    requires s != "" && !IsSpace(s[0])
    ensures SkipSpace(s + rest) == s + rest && (s + rest)[0] == s[0]
  {
  }

  ghost predicate ReadsBack(v: Value, rest: string, depth: nat, debug: Value -> string)
  {
    ReadValue(ToJson(v, debug) + rest, depth) == Some(Read(v, rest))
  }

  lemma {:induction false} ValueRead(v: Value, rest: string, depth: nat, debug: Value -> string)
    requires Jsonable(v) && depth + Depth(v) <= MAX_DEPTH && Stops(rest)
    ensures ReadsBack(v, rest, depth, debug)
    decreases v, 1
  {
    match v
    case Array(items) => ArrayRead(items, rest, depth, debug);
    case Map(entries) => ObjectRead(entries, rest, depth, debug);
    case _ => ScalarRead(v, rest, depth, debug);
  }

  lemma {:induction false} ScalarRead(v: Value, rest: string, depth: nat, debug: Value -> string)
    requires Jsonable(v) && !v.Array? && !v.Map? && depth <= MAX_DEPTH && Stops(rest)
    ensures ReadsBack(v, rest, depth, debug)
  {
    hide Decimal, HexLower, TextString, Escaped, ReadNumber, ReadString, StringValue, SkipSpace;
    JsonStart(v, debug);
    NoSpace(ToJson(v, debug), rest);
    match v
    case Uint(n) => NumberRead(n, rest);
    case Nint(n) => NumberRead(n, rest);
    case Bytes(b) =>
      QuotedRead("hex:" + HexLower(b), rest);
      HexStringRead(b);
    case Text(s) =>
      QuotedRead(TextString(s), rest);
      TextStringRead(s);
    case Bool(f) =>
      if f { LiteralRead("true", rest); } else { LiteralRead("false", rest); }
    case Null => LiteralRead("null", rest);
  }

  lemma LiteralRead(lit: string, rest: string)
    ensures StartsWith(lit + rest, lit) && (lit + rest)[|lit|..] == rest
  {
  }

  lemma {:induction false} ArrayRead(items: Vec<Value>, rest: string, depth: nat, debug: Value -> string)
    requires AllJsonable(items) && depth + DepthAll(items) <= MAX_DEPTH && Stops(rest)
    ensures ReadsBack(Array(items), rest, depth, debug)
    decreases items, 2
  {
    hide ReadElements, Elements, AllJsonable, DepthAll;
    var body := Elements(items, debug) + ("]" + rest);
    if items == [] {
      NoElements(debug);
      assert body == "]" + rest && body[1..] == rest;
    } else {
      ElementsRead(items, rest, depth, debug);
      ElementsStart(items, debug);
      NoSpace(Elements(items, debug), "]" + rest);
    }
    assert ReadArray(body, depth) == Some(Read(Array(items), rest));
    ArrayOpens(items, body, rest, depth, debug);
  }

  lemma NoElements(debug: Value -> string)
    ensures Elements([], debug) == "" && Members([], debug) == ""
  {
  }

  lemma {:induction false} ArrayOpens(items: Vec<Value>, body: string, rest: string, depth: nat, debug: Value -> string)
    requires body == Elements(items, debug) + ("]" + rest) && depth <= MAX_DEPTH
    requires ReadArray(body, depth) == Some(Read(Array(items), rest))
    ensures ReadsBack(Array(items), rest, depth, debug)
  {
    hide ReadArray, Elements;
    var s := ToJson(Array(items), debug) + rest;
    assert s == "[" + body;
    NoSpace("[", body);
    assert s[1..] == body;
  }

  lemma {:induction false} ElementsStart(items: seq<Value>, debug: Value -> string)
    requires items != []
    ensures var s := Elements(items, debug); s != "" && !IsSpace(s[0]) && s[0] != ']'
  {
    JsonStart(items[0], debug);
  }

  lemma {:induction false} ElementsRead(items: seq<Value>, rest: string, depth: nat, debug: Value -> string)
    requires items != [] && AllJsonable(items) && depth + DepthAll(items) <= MAX_DEPTH
    ensures ReadElements(Elements(items, debug) + ("]" + rest), depth) == Some(Read(items, rest))
    decreases items, 1
  {
    hide ReadValue, ReadsBack, ToJson, Jsonable, Depth, SkipSpace;
    var x, xs := items[0], items[1..];
    if |items| == 1 {
      ValueRead(x, "]" + rest, depth + 1, debug);
      LastElement(x, rest, depth, debug);
      assert items == [x];
    } else {
      var more := Elements(xs, debug) + ("]" + rest);
      ValueRead(x, "," + more, depth + 1, debug);
      ElementsRead(xs, rest, depth, debug);
      ElementsStart(xs, debug);
      NoSpace(Elements(xs, debug), "]" + rest);
      NextElement(x, xs, more, rest, depth, debug);
      assert items == [x] + xs;
      assert Elements(items, debug) + ("]" + rest) == ToJson(x, debug) + ("," + more);
    }
  }

  lemma {:induction false} LastElement(x: Value, rest: string, depth: nat, debug: Value -> string)
    requires ReadsBack(x, "]" + rest, depth + 1, debug)
    ensures ReadElements(ToJson(x, debug) + ("]" + rest), depth) == Some(Read([x], rest))
  {
    hide ReadValue, ToJson;
    NoSpace("]", rest);
    assert ("]" + rest)[1..] == rest;
  }

  lemma {:induction false} NextElement(x: Value, xs: seq<Value>, more: string, rest: string, depth: nat, debug: Value -> string)
    requires ReadsBack(x, "," + more, depth + 1, debug)
    requires SkipSpace(more) == more && ReadElements(more, depth) == Some(Read(xs, rest))
    ensures ReadElements(ToJson(x, debug) + ("," + more), depth) == Some(Read([x] + xs, rest))
  {
    hide ReadValue, ToJson;
    NoSpace(",", more);
    assert ("," + more)[1..] == more;
  }

  lemma {:induction false} ObjectRead(entries: Vec<Entry>, rest: string, depth: nat, debug: Value -> string)
    requires Jsonable(Map(entries)) && depth + DepthEntries(entries) <= MAX_DEPTH && Stops(rest)
    ensures ReadsBack(Map(entries), rest, depth, debug)
    decreases entries, 2
  {
    hide ReadMembers, Members, EntriesJsonable, DepthEntries;
    var body := Members(entries, debug) + ("}" + rest);
    if entries == [] {
      NoElements(debug);
      assert body == "}" + rest && body[1..] == rest;
    } else {
      MembersRead(entries, [], rest, depth, debug);
      MembersStart(entries, debug);
      NoSpace(Members(entries, debug), "}" + rest);
    }
    assert ReadObject(body, depth) == Some(Read(Map(entries), rest));
    ObjectOpens(entries, body, rest, depth, debug);
  }

  lemma {:induction false} ObjectOpens(entries: Vec<Entry>, body: string, rest: string, depth: nat, debug: Value -> string)
    requires body == Members(entries, debug) + ("}" + rest) && depth <= MAX_DEPTH
    requires ReadObject(body, depth) == Some(Read(Map(entries), rest))
    ensures ReadsBack(Map(entries), rest, depth, debug)
  {
    hide ReadObject, Members;
    var s := ToJson(Map(entries), debug) + rest;
    assert s == "{" + body;
    NoSpace("{", body);
    assert s[1..] == body;
  }

  lemma {:induction false} MembersStart(entries: seq<Entry>, debug: Value -> string)
    requires entries != []
    ensures var s := Members(entries, debug); s != "" && s[0] == '"'
  {
    hide ToJson, KeyString, Escaped;
  }

  lemma {:induction false} KeyReadBack(k: Value, tail: string, debug: Value -> string)
    requires KeyType(k)
    ensures ReadKey(Quoted(KeyString(k, debug)) + (":" + tail)) == Some(Read(k, tail))
  {
    hide KeyString, KeyValue, ReadString, Quoted;
    QuotedRead(KeyString(k, debug), ":" + tail);
    KeyRead(k, debug);
    var s := Quoted(KeyString(k, debug)) + (":" + tail);
    assert SkipSpace(s) == s;
    NoSpace(":", tail);
    assert (":" + tail)[1..] == tail;
  }

  lemma {:induction false} SplitMembers(entries: seq<Entry>)
    requires entries != [] && EntriesJsonable(entries)
    ensures var x, xs := entries[0], entries[1..];
      KeyType(x.key) && Jsonable(x.val) && EntriesJsonable(xs) && entries == [x] + xs
      && 1 + Depth(x.val) <= DepthEntries(entries) && DepthEntries(xs) <= DepthEntries(entries)
  {
    hide Jsonable, Depth;
  }

  /** The keys of `entries` are all different, and none is in `seen`. */
  ghost predicate FreshKeys(entries: seq<Entry>, seen: seq<Value>)
  {
    DifferentKeys(entries) && forall i :: 0 <= i < |entries| ==> entries[i].key !in seen
  }

  lemma {:induction false} FreshStep(x: Entry, xs: seq<Entry>, seen: seq<Value>)
    ensures FreshKeys([x] + xs, seen) <==> x.key !in seen && FreshKeys(xs, seen + [x.key])
  {
    var all := [x] + xs;
    if FreshKeys(all, seen) {
      assert all[0] == x;
      forall i | 0 <= i < |xs| ensures xs[i].key !in seen + [x.key] {
        assert all[i + 1] == xs[i] && all[0].key != all[i + 1].key;
      }
      forall i, j | 0 <= i < j < |xs| ensures xs[i].key != xs[j].key {
        assert all[i + 1].key != all[j + 1].key;
      }
    }
    if x.key !in seen && FreshKeys(xs, seen + [x.key]) {
      forall i | 0 <= i < |all| ensures all[i].key !in seen {
        if i > 0 { assert all[i] == xs[i - 1]; }
      }
      forall i, j | 0 <= i < j < |all| ensures all[i].key != all[j].key {
        assert all[j] == xs[j - 1];
        if i > 0 { assert all[i] == xs[i - 1]; }
      }
    }
  }

  lemma {:induction false} MembersRead(entries: seq<Entry>, seen: seq<Value>, rest: string, depth: nat, debug: Value -> string)
    requires entries != [] && EntriesJsonable(entries) && FreshKeys(entries, seen)
    requires depth + DepthEntries(entries) <= MAX_DEPTH
    ensures ReadMembers(Members(entries, debug) + ("}" + rest), depth, seen) == Some(Read(entries, rest))
    decreases entries, 1
  {
    hide *;
    SplitMembers(entries);
    var x, xs := entries[0], entries[1..];
    FreshStep(x, xs, seen);
    assert x.val < x;
    if |entries| == 1 {
      assert entries == [x];
      StopsAt(rest, rest);
      ValueRead(x.val, "}" + rest, depth + 1, debug);
      KeyReadBack(x.key, ToJson(x.val, debug) + ("}" + rest), debug);
      LastMember(x, seen, rest, depth, debug);
      MembersUnfold(x, [], rest, debug);
    } else {
      var more := Members(xs, debug) + ("}" + rest);
      StopsAt(more, rest);
      ValueRead(x.val, "," + more, depth + 1, debug);
      KeyReadBack(x.key, ToJson(x.val, debug) + ("," + more), debug);
      MembersRead(xs, seen + [x.key], rest, depth, debug);
      NextMember(x, xs, seen, more, rest, depth, debug);
      MembersUnfold(x, xs, rest, debug);
    }
  }

  lemma StopsAt(more: string, rest: string)
    ensures Stops("," + more) && Stops("}" + rest)
  {
  }

  lemma {:induction false} MembersUnfold(x: Entry, xs: seq<Entry>, rest: string, debug: Value -> string)
    ensures xs == [] ==>
      Members([x], debug) + ("}" + rest)
      == Quoted(KeyString(x.key, debug)) + (":" + (ToJson(x.val, debug) + ("}" + rest)))
    ensures xs != [] ==>
      Members([x] + xs, debug) + ("}" + rest)
      == Quoted(KeyString(x.key, debug)) + (":" + (ToJson(x.val, debug) + ("," + (Members(xs, debug) + ("}" + rest)))))
  {
    hide KeyString, ToJson, Quoted;
    assert ([x] + xs)[1..] == xs;
  }

  lemma {:induction false} LastMember(x: Entry, seen: seq<Value>, rest: string, depth: nat, debug: Value -> string)
    requires var tail := ToJson(x.val, debug) + ("}" + rest);
      ReadKey(Quoted(KeyString(x.key, debug)) + (":" + tail)) == Some(Read(x.key, tail))
    requires ReadsBack(x.val, "}" + rest, depth + 1, debug) && x.key !in seen
    ensures ReadMembers(Quoted(KeyString(x.key, debug)) + (":" + (ToJson(x.val, debug) + ("}" + rest))), depth, seen)
         == Some(Read([x], rest))
  {
    hide ReadValue, ToJson, ReadKey, Quoted, KeyString;
    NoSpace("}", rest);
    assert ("}" + rest)[1..] == rest;
    assert x == Entry(x.key, x.val);
  }

  lemma {:induction false} NextMember(x: Entry, xs: seq<Entry>, seen: seq<Value>, more: string, rest: string, depth: nat,
                                      debug: Value -> string)
    requires var tail := ToJson(x.val, debug) + ("," + more);
      ReadKey(Quoted(KeyString(x.key, debug)) + (":" + tail)) == Some(Read(x.key, tail))
    requires ReadsBack(x.val, "," + more, depth + 1, debug) && x.key !in seen
    requires ReadMembers(more, depth, seen + [x.key]) == Some(Read(xs, rest))
    ensures ReadMembers(Quoted(KeyString(x.key, debug)) + (":" + (ToJson(x.val, debug) + ("," + more))), depth, seen)
         == Some(Read([x] + xs, rest))
  {
    hide ReadValue, ToJson, ReadKey, Quoted, KeyString;
    NoSpace(",", more);
    assert ("," + more)[1..] == more;
    assert x == Entry(x.key, x.val);
  }

  // ------------------------------------------------------------------
  // What the parser accepts
  // ------------------------------------------------------------------

  ghost predicate Carried(v: Value, depth: nat)
  {
    Jsonable(v) && depth + Depth(v) <= MAX_DEPTH
  }

  lemma KeysAreKeys(raw: string)
    requires KeyValue(raw).Some?
    ensures KeyType(KeyValue(raw).value) && Depth(KeyValue(raw).value) == 0
  {
    hide Utf8.Encode, DecodeHex, DecimalValue;
  }

  lemma {:induction false} AcceptedIsCarried(s: string, depth: nat)
    requires ReadValue(s, depth).Some?
    ensures Carried(ReadValue(s, depth).value.value, depth)
    decreases |s|, 1
  {
    hide ReadElements, ReadMembers, ReadString, StringValue, ReadNumber, SkipSpace;
    var t := SkipSpace(s);
    if t[0] == '{' {
      var u := SkipSpace(t[1..]);
      if u != "" && u[0] == '}' {
      } else {
        AcceptedMembers(u, depth, []);
      }
    } else if t[0] == '[' {
      var u := SkipSpace(t[1..]);
      if u != "" && u[0] == ']' {
      } else {
        AcceptedElements(u, depth);
      }
    } else {
      AcceptedScalar(t, depth);
    }
  }

  lemma {:induction false} AcceptedScalar(t: string, depth: nat)
    requires depth <= MAX_DEPTH
    ensures ReadNumber(t).Some? ==> Carried(ReadNumber(t).value.value, depth)
    ensures forall raw :: StringValue(raw).Some? ==> Carried(StringValue(raw).value, depth)
    ensures Carried(Bool(true), depth) && Carried(Bool(false), depth) && Carried(Null, depth)
  {
    hide DecimalValue, DigitCount, DecodeHex, Utf8.Encode;
  }

  ghost predicate CarriedAll(items: seq<Value>, depth: nat)
  {
    AllJsonable(items) && depth + DepthAll(items) <= MAX_DEPTH
  }

  lemma {:induction false} ConsCarried(x: Value, xs: seq<Value>, depth: nat)
    requires Carried(x, depth + 1) && CarriedAll(xs, depth)
    ensures CarriedAll([x] + xs, depth)
  {
    hide Jsonable, Depth;
    assert ([x] + xs)[1..] == xs;
  }

  lemma {:induction false} AcceptedElements(s: string, depth: nat)
    requires ReadElements(s, depth).Some? && depth <= MAX_DEPTH
    ensures CarriedAll(ReadElements(s, depth).value.value, depth)
    decreases |s|, 2
  {
    hide ReadValue, SkipSpace, Carried, CarriedAll;
    var v := ReadValue(s, depth + 1).value;
    var t := SkipSpace(v.rest);
    AcceptedIsCarried(s, depth + 1);
    NothingCarried(depth);
    if t[0] == ',' {
      var u := SkipSpace(t[1..]);
      AcceptedElements(u, depth);
      ConsCarried(v.value, ReadElements(u, depth).value.value, depth);
    } else {
      ConsCarried(v.value, [], depth);
      assert [v.value] + [] == [v.value];
    }
  }

  lemma NothingCarried(depth: nat)
    requires depth <= MAX_DEPTH
    ensures CarriedAll([], depth) && CarriedEntries([], depth)
  {
  }

  ghost predicate CarriedEntries(es: seq<Entry>, depth: nat)
  {
    EntriesJsonable(es) && depth + DepthEntries(es) <= MAX_DEPTH
  }

  lemma {:induction false} ConsCarriedEntry(x: Entry, xs: seq<Entry>, depth: nat)
    requires KeyType(x.key) && Carried(x.val, depth + 1) && CarriedEntries(xs, depth)
    ensures CarriedEntries([x] + xs, depth)
  {
    hide Jsonable;
    assert Depth(x.key) == 0;
    assert ([x] + xs)[1..] == xs;
  }

  lemma {:induction false} AcceptedMembers(s: string, depth: nat, seen: seq<Value>)
    requires ReadMembers(s, depth, seen).Some? && depth <= MAX_DEPTH
    ensures var es := ReadMembers(s, depth, seen).value.value;
      CarriedEntries(es, depth) && FreshKeys(es, seen)
    decreases |s|, 2
  {
    hide *;
    NothingCarried(depth);
    NothingFresh();
    var x, last, u := MembersFold(s, depth, seen);
    AcceptedIsCarried(ReadKey(s).value.rest, depth + 1);
    var more: seq<Entry> := [];
    if last {
      assert [x] + more == [x];
    } else {
      AcceptedMembers(u, depth, seen + [x.key]);
      more := ReadMembers(u, depth, seen + [x.key]).value.value;
    }
    FreshStep(x, more, seen);
    ConsCarriedEntry(x, more, depth);
  }

  lemma NothingFresh()
    ensures forall seen :: FreshKeys([], seen)
  {
  }

  /** The first member of an accepted object and what follows it. */
  lemma {:induction false} MembersFold(s: string, depth: nat, seen: seq<Value>)
    returns (x: Entry, last: bool, u: string)
    requires ReadMembers(s, depth, seen).Some?
    ensures ReadKey(s).Some? && |ReadKey(s).value.rest| < |s|
    ensures KeyType(x.key) && x.key !in seen
    ensures ReadValue(ReadKey(s).value.rest, depth + 1).Some?
    ensures x.val == ReadValue(ReadKey(s).value.rest, depth + 1).value.value
    ensures last ==> ReadMembers(s, depth, seen).value.value == [x]
    ensures !last ==>
      |u| < |s| && ReadMembers(u, depth, seen + [x.key]).Some?
      && ReadMembers(s, depth, seen).value.value == [x] + ReadMembers(u, depth, seen + [x.key]).value.value
  {
    hide ReadValue, SkipSpace, KeyValue, KeyType;
    var k := ReadKey(s).value;
    KeyIsKey(s);
    var v := ReadValue(k.rest, depth + 1).value;
    var t := SkipSpace(v.rest);
    x := Entry(k.value, v.value);
    last := t[0] != ',';
    u := t[1..];
  }

  lemma KeyIsKey(s: string)
    requires ReadKey(s).Some?
    ensures KeyType(ReadKey(s).value.value)
  {
    hide ReadString, KeyValue;
    KeysAreKeys(ReadString(SkipSpace(s)[1..]).value.value);
  }

  // ------------------------------------------------------------------
  // Main results
  // ------------------------------------------------------------------

  /** JSON round trip, exactly: a value comes back from its JSON form if and only
      if its maps have different integer, byte-string or text keys, its integers
      in value position are no lower than the least signed 64-bit integer, and
      it is at most 64 levels deep. */
  lemma {:induction false} JsonRoundTrip(v: Value, debug: Value -> string)
    ensures FromJson(ToJson(v, debug)) == Some(v) <==> Jsonable(v) && Depth(v) <= MAX_DEPTH
  {
    hide ToJson, ReadValue, Jsonable, Depth;
    if Jsonable(v) && Depth(v) <= MAX_DEPTH {
      ValueRead(v, "", 0, debug);
      assert ToJson(v, debug) + "" == ToJson(v, debug);
    }
    if FromJson(ToJson(v, debug)) == Some(v) {
      AcceptedIsCarried(ToJson(v, debug), 0);
    }
  }

  /** Whatever the parser accepts, from any text, is such a value: so its JSON
      form reads back as the same value. */
  lemma {:induction false} AcceptedRoundTrips(s: string, debug: Value -> string)
    requires FromJson(s).Some?
    ensures Jsonable(FromJson(s).value) && Depth(FromJson(s).value) <= MAX_DEPTH
    ensures FromJson(ToJson(FromJson(s).value, debug)) == FromJson(s)
  {
    hide ToJson, ReadValue, Jsonable, Depth;
    AcceptedIsCarried(s, 0);
    JsonRoundTrip(FromJson(s).value, debug);
  }

  /** Different values have different JSON forms. */
  lemma {:induction false} JsonInjective(v: Value, w: Value, debug: Value -> string)
    requires Jsonable(v) && Jsonable(w) && Depth(v) <= MAX_DEPTH && Depth(w) <= MAX_DEPTH
    requires ToJson(v, debug) == ToJson(w, debug)
    ensures v == w
  {
    hide ToJson, FromJson, Jsonable, Depth;
    JsonRoundTrip(v, debug);
    JsonRoundTrip(w, debug);
  }
}
