/**
 * The JSON wire format between the chat endpoint and the browser.
 *
 * `Dumps` is Python's `json.dumps` with its default arguments: separators
 * ", " and ": ", and `ensure_ascii`, so that every character outside the
 * printable ASCII range is written as a `\u` escape (a surrogate pair for
 * characters beyond the Basic Multilingual Plane). `Parse` is JavaScript's
 * `JSON.parse`, restricted to integer numbers. The main result is the round
 * trip `Parse(Dumps(v)) == Some(v)`; besides it, the dumped text is printable
 * ASCII and so never holds a line break.
 */
module Json {
  import opened Wrappers
  import opened Strings

  datatype Value =
    | Null
    | Bool(b: bool)
    | Int(i: int)
    | Str(s: string)
    | Arr(items: seq<Value>)
    | Obj(members: seq<Member>)

  /** One key/value pair of an object, in the order written. */
  datatype Member = Member(key: string, value: Value)

  /** What a parser produced and the text it left unread. */
  datatype Step<+T> = Step(value: T, rest: string)

  predicate IsPrintableAscii(c: char)
  {
    ' ' <= c <= '~'
  }

  ghost predicate AllPrintable(s: string)
  {
    forall i :: 0 <= i < |s| ==> IsPrintableAscii(s[i])
  }

  lemma PrintableAppend(a: string, b: string)
    requires AllPrintable(a) && AllPrintable(b)
    ensures AllPrintable(a + b)
  {
    assert forall i :: |a| <= i < |a + b| ==> (a + b)[i] == b[i - |a|];
  }

  // ------------------------------------------------------------------
  // Python json.dumps
  // ------------------------------------------------------------------

  /** A lower-case hexadecimal digit. */
  function HexDigit(d: nat): char
    requires d < 16
  {
    if d < 10 then ('0' as int + d) as char else ('a' as int + d - 10) as char
  }

  /** Four lower-case hexadecimal digits, as `'{0:04x}'.format(n)`. */
  function Hex4(n: nat): (r: string)
    requires n < 0x10000
    ensures |r| == 4
  {
    var q1 := n / 16;
    var q2 := q1 / 16;
    [HexDigit(q2 / 16), HexDigit(q2 % 16), HexDigit(q1 % 16), HexDigit(n % 16)]
  }

  /** How `ensure_ascii` writes one character inside a string literal. */
  function EscapeChar(c: char): string
  {
    var n := c as int;
    if c == '"' then "\\\""
    else if c == '\\' then "\\\\"
    else if n == 8 then "\\b"
    else if n == 12 then "\\f"
    else if c == '\n' then "\\n"
    else if c == '\r' then "\\r"
    else if c == '\t' then "\\t"
    else if IsPrintableAscii(c) then [c]
    else if n < 0x10000 then "\\u" + Hex4(n)
    else
      var v := n - 0x10000;
      "\\u" + Hex4(0xD800 + v / 0x400) + "\\u" + Hex4(0xDC00 + v % 0x400)
  }

  /** The characters that `ensure_ascii` writes as a two-character escape. */
  predicate HasShortEscape(c: char)
  {
    c == '"' || c == '\\' || c as int == 8 || c as int == 12 || c == '\n' || c == '\r' || c == '\t'
  }

  function EscapeString(s: string): string
  {
    if s == [] then "" else EscapeChar(s[0]) + EscapeString(s[1..])
  }

  /** A string literal: the escaped text between double quotes. */
  function Quote(s: string): string
  {
    "\"" + EscapeString(s) + "\""
  }

  function Dumps(v: Value): string
    decreases v
  {
    match v
    case Null => "null"
    case Bool(b) => if b then "true" else "false"
    case Int(i) => IntText(i)
    case Str(s) => Quote(s)
    case Arr(items) => if items == [] then "[]" else "[" + DumpsItems(items)
    case Obj(members) => if members == [] then "{}" else "{" + DumpsMembers(members)
  }

  /** The elements of a non-empty list and the closing bracket. */
  function DumpsItems(items: seq<Value>): string
    requires items != []
    decreases items
  {
    Dumps(items[0]) + (if |items| == 1 then "]" else ", " + DumpsItems(items[1..]))
  }

  /** The members of a non-empty object and the closing brace. */
  function DumpsMembers(members: seq<Member>): string
    requires members != []
    decreases members
  {
    Quote(members[0].key) + ": " + Dumps(members[0].value)
    + (if |members| == 1 then "}" else ", " + DumpsMembers(members[1..]))
  }

  // ------------------------------------------------------------------
  // JavaScript JSON.parse
  // ------------------------------------------------------------------

  predicate IsWs(c: char)
  {
    c == ' ' || c == '\t' || c == '\n' || c == '\r'
  }

  function SkipWs(s: string): (r: string)
    ensures |r| <= |s|
    ensures r != [] ==> !IsWs(r[0])
  {
    if s != [] && IsWs(s[0]) then SkipWs(s[1..]) else s
  }

  function HexValue(c: char): Option<nat>
  {
    if '0' <= c <= '9' then Some(c as int - '0' as int)
    else if 'a' <= c <= 'f' then Some(c as int - 'a' as int + 10)
    else if 'A' <= c <= 'F' then Some(c as int - 'A' as int + 10)
    else None
  }

  /** Four hexadecimal digits at the start of `s`, as one UTF-16 code unit. */
  function ParseHex4(s: string): (r: Option<Step<nat>>)
    ensures r.Some? ==> r.value.value < 0x10000 && |s| >= 4 && r.value.rest == s[4..]
  {
    if |s| < 4 then None
    else
      match (HexValue(s[0]), HexValue(s[1]), HexValue(s[2]), HexValue(s[3]))
      case (Some(a), Some(b), Some(c), Some(d)) =>
        if a < 16 && b < 16 && c < 16 && d < 16
        then Some(Step(a * 0x1000 + b * 0x100 + c * 0x10 + d, s[4..]))
        else None
      case _ => None
  }

  predicate IsHighSurrogate(n: int) { 0xD800 <= n < 0xDC00 }
  predicate IsLowSurrogate(n: int) { 0xDC00 <= n < 0xE000 }

  /**
   * The character an escape sequence denotes; `s` is the text after the
   * backslash. A `\u` escape of a high surrogate must be followed by the
   * escape of a low surrogate, and the pair denotes one character.
   */
  function ParseEscape(s: string): (r: Option<Step<char>>)
    ensures r.Some? ==> |r.value.rest| < |s|
  {
    if s == [] then None
    else if s[0] == '"' then Some(Step('"', s[1..]))
    else if s[0] == '\\' then Some(Step('\\', s[1..]))
    else if s[0] == '/' then Some(Step('/', s[1..]))
    else if s[0] == 'b' then Some(Step(8 as char, s[1..]))
    else if s[0] == 'f' then Some(Step(12 as char, s[1..]))
    else if s[0] == 'n' then Some(Step('\n', s[1..]))
    else if s[0] == 'r' then Some(Step('\r', s[1..]))
    else if s[0] == 't' then Some(Step('\t', s[1..]))
    else if s[0] == 'u' then ParseUnicodeEscape(s[1..])
    else None
  }

  /** The character a `\u` escape denotes; `s` is the text after the `u`. */
  function ParseUnicodeEscape(s: string): (r: Option<Step<char>>)
    ensures r.Some? ==> |r.value.rest| < |s|
  {
    match ParseHex4(s)
    case None => None
    case Some(Step(h, r1)) =>
      if IsLowSurrogate(h) then None
      else if !IsHighSurrogate(h) then Some(Step(h as char, r1))
      else ParseLowSurrogate(h, r1)
  }

  /** The escape of a low surrogate that must follow the high surrogate `h`. */
  function ParseLowSurrogate(h: nat, s: string): (r: Option<Step<char>>)
    requires IsHighSurrogate(h)
    ensures r.Some? ==> |r.value.rest| < |s|
  {
    if !IsPrefix("\\u", s) then None
    else
      match ParseHex4(s[2..])
      case None => None
      case Some(Step(l, r2)) =>
        if IsLowSurrogate(l)
        then Some(Step((0x10000 + (h - 0xD800) * 0x400 + (l - 0xDC00)) as char, r2))
        else None
  }

  /** Puts `c` in front of the text a string parser produced. */
  function Cons(c: char, r: Option<Step<string>>): Option<Step<string>>
  {
    match r
    case None => None
    case Some(Step(t, rest)) => Some(Step([c] + t, rest))
  }

  /** The body of a string literal, after its opening quote, up to and
      including the closing quote. */
  function ParseStringBody(s: string): (r: Option<Step<string>>)
    ensures r.Some? ==> |r.value.rest| < |s|
    decreases |s|
  {
    if s == [] then None
    else if s[0] == '"' then Some(Step([], s[1..]))
    else if s[0] == '\\' then
      match ParseEscape(s[1..])
      case None => None
      case Some(Step(c, rest)) => Cons(c, ParseStringBody(rest))
    else if (s[0] as int) < 0x20 then None
    else Cons(s[0], ParseStringBody(s[1..]))
  }

  /** The longest run of digits at the start of `s`. */
  function TakeDigits(s: string): (r: string)
    ensures IsPrefix(r, s)
    ensures forall i :: 0 <= i < |r| ==> IsDigit(r[i])
    ensures |r| < |s| ==> !IsDigit(s[|r|])
  {
    if s != [] && IsDigit(s[0]) then [s[0]] + TakeDigits(s[1..]) else []
  }

  /** A natural number without superfluous leading zeros. */
  function ParseNat(s: string): (r: Option<Step<nat>>)
    ensures r.Some? ==> |r.value.rest| < |s|
  {
    if s == [] || !IsDigit(s[0]) then None
    else if s[0] == '0' then Some(Step(0, s[1..]))
    else
      var ds := TakeDigits(s);
      Some(Step(DigitsValue(ds), s[|ds|..]))
  }

  function ParseNumber(s: string): (r: Option<Step<int>>)
    ensures r.Some? ==> |r.value.rest| < |s|
  {
    var negative := s != [] && s[0] == '-';
    match ParseNat(if negative then s[1..] else s)
    case None => None
    case Some(Step(n, rest)) => Some(Step(if negative then -(n as int) else n as int, rest))
  }

  /** One JSON value at the very start of `s`, chosen by its first character. */
  function ParseValue(s: string): (r: Option<Step<Value>>)
    ensures r.Some? ==> |r.value.rest| < |s|
    decreases |s|, 0
  {
    if s == [] then None
    else if s[0] == '"' then ParseStringValue(s[1..])
    else if s[0] == '[' then ParseArray(s[1..])
    else if s[0] == '{' then ParseObject(s[1..])
    else if s[0] == 'n' || s[0] == 't' || s[0] == 'f' then ParseLiteral(s)
    else ParseNumberValue(s)
  }

  function ParseLiteral(s: string): (r: Option<Step<Value>>)
    ensures r.Some? ==> |r.value.rest| < |s|
  {
    if IsPrefix("null", s) then Some(Step(Null, s[4..]))
    else if IsPrefix("true", s) then Some(Step(Bool(true), s[4..]))
    else if IsPrefix("false", s) then Some(Step(Bool(false), s[5..]))
    else None
  }

  /** A string value; `s` is the text after the opening quote. */
  function ParseStringValue(s: string): (r: Option<Step<Value>>)
    ensures r.Some? ==> |r.value.rest| < |s|
  {
    match ParseStringBody(s)
    case None => None
    case Some(Step(t, rest)) => Some(Step(Str(t), rest))
  }

  function ParseNumberValue(s: string): (r: Option<Step<Value>>)
    ensures r.Some? ==> |r.value.rest| < |s|
  {
    match ParseNumber(s)
    case None => None
    case Some(Step(i, rest)) => Some(Step(Int(i), rest))
  }

  /** A list; `s` is the text after the opening bracket. */
  function ParseArray(s: string): (r: Option<Step<Value>>)
    ensures r.Some? ==> |r.value.rest| < |s|
    decreases |s|, 2
  {
    var t := SkipWs(s);
    if t != [] && t[0] == ']' then Some(Step(Arr([]), t[1..]))
    else
      match ParseItems(t)
      case None => None
      case Some(Step(items, rest)) => Some(Step(Arr(items), rest))
  }

  /** An object; `s` is the text after the opening brace. */
  function ParseObject(s: string): (r: Option<Step<Value>>)
    ensures r.Some? ==> |r.value.rest| < |s|
    decreases |s|, 3
  {
    var t := SkipWs(s);
    if t != [] && t[0] == '}' then Some(Step(Obj([]), t[1..]))
    else
      match ParseMembers(t)
      case None => None
      case Some(Step(members, rest)) => Some(Step(Obj(members), rest))
  }

  /** The elements of a list, from its first element to its closing bracket. */
  function ParseItems(s: string): (r: Option<Step<seq<Value>>>)
    ensures r.Some? ==> |r.value.rest| < |s|
    decreases |s|, 1
  {
    match ParseValue(s)
    case None => None
    case Some(Step(v, rest)) =>
      var t := SkipWs(rest);
      if t == [] then None
      else if t[0] == ']' then Some(Step([v], t[1..]))
      else if t[0] != ',' then None
      else
        match ParseItems(SkipWs(t[1..]))
        case None => None
        case Some(Step(vs, rest')) => Some(Step([v] + vs, rest'))
  }

  /** The members of an object, from its first key to its closing brace. */
  function ParseMembers(s: string): (r: Option<Step<seq<Member>>>)
    ensures r.Some? ==> |r.value.rest| < |s|
    decreases |s|, 2
  {
    if s == [] || s[0] != '"' then None
    else
      match ParseStringBody(s[1..])
      case None => None
      case Some(Step(key, r1)) =>
        var t := SkipWs(r1);
        if t == [] || t[0] != ':' then None
        else ParseMemberValue(key, SkipWs(t[1..]))
  }

  /** The value of the member named `key`, then the rest of the object. */
  function ParseMemberValue(key: string, s: string): (r: Option<Step<seq<Member>>>)
    ensures r.Some? ==> |r.value.rest| < |s|
    decreases |s|, 1
  {
    match ParseValue(s)
    case None => None
    case Some(Step(v, r2)) =>
      var u := SkipWs(r2);
      if u == [] then None
      else if u[0] == '}' then Some(Step([Member(key, v)], u[1..]))
      else if u[0] != ',' then None
      else
        match ParseMembers(SkipWs(u[1..]))
        case None => None
        case Some(Step(ms, r3)) => Some(Step([Member(key, v)] + ms, r3))
  }

  /** `JSON.parse(s)`: one value, with nothing but whitespace around it. */
  function Parse(s: string): Option<Value>
  {
    match ParseValue(SkipWs(s))
    case None => None
    case Some(Step(v, rest)) => if SkipWs(rest) == [] then Some(v) else None
  }

  // ------------------------------------------------------------------
  // JavaScript semantics of a parsed value
  // ------------------------------------------------------------------

  /** JavaScript truthiness. */
  predicate Truthy(v: Value)
  {
    match v
    case Null => false
    case Bool(b) => b
    case Int(i) => i != 0
    case Str(s) => s != []
    case Arr(_) => true
    case Obj(_) => true
  }

  /** Property access `v.key` on a value that is not null: the last member
      with that key (later duplicates win), or `undefined`. */
  function Field(v: Value, key: string): Option<Value>
  {
    match v
    case Obj(members) => FieldIn(members, key)
    case _ => None
  }

  function FieldIn(members: seq<Member>, key: string): (r: Option<Value>)
    ensures r.Some? ==> exists i :: 0 <= i < |members| && members[i] == Member(key, r.value)
    ensures r.None? <==> forall i :: 0 <= i < |members| ==> members[i].key != key
    decreases |members|
  {
    if members == [] then None
    else if members[|members| - 1].key == key then Some(members[|members| - 1].value)
    else FieldIn(members[..|members| - 1], key)
  }

  /** `String(v)`, the text string concatenation adds for `v`. */
  function JsText(v: Value): string
    decreases v
  {
    match v
    case Null => "null"
    case Bool(b) => if b then "true" else "false"
    case Int(i) => IntText(i)
    case Str(s) => s
    case Arr(items) => JsTextItems(items)
    case Obj(_) => "[object Object]"
  }

  /** `Array.prototype.join(",")`, in which a null element contributes nothing. */
  function JsTextItems(items: seq<Value>): string
    decreases items
  {
    if items == [] then ""
    else
      (if items[0].Null? then "" else JsText(items[0]))
      + (if |items| == 1 then "" else "," + JsTextItems(items[1..]))
  }

  // ------------------------------------------------------------------
  // Properties of the dumped text
  // ------------------------------------------------------------------

  lemma Hex4Printable(n: nat)
    requires n < 0x10000
    ensures AllPrintable(Hex4(n))
  {
  }

  lemma UnitEscapePrintable(n: nat)
    requires n < 0x10000
    ensures AllPrintable("\\u" + Hex4(n))
  {
    Hex4Printable(n);
    PrintableAppend("\\u", Hex4(n));
  }

  lemma EscapeCharPrintable(c: char)
    ensures AllPrintable(EscapeChar(c))
  {
    var n := c as int;
    if HasShortEscape(c) {
      assert |EscapeChar(c)| == 2 && EscapeChar(c)[0] == '\\';
    } else if IsPrintableAscii(c) {
      assert EscapeChar(c) == [c];
    } else if n < 0x10000 {
      assert EscapeChar(c) == "\\u" + Hex4(n);
      UnitEscapePrintable(n);
    } else {
      var v := n - 0x10000;
      var a, b := "\\u" + Hex4(0xD800 + v / 0x400), "\\u" + Hex4(0xDC00 + v % 0x400);
      assert EscapeChar(c) == a + b;
      UnitEscapePrintable(0xD800 + v / 0x400);
      UnitEscapePrintable(0xDC00 + v % 0x400);
      PrintableAppend(a, b);
    }
  }

  lemma {:induction false} EscapeStringPrintable(s: string)
    ensures AllPrintable(EscapeString(s))
  {
    if s != [] {
      EscapeCharPrintable(s[0]);
      EscapeStringPrintable(s[1..]);
      PrintableAppend(EscapeChar(s[0]), EscapeString(s[1..]));
    }
  }

  lemma QuotePrintable(s: string)
    ensures AllPrintable(Quote(s))
  {
    EscapeStringPrintable(s);
    PrintableAppend("\"", EscapeString(s));
    PrintableAppend("\"" + EscapeString(s), "\"");
  }

  /** `ensure_ascii` output: every character of the dumped text is printable
      ASCII, so in particular it holds no line break. */
  lemma {:induction false} DumpsPrintable(v: Value)
    ensures AllPrintable(Dumps(v))
    decreases v
  {
    match v
    case Null =>
    case Bool(b) =>
    case Int(i) =>
    case Str(s) => QuotePrintable(s);
    case Arr(items) =>
      if items != [] {
        ItemsPrintable(items);
        PrintableAppend("[", DumpsItems(items));
      }
    case Obj(members) =>
      if members != [] {
        MembersPrintable(members);
        PrintableAppend("{", DumpsMembers(members));
      }
  }

  lemma {:induction false} ItemsPrintable(items: seq<Value>)
    requires items != []
    ensures AllPrintable(DumpsItems(items))
    decreases items
  {
    DumpsPrintable(items[0]);
    if |items| == 1 {
      PrintableAppend(Dumps(items[0]), "]");
    } else {
      ItemsPrintable(items[1..]);
      PrintableAppend(", ", DumpsItems(items[1..]));
      PrintableAppend(Dumps(items[0]), ", " + DumpsItems(items[1..]));
    }
  }

  lemma {:induction false} MembersPrintable(members: seq<Member>)
    requires members != []
    ensures AllPrintable(DumpsMembers(members))
    decreases members
  {
    var m := members[0];
    QuotePrintable(m.key);
    DumpsPrintable(m.value);
    PrintableAppend(Quote(m.key), ": ");
    PrintableAppend(Quote(m.key) + ": ", Dumps(m.value));
    var tail := if |members| == 1 then "}" else ", " + DumpsMembers(members[1..]);
    if |members| > 1 {
      MembersPrintable(members[1..]);
      PrintableAppend(", ", DumpsMembers(members[1..]));
    }
    PrintableAppend(Quote(m.key) + ": " + Dumps(m.value), tail);
  }

  lemma DumpsHasNoNewline(v: Value)
    ensures '\n' !in Dumps(v)
  {
    DumpsPrintable(v);
  }

  // ------------------------------------------------------------------
  // The round trip
  // ------------------------------------------------------------------

  lemma HexDigitValue(d: nat)
    requires d < 16
    ensures HexValue(HexDigit(d)) == Some(d)
  {
  }

  lemma Hex4RoundTrip(n: nat, rest: string)
    requires n < 0x10000
    ensures ParseHex4(Hex4(n) + rest) == Some(Step(n, rest))
  {
    var s := Hex4(n) + rest;
    var q1 := n / 16;
    var q2 := q1 / 16;
    var a, b, c, d := q2 / 16, q2 % 16, q1 % 16, n % 16;
    HexDigitValue(a);
    HexDigitValue(b);
    HexDigitValue(c);
    HexDigitValue(d);
    assert n == q1 * 16 + d && q1 == q2 * 16 + c && q2 == a * 16 + b;
    assert s[0] == HexDigit(a) && s[1] == HexDigit(b) && s[2] == HexDigit(c) && s[3] == HexDigit(d);
    assert s[4..] == rest;
  }

  lemma UnitEscapeRoundTrip(n: nat, more: string)
    requires n < 0x10000 && !IsHighSurrogate(n) && !IsLowSurrogate(n)
    ensures ParseEscape("u" + (Hex4(n) + more)) == Some(Step(n as char, more))
  {
    assert ("u" + (Hex4(n) + more))[1..] == Hex4(n) + more;
    Hex4RoundTrip(n, more);
  }

  /** The surrogate pair that stands for a character beyond the Basic
      Multilingual Plane, and back. */
  lemma SurrogateArith(c: char)
    requires c as int >= 0x10000
    ensures var v := c as int - 0x10000;
      var h, l := 0xD800 + v / 0x400, 0xDC00 + v % 0x400;
      IsHighSurrogate(h) && IsLowSurrogate(l) && 0x10000 + (h - 0xD800) * 0x400 + (l - 0xDC00) == c as int
  {
    var v := c as int - 0x10000;
    var hi, lo := v / 0x400, v % 0x400;
    assert v == hi * 0x400 + lo && 0 <= lo < 0x400;
    assert v < 0x100000;
    assert hi < 0x400;
  }

  lemma LowSurrogateRoundTrip(h: nat, l: nat, more: string)
    requires IsHighSurrogate(h) && IsLowSurrogate(l)
    ensures ParseLowSurrogate(h, "\\u" + (Hex4(l) + more))
      == Some(Step((0x10000 + (h - 0xD800) * 0x400 + (l - 0xDC00)) as char, more))
  {
    var s := "\\u" + (Hex4(l) + more);
    assert IsPrefix("\\u", s);
    assert s[2..] == Hex4(l) + more;
    Hex4RoundTrip(l, more);
  }

  lemma PairEscapeRoundTrip(c: char, more: string)
    requires c as int >= 0x10000
    ensures var v := c as int - 0x10000;
      ParseEscape("u" + (Hex4(0xD800 + v / 0x400) + ("\\u" + (Hex4(0xDC00 + v % 0x400) + more))))
      == Some(Step(c, more))
  {
    var v := c as int - 0x10000;
    var h, l := 0xD800 + v / 0x400, 0xDC00 + v % 0x400;
    SurrogateArith(c);
    var r1 := "\\u" + (Hex4(l) + more);
    var s := "u" + (Hex4(h) + r1);
    assert s[1..] == Hex4(h) + r1;
    Hex4RoundTrip(h, r1);
    LowSurrogateRoundTrip(h, l, more);
  }

  /** Parsing an escape sequence inside a string literal. */
  lemma BackslashStep(x: string)
    ensures ParseStringBody("\\" + x) ==
      match ParseEscape(x)
      case None => None
      case Some(Step(c, rest)) => Cons(c, ParseStringBody(rest))
  {
    assert ("\\" + x)[1..] == x;
  }

  lemma ShortEscapeRoundTrip(c: char, more: string)
    requires HasShortEscape(c)
    ensures ParseStringBody(EscapeChar(c) + more) == Cons(c, ParseStringBody(more))
  {
    var e := EscapeChar(c);
    assert |e| == 2 && e[0] == '\\';
    var x := [e[1]] + more;
    assert e + more == "\\" + x;
    BackslashStep(x);
    assert x[0] == e[1] && x[1..] == more;
    assert ParseEscape(x) == Some(Step(c, more));
  }

  lemma UnitCharRoundTrip(c: char, more: string)
    requires !HasShortEscape(c) && !IsPrintableAscii(c) && c as int < 0x10000
    ensures ParseStringBody(EscapeChar(c) + more) == Cons(c, ParseStringBody(more))
  {
    var n := c as int;
    assert EscapeChar(c) == "\\u" + Hex4(n);
    assert EscapeChar(c) + more == "\\" + ("u" + (Hex4(n) + more));
    BackslashStep("u" + (Hex4(n) + more));
    UnitEscapeRoundTrip(n, more);
  }

  lemma Assoc(a: string, b: string, c: string)
    ensures (a + b) + c == a + (b + c)
  {
  }

  lemma PairCharRoundTrip(c: char, more: string)
    requires c as int >= 0x10000
    ensures ParseStringBody(EscapeChar(c) + more) == Cons(c, ParseStringBody(more))
  {
    var v := c as int - 0x10000;
    var h, l := 0xD800 + v / 0x400, 0xDC00 + v % 0x400;
    var hx, lx := Hex4(h), Hex4(l);
    assert EscapeChar(c) == (("\\u" + hx) + "\\u") + lx;
    Assoc(("\\u" + hx) + "\\u", lx, more);
    Assoc("\\u" + hx, "\\u", lx + more);
    Assoc("\\u", hx, "\\u" + (lx + more));
    assert "\\u" == "\\" + "u";
    var x := "u" + (hx + ("\\u" + (lx + more)));
    Assoc("\\", "u", hx + ("\\u" + (lx + more)));
    assert EscapeChar(c) + more == "\\" + x;
    BackslashStep(x);
    PairEscapeRoundTrip(c, more);
  }

  /** Parsing the escape of one character yields that character. */
  lemma EscapeCharRoundTrip(c: char, more: string)
    ensures ParseStringBody(EscapeChar(c) + more) == Cons(c, ParseStringBody(more))
  {
    if HasShortEscape(c) {
      ShortEscapeRoundTrip(c, more);
    } else if IsPrintableAscii(c) {
      var s := EscapeChar(c) + more;
      assert EscapeChar(c) == [c];
      assert s[0] == c && s[1..] == more;
    } else if c as int < 0x10000 {
      UnitCharRoundTrip(c, more);
    } else {
      PairCharRoundTrip(c, more);
    }
  }

  lemma {:induction false} EscapeStringRoundTrip(t: string, rest: string)
    ensures ParseStringBody(EscapeString(t) + "\"" + rest) == Some(Step(t, rest))
  {
    if t == [] {
      assert EscapeString(t) + "\"" + rest == "\"" + rest;
      assert ("\"" + rest)[1..] == rest;
    } else {
      var tail := EscapeString(t[1..]) + "\"" + rest;
      assert EscapeString(t) + "\"" + rest == EscapeChar(t[0]) + tail;
      EscapeCharRoundTrip(t[0], tail);
      EscapeStringRoundTrip(t[1..], rest);
      assert [t[0]] + t[1..] == t;
    }
  }

  lemma {:induction false} TakeDigitsAppend(t: string, rest: string)
    requires forall i :: 0 <= i < |t| ==> IsDigit(t[i])
    requires Delimited(rest)
    ensures TakeDigits(t + rest) == t
  {
    if t != [] {
      assert (t + rest)[1..] == t[1..] + rest;
      TakeDigitsAppend(t[1..], rest);
      assert [t[0]] + t[1..] == t;
    }
  }

  /** Digits without a leading zero, then a delimiter, are read as their
      value. */
  lemma DigitsRoundTrip(t: string, rest: string)
    requires t != [] && t[0] != '0' && forall i :: 0 <= i < |t| ==> IsDigit(t[i])
    requires Delimited(rest)
    ensures ParseNat(t + rest) == Some(Step(DigitsValue(t), rest))
  {
    var s := t + rest;
    assert s[0] == t[0];
    TakeDigitsAppend(t, rest);
    assert s[|t|..] == rest;
  }

  lemma NatRoundTrip(n: nat, rest: string)
    requires Delimited(rest)
    ensures ParseNat(NatText(n) + rest) == Some(Step(n, rest))
  {
    var t := NatText(n);
    if n == 0 {
      var s := t + rest;
      assert s[0] == '0' && s[1..] == rest;
    } else {
      DigitsRoundTrip(t, rest);
      NatTextValue(n);
    }
  }

  /** How a number with a minus sign is read. */
  lemma ParseNumberNegative(x: string)
    ensures ParseNumber("-" + x) ==
      match ParseNat(x)
      case None => None
      case Some(Step(n, rest)) => Some(Step(-(n as int), rest))
  {
    assert ("-" + x)[0] == '-' && ("-" + x)[1..] == x;
  }

  lemma IntRoundTrip(i: int, rest: string)
    requires Delimited(rest)
    ensures ParseNumber(IntText(i) + rest) == Some(Step(i, rest))
  {
    if i < 0 {
      var n: nat := -i;
      assert IntText(i) == "-" + NatText(n);
      Assoc("-", NatText(n), rest);
      ParseNumberNegative(NatText(n) + rest);
      NatRoundTrip(n, rest);
    } else {
      var n: nat := i;
      assert IntText(i) == NatText(n);
      var s := NatText(n) + rest;
      assert s[0] == NatText(n)[0] && s[0] != '-';
      NatRoundTrip(n, rest);
    }
  }

  /** The first character of dumped text opens the value: it is never
      whitespace and never a closing bracket or brace. */
  lemma DumpsStart(v: Value)
    ensures Dumps(v) != [] && !IsWs(Dumps(v)[0])
    ensures Dumps(v)[0] != ']' && Dumps(v)[0] != '}'
  {
  }

  lemma SkipWsNoop(s: string)
    requires s == [] || !IsWs(s[0])
    ensures SkipWs(s) == s
  {
  }

  /** Text after a value that cannot extend it: only a number could absorb
      what follows it, and only digits. */
  predicate Delimited(rest: string)
  {
    rest == [] || !IsDigit(rest[0])
  }

  lemma LiteralRoundTrip(v: Value, rest: string)
    requires v.Null? || v.Bool?
    ensures ParseValue(Dumps(v) + rest) == Some(Step(v, rest))
  {
    var s := Dumps(v) + rest;
    if v.Null? {
      assert s[0] == 'n' && IsPrefix("null", s) && s[4..] == rest;
    } else if v.b {
      assert s[0] == 't' && IsPrefix("true", s) && s[4..] == rest;
    } else {
      assert s[0] == 'f' && !IsPrefix("null", s) && !IsPrefix("true", s);
      assert IsPrefix("false", s) && s[5..] == rest;
    }
  }

  lemma StrRoundTrip(t: string, rest: string)
    ensures ParseValue(Dumps(Str(t)) + rest) == Some(Step(Str(t), rest))
  {
    var x := EscapeString(t) + "\"" + rest;
    assert Dumps(Str(t)) + rest == "\"" + x;
    assert ("\"" + x)[1..] == x;
    EscapeStringRoundTrip(t, rest);
  }

  /** A value that starts like a number is read as one. */
  lemma ParseValueNumber(s: string)
    requires s != [] && (s[0] == '-' || IsDigit(s[0]))
    ensures ParseValue(s) == ParseNumberValue(s)
  {
    NumberStart(s[0]);
  }

  /** A character that starts a number starts no other value. */
  lemma NumberStart(c: char)
    requires c == '-' || IsDigit(c)
    ensures c != '"' && c != '[' && c != '{' && c != 'n' && c != 't' && c != 'f'
  {
  }

  lemma NumberRoundTrip(i: int, rest: string)
    requires Delimited(rest)
    ensures ParseValue(Dumps(Int(i)) + rest) == Some(Step(Int(i), rest))
  {
    var s := IntText(i) + rest;
    assert s[0] == IntText(i)[0];
    ParseValueNumber(s);
    IntRoundTrip(i, rest);
  }

  lemma {:induction false} ValueRoundTrip(v: Value, rest: string)
    requires Delimited(rest)
    ensures ParseValue(Dumps(v) + rest) == Some(Step(v, rest))
    decreases v, 2
  {
    match v
    case Null => LiteralRoundTrip(v, rest);
    case Bool(_) => LiteralRoundTrip(v, rest);
    case Int(i) => NumberRoundTrip(i, rest);
    case Str(t) => StrRoundTrip(t, rest);
    case Arr(items) => ArrRoundTrip(items, rest);
    case Obj(members) => ObjRoundTrip(members, rest);
  }

  lemma {:induction false} ArrRoundTrip(items: seq<Value>, rest: string)
    ensures ParseValue(Dumps(Arr(items)) + rest) == Some(Step(Arr(items), rest))
    decreases items, 1
  {
    var x := (if items == [] then "]" else DumpsItems(items)) + rest;
    assert Dumps(Arr(items)) + rest == "[" + x;
    assert ("[" + x)[1..] == x;
    if items == [] {
      SkipWsNoop(x);
      assert x[1..] == rest;
    } else {
      DumpsStart(items[0]);
      assert x[0] == Dumps(items[0])[0];
      SkipWsNoop(x);
      ItemsRoundTrip(items, rest);
    }
  }

  lemma {:induction false} ObjRoundTrip(members: seq<Member>, rest: string)
    ensures ParseValue(Dumps(Obj(members)) + rest) == Some(Step(Obj(members), rest))
    decreases members, 2
  {
    var x := (if members == [] then "}" else DumpsMembers(members)) + rest;
    assert Dumps(Obj(members)) + rest == "{" + x;
    assert ("{" + x)[1..] == x;
    if members == [] {
      SkipWsNoop(x);
      assert x[1..] == rest;
    } else {
      assert x[0] == '"';
      SkipWsNoop(x);
      MembersRoundTrip(members, rest);
    }
  }

  /** A list element followed by `]` closes the list. */
  lemma ItemsLast(s: string, v: Value, rest: string)
    requires ParseValue(s) == Some(Step(v, "]" + rest))
    ensures ParseItems(s) == Some(Step([v], rest))
  {
    SkipWsNoop("]" + rest);
    assert ("]" + rest)[1..] == rest;
  }

  /** A list element followed by `, ` continues with the next element. */
  lemma ItemsNext(s: string, v: Value, more: string)
    requires ParseValue(s) == Some(Step(v, ", " + more))
    requires more != [] && !IsWs(more[0])
    ensures ParseItems(s) ==
      match ParseItems(more)
      case None => None
      case Some(Step(vs, r3)) => Some(Step([v] + vs, r3))
  {
    var tail := ", " + more;
    SkipWsNoop(tail);
    SkipWsNoop(more);
    assert tail[1..] == " " + more;
    assert SkipWs(tail[1..]) == more;
  }

  lemma {:induction false} ItemsRoundTrip(items: seq<Value>, rest: string)
    requires items != []
    ensures ParseItems(DumpsItems(items) + rest) == Some(Step(items, rest))
    decreases items, 0
  {
    var v := items[0];
    if |items| == 1 {
      assert DumpsItems(items) + rest == Dumps(v) + ("]" + rest);
      ValueRoundTrip(v, "]" + rest);
      ItemsLast(Dumps(v) + ("]" + rest), v, rest);
      assert [v] == items;
    } else {
      var more := DumpsItems(items[1..]) + rest;
      assert DumpsItems(items) + rest == Dumps(v) + (", " + more);
      ValueRoundTrip(v, ", " + more);
      DumpsStart(items[1]);
      assert more[0] == Dumps(items[1])[0];
      ItemsNext(Dumps(v) + (", " + more), v, more);
      ItemsRoundTrip(items[1..], rest);
      assert [v] + items[1..] == items;
    }
  }

  /** Reading a key and its colon hands over to the member's value. */
  lemma MemberKeyUnfold(s: string, key: string, x: string)
    requires s != [] && s[0] == '"' && ParseStringBody(s[1..]) == Some(Step(key, ": " + x))
    requires x != [] && !IsWs(x[0])
    ensures ParseMembers(s) == ParseMemberValue(key, x)
  {
    var afterKey := ": " + x;
    SkipWsNoop(afterKey);
    SkipWsNoop(x);
    assert afterKey[0] == ':' && afterKey[1..] == " " + x;
    assert SkipWs(afterKey[1..]) == x;
  }

  lemma MemberKeyStep(key: string, x: string)
    requires x != [] && !IsWs(x[0])
    ensures ParseMembers(Quote(key) + (": " + x)) == ParseMemberValue(key, x)
  {
    var e, afterKey := EscapeString(key), ": " + x;
    var s := Quote(key) + afterKey;
    Assoc("\"" + e, "\"", afterKey);
    Assoc("\"", e, "\"" + afterKey);
    Assoc(e, "\"", afterKey);
    var body := e + "\"" + afterKey;
    assert s == "\"" + body;
    assert s[0] == '"' && s[1..] == body;
    EscapeStringRoundTrip(key, afterKey);
    MemberKeyUnfold(s, key, x);
  }

  lemma {:induction false} MembersRoundTrip(members: seq<Member>, rest: string)
    requires members != []
    ensures ParseMembers(DumpsMembers(members) + rest) == Some(Step(members, rest))
    decreases members, 1
  {
    var m := members[0];
    var tail := (if |members| == 1 then "}" else ", " + DumpsMembers(members[1..])) + rest;
    assert DumpsMembers(members) + rest == Quote(m.key) + (": " + (Dumps(m.value) + tail));
    DumpsStart(m.value);
    MemberKeyStep(m.key, Dumps(m.value) + tail);
    MemberValueRoundTrip(members, rest);
  }

  /** A member value followed by `}` closes the object. */
  lemma MemberValueLast(key: string, s: string, v: Value, rest: string)
    requires ParseValue(s) == Some(Step(v, "}" + rest))
    ensures ParseMemberValue(key, s) == Some(Step([Member(key, v)], rest))
  {
    SkipWsNoop("}" + rest);
    assert ("}" + rest)[1..] == rest;
  }

  /** A member value followed by `, ` continues with the next member. */
  lemma MemberValueNext(key: string, s: string, v: Value, more: string)
    requires ParseValue(s) == Some(Step(v, ", " + more))
    requires more != [] && !IsWs(more[0])
    ensures ParseMemberValue(key, s) ==
      match ParseMembers(more)
      case None => None
      case Some(Step(ms, r3)) => Some(Step([Member(key, v)] + ms, r3))
  {
    var tail := ", " + more;
    SkipWsNoop(tail);
    SkipWsNoop(more);
    assert tail[1..] == " " + more;
    assert SkipWs(tail[1..]) == more;
  }

  lemma {:induction false} MemberValueRoundTrip(members: seq<Member>, rest: string)
    requires members != []
    ensures var tail := (if |members| == 1 then "}" else ", " + DumpsMembers(members[1..])) + rest;
      ParseMemberValue(members[0].key, Dumps(members[0].value) + tail) == Some(Step(members, rest))
    decreases members, 0
  {
    var m := members[0];
    if |members| == 1 {
      ValueRoundTrip(m.value, "}" + rest);
      MemberValueLast(m.key, Dumps(m.value) + ("}" + rest), m.value, rest);
      assert [m] == members;
    } else {
      var more := DumpsMembers(members[1..]) + rest;
      assert ", " + DumpsMembers(members[1..]) + rest == ", " + more;
      ValueRoundTrip(m.value, ", " + more);
      assert more[0] == '"';
      MemberValueNext(m.key, Dumps(m.value) + (", " + more), m.value, more);
      MembersRoundTrip(members[1..], rest);
      assert [m] + members[1..] == members;
    }
  }

  /** What `JSON.parse` reads back from what `json.dumps` wrote is the value
      that was written. */
  lemma ParseDumps(v: Value)
    ensures Parse(Dumps(v)) == Some(v)
  {
    DumpsStart(v);
    SkipWsNoop(Dumps(v));
    ValueRoundTrip(v, []);
    assert Dumps(v) + [] == Dumps(v);
  }
}
