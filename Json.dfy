/**
 * JSON text (RFC 8259) as `JSON.stringify` writes it and `JSON.parse` reads it,
 * for the values a token carries: null, booleans, integers, strings, arrays and
 * objects. An object is the insertion-ordered list of its own properties, which
 * is the order in which JavaScript enumerates, stringifies and spreads them.
 */
module Json {

  import opened Wrappers
  import opened Bytes
  import Strings

  datatype Value =
    | Null
    | Bool(b: bool)
    | Num(n: int)
    | Str(s: string)
    | Arr(items: seq<Value>)
    | Obj(members: seq<Member>)

  datatype Member = Member(key: string, value: Value)

  // ---------------------------------------------------------------------------
  // Objects as JavaScript keeps them

  function KeySet(ms: seq<Member>): set<string> {
    if ms == [] then {} else {ms[0].key} + KeySet(ms[1..])
  }

  /** `o[k]` for an own property: the value of the member named `k`, if any. */
  function Lookup(ms: seq<Member>, k: string): (r: Option<Value>)
    ensures r.Some? <==> k in KeySet(ms)
  {
    if ms == [] then None
    else if ms[0].key == k then Some(ms[0].value)
    else Lookup(ms[1..], k)
  }

  /** A JavaScript object never holds two properties of the same name. */
  predicate UniqueKeys(ms: seq<Member>) {
    ms == [] || (ms[0].key !in KeySet(ms[1..]) && UniqueKeys(ms[1..]))
  }

  /**
   * Property assignment `o[k] = v`: an existing property keeps its place and takes
   * the new value; a new one is added after all the others.
   */
  function Put(ms: seq<Member>, k: string, v: Value): (r: seq<Member>)
    ensures Lookup(r, k) == Some(v)
    ensures forall k' :: k' != k ==> Lookup(r, k') == Lookup(ms, k')
    ensures KeySet(r) == KeySet(ms) + {k}
    ensures k !in KeySet(ms) ==> r == ms + [Member(k, v)]
    ensures UniqueKeys(ms) ==> UniqueKeys(r)
    ensures ValuesWellFormed(ms) && WellFormed(v) ==> ValuesWellFormed(r)
  {
    if ms == [] then [Member(k, v)]
    else if ms[0].key == k then [Member(k, v)] + ms[1..]
    else [ms[0]] + Put(ms[1..], k, v)
  }

  /** The own properties other than `k`, in their original order (object rest `{k, ...r} = o`). */
  function Remove(ms: seq<Member>, k: string): (r: seq<Member>)
    ensures Lookup(r, k) == None
    ensures forall k' :: k' != k ==> Lookup(r, k') == Lookup(ms, k')
    ensures KeySet(r) == KeySet(ms) - {k}
    ensures k !in KeySet(ms) ==> r == ms
    ensures UniqueKeys(ms) ==> UniqueKeys(r)
    ensures ValuesWellFormed(ms) ==> ValuesWellFormed(r)
  {
    if ms == [] then []
    else if ms[0].key == k then Remove(ms[1..], k)
    else [ms[0]] + Remove(ms[1..], k)
  }

  /**
   * Leaving `k` out of two lists joined is leaving it out of each: with the single-member
   * case, this fixes the result as the other members in their original order.
   */
  lemma {:induction false} RemoveAppend(a: seq<Member>, b: seq<Member>, k: string)
    ensures Remove(a + b, k) == Remove(a, k) + Remove(b, k)
    ensures |a| == 1 ==> Remove(a, k) == if a[0].key == k then [] else a
  {
    if a != [] {
      assert (a + b)[0] == a[0];
      assert (a + b)[1..] == a[1..] + b;
      RemoveAppend(a[1..], b, k);
      if a[0].key != k {
        assert [a[0]] + Remove(a[1..], k) + Remove(b, k) == [a[0]] + (Remove(a[1..], k) + Remove(b, k));
      }
    } else {
      assert a + b == b;
    }
  }

  /** Overwriting `k` and then leaving `k` out is the same as leaving it out at once. */
  lemma {:induction false} RemovePut(ms: seq<Member>, k: string, v: Value)
    ensures Remove(Put(ms, k, v), k) == Remove(ms, k)
  {
    if ms != [] && ms[0].key != k {
      RemovePut(ms[1..], k, v);
    }
  }

  lemma {:induction false} UniqueKeysAppend(a: seq<Member>, b: seq<Member>)
    ensures UniqueKeys(a + b) <==> UniqueKeys(a) && UniqueKeys(b) && KeySet(a) !! KeySet(b)
    ensures KeySet(a + b) == KeySet(a) + KeySet(b)
  {
    if a == [] {
      assert a + b == b;
    } else {
      assert (a + b)[1..] == a[1..] + b;
      UniqueKeysAppend(a[1..], b);
    }
  }

  /** Every object inside the value, at any depth, has distinct keys. */
  predicate WellFormed(v: Value) {
    match v
    case Arr(items) => forall i :: 0 <= i < |items| ==> WellFormed(items[i])
    case Obj(ms) => UniqueKeys(ms) && forall i :: 0 <= i < |ms| ==> WellFormed(ms[i].value)
    case _ => true
  }

  predicate ValuesWellFormed(ms: seq<Member>) {
    forall i :: 0 <= i < |ms| ==> WellFormed(ms[i].value)
  }

  // ---------------------------------------------------------------------------
  // Decimal integers

  function DigitChar(d: int): (c: char)
    requires 0 <= d < 10
    ensures IsDigit(c)
  {
    ('0' as int + d) as char
  }

  predicate AllDigits(s: string) {
    forall i :: 0 <= i < |s| ==> IsDigit(s[i])
  }

  /** The shortest decimal numeral of `n`: no leading zero unless `n` is zero. */
  function NatToDecimal(n: nat): (s: string)
    ensures |s| > 0 && AllDigits(s)
    ensures s[0] == '0' ==> n == 0
  {
    if n < 10 then [DigitChar(n)] else NatToDecimal(n / 10) + [DigitChar(n % 10)]
  }

  function DecimalValue(ds: string): nat
    requires AllDigits(ds)
  {
    if ds == [] then 0 else 10 * DecimalValue(ds[..|ds| - 1]) + (ds[|ds| - 1] as int - '0' as int)
  }

  lemma {:induction false} DecimalRoundTrip(n: nat)
    ensures DecimalValue(NatToDecimal(n)) == n
  {
    if n >= 10 {
      var s := NatToDecimal(n);
      assert s[..|s| - 1] == NatToDecimal(n / 10);
      DecimalRoundTrip(n / 10);
    }
  }

  /** How `JSON.stringify` writes an integral number. */
  function IntToDecimal(n: int): string {
    if n < 0 then "-" + NatToDecimal(-n) else NatToDecimal(n)
  }

  // ---------------------------------------------------------------------------
  // Strings

  /** How `JSON.stringify` writes one character of a string. */
  function EscapeChar(c: char): string {
    if c == '"' then "\\\""
    else if c == '\\' then "\\\\"
    else if c as int == 8 then "\\b"
    else if c as int == 12 then "\\f"
    else if c == '\n' then "\\n"
    else if c == '\r' then "\\r"
    else if c == '\t' then "\\t"
    else if c as int < 0x20 then "\\u00" + [HexDigit(c as int / 16), HexDigit(c as int % 16)]
    else [c]
  }

  function Escape(s: string): string {
    if s == [] then [] else EscapeChar(s[0]) + Escape(s[1..])
  }

  function Quote(s: string): string {
    "\"" + Escape(s) + "\""
  }

  // ---------------------------------------------------------------------------
  // Serialisation

  /** `JSON.stringify(v)`: no whitespace, members and items in order. */
  function Stringify(v: Value): string {
    match v
    case Null => "null"
    case Bool(b) => if b then "true" else "false"
    case Num(n) => IntToDecimal(n)
    case Str(s) => Quote(s)
    case Arr(items) =>
      "[" + Strings.Join(seq(|items|, i requires 0 <= i < |items| => Stringify(items[i])), ",") + "]"
    case Obj(ms) =>
      "{" + Strings.Join(seq(|ms|, i requires 0 <= i < |ms| => Quote(ms[i].key) + ":" + Stringify(ms[i].value)), ",") + "}"
  }

  // ---------------------------------------------------------------------------
  // Parsing

  predicate IsWs(c: char) { c == ' ' || c == '\t' || c == '\n' || c == '\r' }

  function SkipWs(s: string): (r: string)
    ensures |r| <= |s|
    ensures r == [] || !IsWs(r[0])
  {
    if s != [] && IsWs(s[0]) then SkipWs(s[1..]) else s
  }

  /** The length of the run of decimal digits that starts `s`. */
  function DigitCount(s: string): (k: nat)
    ensures k <= |s|
    ensures AllDigits(s[..k])
    ensures k < |s| ==> !IsDigit(s[k])
  {
    if s != [] && IsDigit(s[0]) then 1 + DigitCount(s[1..]) else 0
  }

  /**
   * A number: an optional minus sign and an integer part without leading zeros.
   * A fraction or an exponent is outside the integers modelled here and is refused.
   */
  function ParseNumber(s: string): (r: Option<(Value, string)>)
    ensures r.Some? ==> |r.value.1| < |s| && r.value.0.Num?
  {
    if s != [] && s[0] == '-' then
      match ParseMagnitude(s[1..])
      case None => None
      case Some((m, rest)) => Some((Num(0 - m as int), rest))
    else
      match ParseMagnitude(s)
      case None => None
      case Some((m, rest)) => Some((Num(m), rest))
  }

  /** The integer part of a number, and the text after it. */
  function ParseMagnitude(t: string): (r: Option<(nat, string)>)
    ensures r.Some? ==> |r.value.1| < |t|
  {
    var k := DigitCount(t);
    if k == 0 || (t[0] == '0' && k > 1) then None
    else
      var rest := t[k..];
      if rest != [] && (rest[0] == '.' || rest[0] == 'e' || rest[0] == 'E') then None
      else Some((DecimalValue(t[..k]), rest))
  }

  /** Four hex digits, as they follow `\u`. */
  function Hex4(s: string): (r: Option<int>)
    ensures r.Some? ==> |s| >= 4 && 0 <= r.value < 0x10000
  {
    if |s| < 4 then None
    else
      match (HexValue(s[0]), HexValue(s[1]), HexValue(s[2]), HexValue(s[3]))
      case (Some(a), Some(b), Some(c), Some(d)) => Some(((a * 16 + b) * 16 + c) * 16 + d)
      case _ => None
  }

  /**
   * The character of an escape sequence; `s` starts just after the backslash.
   * A surrogate escape must be a high-low pair; an unpaired one has no character.
   */
  function ParseEscape(s: string): (r: Option<(char, string)>)
    ensures r.Some? ==> |r.value.1| < |s|
  {
    if s == [] then None
    else if s[0] == '"' || s[0] == '\\' || s[0] == '/' then Some((s[0], s[1..]))
    else if s[0] == 'b' then Some((8 as char, s[1..]))
    else if s[0] == 'f' then Some((12 as char, s[1..]))
    else if s[0] == 'n' then Some(('\n', s[1..]))
    else if s[0] == 'r' then Some(('\r', s[1..]))
    else if s[0] == 't' then Some(('\t', s[1..]))
    else if s[0] == 'u' then
      match Hex4(s[1..])
      case None => None
      case Some(u) =>
        if 0xD800 <= u < 0xDC00 then
          if |s| >= 7 && s[5] == '\\' && s[6] == 'u' then
            match Hex4(s[7..])
            case Some(w) =>
              if 0xDC00 <= w < 0xE000
              then Some((((u - 0xD800) * 0x400 + (w - 0xDC00) + 0x10000) as char, s[11..]))
              else None
            case None => None
          else None
        else if 0xDC00 <= u < 0xE000 then None
        else Some((u as char, s[5..]))
    else None
  }

  /** The characters of a string literal up to its closing quote; `s` starts just after the opening one. */
  function ParseStringBody(s: string): (r: Option<(string, string)>)
    ensures r.Some? ==> |r.value.1| < |s|
    decreases |s|
  {
    if s == [] then None
    else if s[0] == '"' then Some(([], s[1..]))
    else if s[0] == '\\' then
      match ParseEscape(s[1..])
      case None => None
      case Some((c, rest)) =>
        match ParseStringBody(rest)
        case None => None
        case Some((body, after)) => Some(([c] + body, after))
    else if s[0] as int < 0x20 then None
    else
      match ParseStringBody(s[1..])
      case None => None
      case Some((body, after)) => Some(([s[0]] + body, after))
  }

  /** The object `JSON.parse` builds from its members in order: a repeated key keeps its first place and its last value. */
  function Collect(acc: seq<Member>, raw: seq<Member>): (r: seq<Member>)
    ensures UniqueKeys(acc) ==> UniqueKeys(r)
    ensures ValuesWellFormed(acc) && ValuesWellFormed(raw) ==> ValuesWellFormed(r)
    decreases raw
  {
    if raw == [] then acc else Collect(Put(acc, raw[0].key, raw[0].value), raw[1..])
  }

  /** One more item or member in front of what the rest of the list parses to. */
  function Prepend<T>(x: T, r: Option<(seq<T>, string)>): (r': Option<(seq<T>, string)>)
    ensures r'.Some? <==> r.Some?
    ensures r.Some? ==> r'.value.0 == [x] + r.value.0 && r'.value.1 == r.value.1
  {
    match r
    case None => None
    case Some((xs, after)) => Some(([x] + xs, after))
  }

  /** One JSON value after optional whitespace, and the text after it. */
  function ParseValue(s: string): (r: Option<(Value, string)>)
    ensures r.Some? ==> |r.value.1| < |s| && WellFormed(r.value.0)
    decreases |s|, 0
  {
    var t := SkipWs(s);
    if t == [] then None
    else if t[0] == '[' then ParseArray(t[1..])
    else if t[0] == '{' then ParseObject(t[1..])
    else ParseScalar(t)
  }

  /** A literal, a string or a number at the start of `t`. */
  function ParseScalar(t: string): (r: Option<(Value, string)>)
    ensures r.Some? ==> |r.value.1| < |t| && !r.value.0.Arr? && !r.value.0.Obj?
  {
    if t == [] then None
    else if t[0] == 'n' then (if |t| >= 4 && t[..4] == "null" then Some((Null, t[4..])) else None)
    else if t[0] == 't' then (if |t| >= 4 && t[..4] == "true" then Some((Bool(true), t[4..])) else None)
    else if t[0] == 'f' then (if |t| >= 5 && t[..5] == "false" then Some((Bool(false), t[5..])) else None)
    else if t[0] == '"' then
      match ParseStringBody(t[1..])
      case None => None
      case Some((str, rest)) => Some((Str(str), rest))
    else if t[0] == '-' || IsDigit(t[0]) then ParseNumber(t)
    else None
  }

  /** An array; `s` starts just after its `[`. */
  function ParseArray(s: string): (r: Option<(Value, string)>)
    ensures r.Some? ==> |r.value.1| < |s| && WellFormed(r.value.0)
    decreases |s|, 3
  {
    var u := SkipWs(s);
    if u != [] && u[0] == ']' then Some((Arr([]), u[1..]))
    else
      match ParseElements(u)
      case None => None
      case Some((items, rest)) => Some((Arr(items), rest))
  }

  /** An object; `s` starts just after its `{`. */
  function ParseObject(s: string): (r: Option<(Value, string)>)
    ensures r.Some? ==> |r.value.1| < |s| && WellFormed(r.value.0)
    decreases |s|, 3
  {
    var u := SkipWs(s);
    if u != [] && u[0] == '}' then Some((Obj([]), u[1..]))
    else
      match ParseMembers(u)
      case None => None
      case Some((raw, rest)) => Some((Obj(Collect([], raw)), rest))
  }

  /** The items of an array up to and including its `]`. */
  function ParseElements(s: string): (r: Option<(seq<Value>, string)>)
    ensures r.Some? ==> |r.value.1| < |s| && forall i :: 0 <= i < |r.value.0| ==> WellFormed(r.value.0[i])
    decreases |s|, 1
  {
    match ParseValue(s)
    case None => None
    case Some((v, rest)) => ElementsNext(v, rest)
  }

  /** After item `v`: a comma and more items, or the closing `]`. */
  function ElementsNext(v: Value, rest: string): (r: Option<(seq<Value>, string)>)
    requires WellFormed(v)
    ensures r.Some? ==> |r.value.1| < |rest| && forall i :: 0 <= i < |r.value.0| ==> WellFormed(r.value.0[i])
    decreases |rest|, 1
  {
    var u := SkipWs(rest);
    if u != [] && u[0] == ',' then Prepend(v, ParseElements(u[1..]))
    else if u != [] && u[0] == ']' then Some(([v], u[1..]))
    else None
  }

  /** The members of an object up to and including its `}`, as written (repeated keys not yet merged). */
  function ParseMembers(s: string): (r: Option<(seq<Member>, string)>)
    ensures r.Some? ==> |r.value.1| < |s| && ValuesWellFormed(r.value.0)
    decreases |s|, 2
  {
    var t := SkipWs(s);
    if t == [] || t[0] != '"' then None
    else
      match ParseStringBody(t[1..])
      case None => None
      case Some((key, rest)) => MemberValue(key, rest)
  }

  /** After the key of a member: a colon, its value, and what follows the value. */
  function MemberValue(key: string, rest: string): (r: Option<(seq<Member>, string)>)
    ensures r.Some? ==> |r.value.1| < |rest| && ValuesWellFormed(r.value.0)
    decreases |rest|, 1
  {
    var u := SkipWs(rest);
    if u == [] || u[0] != ':' then None
    else
      match ParseValue(u[1..])
      case None => None
      case Some((v, rest2)) => MembersNext(Member(key, v), rest2)
  }

  /** After member `m`: a comma and more members, or the closing `}`. */
  function MembersNext(m: Member, rest: string): (r: Option<(seq<Member>, string)>)
    requires WellFormed(m.value)
    ensures r.Some? ==> |r.value.1| < |rest| && ValuesWellFormed(r.value.0)
    decreases |rest|, 2
  {
    var w := SkipWs(rest);
    if w != [] && w[0] == ',' then Prepend(m, ParseMembers(w[1..]))
    else if w != [] && w[0] == '}' then Some(([m], w[1..]))
    else None
  }

  /** `JSON.parse(s)`: one value, optionally surrounded by whitespace; `None` is a `SyntaxError`. */
  function Parse(s: string): (r: Option<Value>)
    ensures r.Some? ==> WellFormed(r.value)
  {
    match ParseValue(s)
    case None => None
    case Some((v, rest)) => if SkipWs(rest) == [] then Some(v) else None
  }

  // ---------------------------------------------------------------------------
  // Round trip: `JSON.parse(JSON.stringify(v))` gives `v` back

  /** What can follow a value inside the text `Stringify` writes. */
  predicate Delimited(rest: string) {
    rest == [] || rest[0] == ',' || rest[0] == ']' || rest[0] == '}'
  }

  /** A character that can begin the text of a value. */
  predicate Starter(c: char) {
    c == 'n' || c == 't' || c == 'f' || c == '"' || c == '-' || IsDigit(c) || c == '[' || c == '{'
  }

  lemma StringifyStart(v: Value)
    ensures |Stringify(v)| > 0 && Starter(Stringify(v)[0])
  {
  }

  lemma {:induction false} JoinStart(strs: seq<string>, sep: string)
    requires |strs| > 0 && |strs[0]| > 0
    ensures |Strings.Join(strs, sep)| > 0 && Strings.Join(strs, sep)[0] == strs[0][0]
  {
  }

  lemma {:induction false} DigitCountOf(d: string, rest: string)
    requires AllDigits(d)
    requires rest == [] || !IsDigit(rest[0])
    ensures DigitCount(d + rest) == |d|
  {
    if d == [] {
      assert d + rest == rest;
    } else {
      assert (d + rest)[1..] == d[1..] + rest;
      DigitCountOf(d[1..], rest);
    }
  }

  lemma MagnitudeRoundTrip(m: nat, rest: string)
    requires Delimited(rest)
    ensures ParseMagnitude(NatToDecimal(m) + rest) == Some((m, rest))
  {
    var d := NatToDecimal(m);
    var t := d + rest;
    DigitCountOf(d, rest);
    DecimalRoundTrip(m);
    assert t[..|d|] == d;
    assert t[|d|..] == rest;
  }

  lemma NumberRoundTrip(n: int, rest: string)
    requires Delimited(rest)
    ensures ParseNumber(IntToDecimal(n) + rest) == Some((Num(n), rest))
  {
    if n < 0 {
      var d := NatToDecimal(-n);
      MagnitudeRoundTrip(-n, rest);
      assert ("-" + d + rest)[1..] == d + rest;
    } else {
      MagnitudeRoundTrip(n, rest);
    }
  }

  lemma EscapeCharRoundTrip(c: char, tail: string, body: string, after: string)
    requires ParseStringBody(tail) == Some((body, after))
    ensures ParseStringBody(EscapeChar(c) + tail) == Some(([c] + body, after))
  {
    var x := EscapeChar(c) + tail;
    if c == '"' || c == '\\' || c as int == 8 || c as int == 12 || c == '\n' || c == '\r' || c == '\t' {
      assert x[1..][1..] == tail;
    } else if c as int < 0x20 {
      var hi, lo := HexDigit(c as int / 16), HexDigit(c as int % 16);
      var digits := ['0', '0', hi, lo];
      assert x[1..] == ['u'] + digits + tail;
      assert x[1..][1..] == digits + tail;
      assert x[1..][1..][..4] == digits;
      assert Hex4(x[1..][1..]) == Some(c as int);
      assert x[1..][5..] == tail;
    } else {
      assert x[1..] == tail;
    }
  }

  lemma {:induction false} EscapeRoundTrip(s: string, rest: string)
    ensures ParseStringBody(Escape(s) + "\"" + rest) == Some((s, rest))
  {
    if s == [] {
      assert Escape(s) + "\"" + rest == "\"" + rest;
    } else {
      EscapeRoundTrip(s[1..], rest);
      assert Escape(s) + "\"" + rest == EscapeChar(s[0]) + (Escape(s[1..]) + "\"" + rest);
      EscapeCharRoundTrip(s[0], Escape(s[1..]) + "\"" + rest, s[1..], rest);
      assert [s[0]] + s[1..] == s;
    }
  }

  /** `text` followed by `rest` parses to `v`, leaving `rest`. */
  ghost predicate ReadsAs(text: string, v: Value, rest: string) {
    ParseValue(text + rest) == Some((v, rest))
  }

  /** `text` is read as `v`, whatever delimiter follows it. */
  ghost predicate TextOf(text: string, v: Value) {
    forall rest {:trigger ReadsAs(text, v, rest)} :: Delimited(rest) ==> ReadsAs(text, v, rest)
  }

  /** `v` is read back from its own text. */
  ghost predicate ParsesBack(v: Value) {
    TextOf(Stringify(v), v)
  }

  /** The texts of the items of an array, in order. */
  function ItemTexts(items: seq<Value>): seq<string> {
    seq(|items|, i requires 0 <= i < |items| => Stringify(items[i]))
  }

  /** The texts of the values of an object's members, in order. */
  function ValueTexts(ms: seq<Member>): seq<string> {
    seq(|ms|, i requires 0 <= i < |ms| => Stringify(ms[i].value))
  }

  /** The texts of the members of an object, in order. */
  function MemberTexts(ms: seq<Member>): seq<string> {
    seq(|ms|, i requires 0 <= i < |ms| => Quote(ms[i].key) + ":" + Stringify(ms[i].value))
  }

  lemma {:induction false} CollectUnique(acc: seq<Member>, raw: seq<Member>)
    requires UniqueKeys(acc + raw)
    ensures Collect(acc, raw) == acc + raw
    decreases raw
  {
    if raw != [] {
      UniqueKeysAppend(acc, raw);
      assert raw[0].key in KeySet(raw);
      assert (acc + [raw[0]]) + raw[1..] == acc + raw;
      CollectUnique(acc + [raw[0]], raw[1..]);
    } else {
      assert acc + raw == acc;
    }
  }

  lemma ItemParses(text: string, v: Value, after: string)
    requires TextOf(text, v) && Delimited(after)
    ensures ParseValue(text + after) == Some((v, after))
  {
    assert ReadsAs(text, v, after);
  }

  /** How the item loop continues once an item has been read. */
  lemma ElementsStep(s: string, v: Value, after: string)
    requires ParseValue(s) == Some((v, after))
    requires after != [] && (after[0] == ',' || after[0] == ']')
    ensures after[0] == ']' ==> ParseElements(s) == Some(([v], after[1..]))
    ensures after[0] == ',' ==> ParseElements(s) == Prepend(v, ParseElements(after[1..]))
  {
    assert ParseElements(s) == ElementsNext(v, after);
    assert SkipWs(after) == after;
  }

  /** The quoted key of a member is read back, and the member goes on with what follows it. */
  lemma MemberKey(key: string, tail: string)
    ensures ParseMembers(Quote(key) + tail) == MemberValue(key, tail)
  {
    var s := Quote(key) + tail;
    assert s[1..] == Escape(key) + "\"" + tail;
    EscapeRoundTrip(key, tail);
    assert SkipWs(s) == s;
  }

  /** The colon and the value of a member, up to what follows the value. */
  lemma MemberColon(key: string, text: string, v: Value, after: string)
    requires ParseValue(text + after) == Some((v, after))
    ensures MemberValue(key, ":" + (text + after)) == MembersNext(Member(key, v), after)
  {
    var u := ":" + (text + after);
    assert SkipWs(u) == u;
    assert u[1..] == text + after;
  }

  lemma Regroup(a: string, b: string, c: string, d: string)
    ensures a + b + c + d == a + (b + (c + d))
  {
  }

  /** How the member loop continues once a member has been read. */
  lemma MembersStep(head: string, key: string, text: string, v: Value, after: string)
    requires head == Quote(key) + ":" + text
    requires ParseValue(text + after) == Some((v, after))
    ensures ParseMembers(head + after) == MembersNext(Member(key, v), after)
  {
    Regroup(Quote(key), ":", text, after);
    MemberKey(key, ":" + (text + after));
    MemberColon(key, text, v, after);
  }

  /** Whether the member loop ends or goes on after a member. */
  lemma MembersNextStep(m: Member, after: string)
    requires WellFormed(m.value)
    requires after != [] && (after[0] == ',' || after[0] == '}')
    ensures after[0] == '}' ==> MembersNext(m, after) == Some(([m], after[1..]))
    ensures after[0] == ',' ==> MembersNext(m, after) == Prepend(m, ParseMembers(after[1..]))
  {
    assert SkipWs(after) == after;
  }

  /** An object's text is its members' text after the opening brace. */
  lemma ObjectText(body: string, raw: seq<Member>, rest: string)
    requires body != [] && body[0] == '"'
    requires ParseMembers(body) == Some((raw, rest))
    ensures ParseValue("{" + body) == Some((Obj(Collect([], raw)), rest))
  {
    assert ("{" + body)[1..] == body;
    assert SkipWs("{" + body) == "{" + body;
  }

  /** An array's text is its items' text after the opening bracket. */
  lemma ArrayText(body: string, items: seq<Value>, rest: string)
    requires body != [] && Starter(body[0])
    requires ParseElements(body) == Some((items, rest))
    ensures ParseValue("[" + body) == Some((Arr(items), rest))
  {
    assert ("[" + body)[1..] == body;
    assert SkipWs("[" + body) == "[" + body;
  }

  /** Reading the only item of an item list. */
  lemma ElementsLast(items: seq<Value>, strs: seq<string>, rest: string)
    requires |items| == 1 && |strs| == 1
    requires TextOf(strs[0], items[0])
    ensures ParseElements(Strings.Join(strs, ",") + ("]" + rest)) == Some((items, rest))
  {
    var close := "]" + rest;
    Strings.JoinFirst(strs, ",", close);
    ItemParses(strs[0], items[0], close);
    ElementsStep(strs[0] + close, items[0], close);
    assert close[1..] == rest;
    assert items == [items[0]];
  }

  /** Reading the first item of a list of several. */
  lemma ElementsMore(items: seq<Value>, strs: seq<string>, rest: string)
    requires |items| > 1 && |strs| == |items|
    requires TextOf(strs[0], items[0])
    ensures ParseElements(Strings.Join(strs, ",") + ("]" + rest)) ==
      Prepend(items[0], ParseElements(Strings.Join(strs[1..], ",") + ("]" + rest)))
  {
    var close := "]" + rest;
    var after := "," + Strings.Join(strs[1..], ",") + close;
    Strings.JoinFirst(strs, ",", close);
    ItemParses(strs[0], items[0], after);
    ElementsStep(strs[0] + after, items[0], after);
    assert after[1..] == Strings.Join(strs[1..], ",") + close;
  }

  lemma {:induction false} ElementsRoundTrip(items: seq<Value>, strs: seq<string>, rest: string)
    requires |items| >= 1 && |strs| == |items|
    requires forall i :: 0 <= i < |items| ==> TextOf(strs[i], items[i])
    ensures ParseElements(Strings.Join(strs, ",") + ("]" + rest)) == Some((items, rest))
  {
    if |items| == 1 {
      ElementsLast(items, strs, rest);
    } else {
      ElementsMore(items, strs, rest);
      ElementsRoundTrip(items[1..], strs[1..], rest);
      assert [items[0]] + items[1..] == items;
    }
  }

  /** `head` is the text of member `m`, its value written as `text`, which reads back as that value. */
  ghost predicate HeadOf(head: string, m: Member, text: string) {
    head == Quote(m.key) + ":" + text && TextOf(text, m.value)
  }

  /** Reading the only member of a member list. */
  lemma MembersLast(ms: seq<Member>, texts: seq<string>, strs: seq<string>, rest: string)
    requires |ms| == 1 && |texts| == 1 && |strs| == 1
    requires HeadOf(strs[0], ms[0], texts[0])
    ensures ParseMembers(Strings.Join(strs, ",") + ("}" + rest)) == Some((ms, rest))
  {
    var close := "}" + rest;
    Strings.JoinFirst(strs, ",", close);
    ItemParses(texts[0], ms[0].value, close);
    MembersStep(strs[0], ms[0].key, texts[0], ms[0].value, close);
    MembersNextStep(ms[0], close);
    assert close[1..] == rest;
    assert ms == [ms[0]];
  }

  /** Reading the first member of a list of several. */
  lemma MembersMore(ms: seq<Member>, texts: seq<string>, strs: seq<string>, rest: string)
    requires |ms| > 1 && |texts| == |ms| && |strs| == |ms|
    requires HeadOf(strs[0], ms[0], texts[0])
    ensures ParseMembers(Strings.Join(strs, ",") + ("}" + rest)) ==
      Prepend(ms[0], ParseMembers(Strings.Join(strs[1..], ",") + ("}" + rest)))
  {
    var close := "}" + rest;
    var after := "," + Strings.Join(strs[1..], ",") + close;
    Strings.JoinFirst(strs, ",", close);
    ItemParses(texts[0], ms[0].value, after);
    MembersStep(strs[0], ms[0].key, texts[0], ms[0].value, after);
    MembersNextStep(ms[0], after);
    assert after[1..] == Strings.Join(strs[1..], ",") + close;
  }

  lemma {:induction false} MembersRoundTrip(ms: seq<Member>, texts: seq<string>, strs: seq<string>, rest: string)
    requires |ms| >= 1 && |texts| == |ms| && |strs| == |ms|
    requires forall i :: 0 <= i < |ms| ==> HeadOf(strs[i], ms[i], texts[i])
    ensures ParseMembers(Strings.Join(strs, ",") + ("}" + rest)) == Some((ms, rest))
  {
    if |ms| == 1 {
      MembersLast(ms, texts, strs, rest);
    } else {
      MembersMore(ms, texts, strs, rest);
      MembersRoundTrip(ms[1..], texts[1..], strs[1..], rest);
      assert [ms[0]] + ms[1..] == ms;
    }
  }

  /** A text that starts like a literal, a string or a number is read by the scalar reader. */
  lemma ScalarStart(t: string)
    requires t != [] && (t[0] == 'n' || t[0] == 't' || t[0] == 'f' || t[0] == '"' || t[0] == '-' || IsDigit(t[0]))
    ensures ParseValue(t) == ParseScalar(t)
  {
    assert SkipWs(t) == t;
  }

  lemma LiteralRoundTrip(v: Value, rest: string)
    requires v.Null? || v.Bool?
    ensures ParseValue(Stringify(v) + rest) == Some((v, rest))
  {
    var w := Stringify(v);
    var x := w + rest;
    assert x[..|w|] == w && x[|w|..] == rest;
    ScalarStart(x);
  }

  lemma StringRoundTrip(s: string, rest: string)
    ensures ParseValue(Quote(s) + rest) == Some((Str(s), rest))
  {
    var x := Quote(s) + rest;
    assert x[1..] == Escape(s) + "\"" + rest;
    EscapeRoundTrip(s, rest);
    ScalarStart(x);
  }

  lemma IntRoundTrip(n: int, rest: string)
    requires Delimited(rest)
    ensures ParseValue(IntToDecimal(n) + rest) == Some((Num(n), rest))
  {
    var x := IntToDecimal(n) + rest;
    NumberRoundTrip(n, rest);
    ScalarStart(x);
  }

  lemma ScalarRoundTrip(v: Value, rest: string)
    requires !v.Arr? && !v.Obj? && Delimited(rest)
    ensures ParseValue(Stringify(v) + rest) == Some((v, rest))
  {
    match v
    case Null => LiteralRoundTrip(v, rest);
    case Bool(_) => LiteralRoundTrip(v, rest);
    case Num(n) => IntRoundTrip(n, rest);
    case Str(s) => StringRoundTrip(s, rest);
  }

  lemma ArrRoundTrip(items: seq<Value>, rest: string)
    requires forall i :: 0 <= i < |items| ==> ParsesBack(items[i])
    ensures ParseValue(Stringify(Arr(items)) + rest) == Some((Arr(items), rest))
  {
    var strs := ItemTexts(items);
    var body := Strings.Join(strs, ",") + ("]" + rest);
    assert Stringify(Arr(items)) == "[" + Strings.Join(strs, ",") + "]";
    assert Stringify(Arr(items)) + rest == "[" + body;
    if items == [] {
      assert ("[" + body)[1..] == body;
    } else {
      assert forall i :: 0 <= i < |items| ==> TextOf(strs[i], items[i]);
      StringifyStart(items[0]);
      JoinStart(strs, ",");
      ElementsRoundTrip(items, strs, rest);
      ArrayText(body, items, rest);
    }
  }

  /** Each member's text is its quoted key, a colon and its value's text. */
  lemma MemberHeads(ms: seq<Member>)
    requires forall i :: 0 <= i < |ms| ==> ParsesBack(ms[i].value)
    ensures forall i :: 0 <= i < |ms| ==> HeadOf(MemberTexts(ms)[i], ms[i], ValueTexts(ms)[i])
  {
  }

  /** An object's text, split into its members' texts. */
  lemma ObjText(ms: seq<Member>, rest: string)
    ensures Stringify(Obj(ms)) + rest == "{" + (Strings.Join(MemberTexts(ms), ",") + ("}" + rest))
  {
    assert Stringify(Obj(ms)) == "{" + Strings.Join(MemberTexts(ms), ",") + "}";
  }

  lemma ObjBodyRoundTrip(ms: seq<Member>, rest: string)
    requires ms != [] && UniqueKeys(ms)
    requires forall i :: 0 <= i < |ms| ==> ParsesBack(ms[i].value)
    ensures ParseValue("{" + (Strings.Join(MemberTexts(ms), ",") + ("}" + rest))) == Some((Obj(ms), rest))
  {
    var strs := MemberTexts(ms);
    var body := Strings.Join(strs, ",") + ("}" + rest);
    MemberHeads(ms);
    JoinStart(strs, ",");
    MembersRoundTrip(ms, ValueTexts(ms), strs, rest);
    ObjectText(body, ms, rest);
    assert [] + ms == ms;
    CollectUnique([], ms);
  }

  lemma ObjRoundTrip(ms: seq<Member>, rest: string)
    requires UniqueKeys(ms)
    requires forall i :: 0 <= i < |ms| ==> ParsesBack(ms[i].value)
    ensures ParseValue(Stringify(Obj(ms)) + rest) == Some((Obj(ms), rest))
  {
    ObjText(ms, rest);
    if ms == [] {
      var x := "{" + (Strings.Join(MemberTexts(ms), ",") + ("}" + rest));
      assert x == "{}" + rest;
      assert SkipWs(x) == x && SkipWs(x[1..]) == x[1..];
    } else {
      ObjBodyRoundTrip(ms, rest);
    }
  }

  lemma {:induction false} StringifyRoundTrip(v: Value, rest: string)
    requires WellFormed(v) && Delimited(rest)
    ensures ParseValue(Stringify(v) + rest) == Some((v, rest))
    decreases v
  {
    match v
    case Arr(items) =>
      forall i | 0 <= i < |items| ensures ParsesBack(items[i]) {
        forall r | Delimited(r) ensures ReadsAs(Stringify(items[i]), items[i], r) {
          StringifyRoundTrip(items[i], r);
        }
      }
      ArrRoundTrip(items, rest);
    case Obj(ms) =>
      forall i | 0 <= i < |ms| ensures ParsesBack(ms[i].value) {
        forall r | Delimited(r) ensures ReadsAs(Stringify(ms[i].value), ms[i].value, r) {
          StringifyRoundTrip(ms[i].value, r);
        }
      }
      ObjRoundTrip(ms, rest);
    case _ =>
      ScalarRoundTrip(v, rest);
  }

  /** `JSON.parse(JSON.stringify(v))` is `v` for every value whose objects have distinct keys. */
  lemma ParseStringify(v: Value)
    requires WellFormed(v)
    ensures Parse(Stringify(v)) == Some(v)
  {
    StringifyRoundTrip(v, []);
    assert Stringify(v) + [] == Stringify(v);
  }

  // ---------------------------------------------------------------------------
  // Objects, continued

  /** Assigning to an existing property changes no key and no position. */
  lemma {:induction false} PutInPlace(ms: seq<Member>, k: string, v: Value)
    requires k in KeySet(ms)
    ensures |Put(ms, k, v)| == |ms|
    ensures forall i :: 0 <= i < |ms| ==> Put(ms, k, v)[i].key == ms[i].key
  {
    if ms[0].key != k {
      PutInPlace(ms[1..], k, v);
      assert forall i :: 1 <= i < |ms| ==> Put(ms, k, v)[i] == Put(ms[1..], k, v)[i - 1];
    }
  }
}
