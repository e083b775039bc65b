/**
 * The base64url encoding of section 5 of RFC 4648, without padding, as Node's
 * `Buffer.toString("base64url")` writes it, and Node's (lenient) `Buffer.from(s, "base64url")`.
 */
module Base64Url {

  import opened Wrappers
  import opened Bytes

  type Sextet = d: int | 0 <= d < 64

  /** The URL- and filename-safe alphabet: letters, digits, `-` and `_`. */
  predicate UrlSafe(c: char) {
    'A' <= c <= 'Z' || 'a' <= c <= 'z' || '0' <= c <= '9' || c == '-' || c == '_'
  }

  /** The character for a 6-bit group in the URL- and filename-safe alphabet. */
  function Letter(d: Sextet): (c: char)
    ensures LetterValue(c) == Some(d)
    ensures UrlSafe(c)
    ensures c != '.' && c != '='
  {
    if d < 26 then ('A' as int + d) as char
    else if d < 52 then ('a' as int + d - 26) as char
    else if d < 62 then ('0' as int + d - 52) as char
    else if d == 62 then '-'
    else '_'
  }

  /** Node's decoding table accepts both the URL-safe and the standard alphabet. */
  function LetterValue(c: char): Option<Sextet> {
    if 'A' <= c <= 'Z' then Some(c as int - 'A' as int)
    else if 'a' <= c <= 'z' then Some(c as int - 'a' as int + 26)
    else if '0' <= c <= '9' then Some(c as int - '0' as int + 52)
    else if c == '-' || c == '+' then Some(62)
    else if c == '_' || c == '/' then Some(63)
    else None
  }

  /** The 6-bit groups of `b`, three bytes to four groups; a final partial group is zero-filled and not padded. */
  function Sextets(b: seq<byte>): (q: seq<Sextet>)
    ensures |q| == (4 * |b| + 2) / 3
  {
    if |b| == 0 then []
    else if |b| == 1 then [b[0] / 4, (b[0] % 4) * 16]
    else if |b| == 2 then [b[0] / 4, (b[0] % 4) * 16 + b[1] / 16, (b[1] % 16) * 4]
    else [b[0] / 4, (b[0] % 4) * 16 + b[1] / 16, (b[1] % 16) * 4 + b[2] / 64, b[2] % 64] + Sextets(b[3..])
  }

  function Render(q: seq<Sextet>): (s: string)
    ensures |s| == |q|
  {
    seq(|q|, i requires 0 <= i < |q| => Letter(q[i]))
  }

  /** `Buffer.from(b).toString("base64url")` */
  function Encode(b: seq<byte>): (s: string)
    ensures |s| == (4 * |b| + 2) / 3
    ensures forall i :: 0 <= i < |s| ==> UrlSafe(s[i]) && LetterValue(s[i]).Some?
    ensures '.' !in s
  {
    Render(Sextets(b))
  }

  /** The zero-filled low bits of a final partial group: four of them after one byte, two after two bytes. */
  lemma {:induction false} SextetsLast(b: seq<byte>)
    requires |b| % 3 != 0
    ensures var q := Sextets(b); q[|q| - 1] % (if |b| % 3 == 1 then 16 else 4) == 0
  {
    var q := Sextets(b);
    if |b| == 1 {
      ZeroFilled(b[0], 0);
    } else if |b| == 2 {
      ZeroFilled(b[0], b[1]);
    } else {
      var rest := Sextets(b[3..]);
      assert q == q[..4] + rest;
      assert |b[3..]| % 3 == |b| % 3;
      SextetsLast(b[3..]);
      assert q[|q| - 1] == rest[|rest| - 1];
    }
  }

  /** The zero fill of a final partial group. */
  lemma ZeroFilled(x: byte, y: byte)
    ensures ((x % 4) * 16) % 16 == 0
    ensures ((y % 16) * 4) % 4 == 0
  {
  }

  /**
   * The last character of an encoding whose input ends in a partial group carries only zero
   * bits below the data, so the encoding of `b` is the only one Node's encoder writes for it.
   */
  lemma EncodeLastCharacter(b: seq<byte>)
    requires |b| % 3 != 0
    ensures var s := Encode(b);
      LetterValue(s[|s| - 1]).Some? && LetterValue(s[|s| - 1]).value % (if |b| % 3 == 1 then 16 else 4) == 0
  {
    SextetsLast(b);
  }

  /** The groups Node reads: characters outside the alphabets are skipped and an `=` ends the input. */
  function ReadSextets(s: string): seq<Sextet> {
    if s == [] || s[0] == '=' then []
    else
      match LetterValue(s[0])
      case Some(d) => [d] + ReadSextets(s[1..])
      case None => ReadSextets(s[1..])
  }

  /** The byte made of the six bits of `a` and the high two bits of `b`. */
  function FirstByte(a: Sextet, b: Sextet): byte {
    a * 4 + b / 16
  }

  /** The byte made of the low four bits of `b` and the high four bits of `c`. */
  function SecondByte(b: Sextet, c: Sextet): byte {
    (b as int % 16) * 16 + c as int / 4
  }

  /** The byte made of the low two bits of `c` and the six bits of `d`. */
  function ThirdByte(c: Sextet, d: Sextet): byte {
    (c as int % 4) * 64 + d as int
  }

  /** Four groups give three bytes; a final two or three groups give one or two bytes, a final single group none. */
  function Assemble(q: seq<Sextet>): seq<byte> {
    if |q| < 2 then []
    else if |q| == 2 then [FirstByte(q[0], q[1])]
    else if |q| == 3 then [FirstByte(q[0], q[1]), SecondByte(q[1], q[2])]
    else [FirstByte(q[0], q[1]), SecondByte(q[1], q[2]), ThirdByte(q[2], q[3])] + Assemble(q[4..])
  }

  /** `Buffer.from(s, "base64url")`: never fails, whatever `s` holds. */
  function Decode(s: string): seq<byte> {
    Assemble(ReadSextets(s))
  }

  lemma {:induction false} ReadRender(q: seq<Sextet>)
    ensures ReadSextets(Render(q)) == q
  {
    if q != [] {
      assert Render(q)[1..] == Render(q[1..]);
      ReadRender(q[1..]);
    }
  }

  /** The bit arithmetic of one group: four sextets give back the three bytes they were cut from. */
  lemma GroupArithmetic(x: byte, y: byte, z: byte, s0: Sextet, s1: Sextet, s2: Sextet, s3: Sextet)
    requires s0 == x / 4 && s1 == (x % 4) * 16 + y / 16 && s2 == (y % 16) * 4 + z / 64 && s3 == z % 64
    ensures FirstByte(s0, s1) == x
    ensures SecondByte(s1, s2) == y
    ensures ThirdByte(s2, s3) == z
  {
  }

  /** Four sextets that reassemble to the bytes `x`, `y`, `z` give them, then the rest. */
  lemma AssembleStep(q: seq<Sextet>, x: byte, y: byte, z: byte)
    requires |q| >= 4
    requires FirstByte(q[0], q[1]) == x && SecondByte(q[1], q[2]) == y && ThirdByte(q[2], q[3]) == z
    ensures Assemble(q) == [x, y, z] + Assemble(q[4..])
  {
  }

  /** Two or three final sextets that reassemble to the one or two bytes of `b` give `b`. */
  lemma AssembleTail(q: seq<Sextet>, b: seq<byte>)
    requires 2 <= |q| <= 3 && |b| == |q| - 1
    requires FirstByte(q[0], q[1]) == b[0]
    requires |q| == 3 ==> SecondByte(q[1], q[2]) == b[1]
    ensures Assemble(q) == b
  {
  }

  /** A single final byte comes back from its two sextets. */
  lemma AssembleOne(b: seq<byte>)
    requires |b| == 1
    ensures Assemble(Sextets(b)) == b
  {
    var q := Sextets(b);
    assert q == [b[0] / 4, (b[0] % 4) * 16];
    assert |q| == 2;
    GroupArithmetic(b[0], 0, 0, q[0], q[1], 0, 0);
    assert FirstByte(q[0], q[1]) == b[0];
    AssembleTail(q, b);
  }

  /** Two final bytes come back from their three sextets. */
  lemma AssembleTwo(b: seq<byte>)
    requires |b| == 2
    ensures Assemble(Sextets(b)) == b
  {
    var q := Sextets(b);
    GroupArithmetic(b[0], b[1], 0, q[0], q[1], q[2], 0);
    AssembleTail(q, b);
  }

  /** A whole group of three bytes comes back from its four sextets, ahead of the rest. */
  lemma AssembleGroup(b: seq<byte>)
    requires |b| >= 3
    ensures Assemble(Sextets(b)) == b[..3] + Assemble(Sextets(b[3..]))
  {
    var q := Sextets(b);
    assert q[4..] == Sextets(b[3..]);
    GroupArithmetic(b[0], b[1], b[2], q[0], q[1], q[2], q[3]);
    AssembleStep(q, b[0], b[1], b[2]);
    Prefix3(b);
  }

  lemma Prefix3(b: seq<byte>)
    requires |b| >= 3
    ensures b[..3] == [b[0], b[1], b[2]]
  {
  }

  lemma {:induction false} AssembleSextets(b: seq<byte>)
    ensures Assemble(Sextets(b)) == b
  {
    if |b| >= 3 {
      AssembleGroup(b);
      AssembleSextets(b[3..]);
      assert b == b[..3] + b[3..];
    } else if |b| == 2 {
      AssembleTwo(b);
    } else if |b| == 1 {
      AssembleOne(b);
    }
  }

  lemma DecodeEncode(b: seq<byte>)
    ensures Decode(Encode(b)) == b
  {
    ReadRender(Sextets(b));
    AssembleSextets(b);
  }
}
