/** Node's `"hex"` encoding of buffers, as `digest("hex")` and `Buffer.from(s, "hex")` use it. */
module Hex {

  import opened Wrappers
  import opened Bytes

  predicate AllHex(s: string) {
    forall i :: 0 <= i < |s| ==> HexValue(s[i]).Some?
  }

  /** Hex digits as `toString("hex")` writes them: digits and lowercase `a` to `f` only. */
  predicate AllLowerHex(s: string) {
    forall i :: 0 <= i < |s| ==> IsLowerHexDigit(s[i])
  }

  /** Two lowercase hex digits per byte, high nibble first. */
  function Encode(b: seq<byte>): (s: string)
    ensures |s| == 2 * |b|
    ensures AllHex(s) && AllLowerHex(s)
    ensures '.' !in s
  {
    if b == [] then []
    else [HexDigit(b[0] / 16), HexDigit(b[0] % 16)] + Encode(b[1..])
  }

  /**
   * Node's decoder reads the string two characters at a time and stops at the
   * first pair that is not two hex digits; an odd last character is dropped.
   */
  function Decode(s: string): (b: seq<byte>)
    ensures |b| <= |s| / 2
  {
    if |s| < 2 then []
    else
      match (HexValue(s[0]), HexValue(s[1]))
      case (Some(hi), Some(lo)) => [hi * 16 + lo] + Decode(s[2..])
      case _ => []
  }

  lemma {:induction false} DecodeEncode(b: seq<byte>)
    ensures Decode(Encode(b)) == b
  {
    if b != [] {
      var s := Encode(b);
      assert s[2..] == Encode(b[1..]);
      DecodeEncode(b[1..]);
    }
  }

  lemma EncodeInjective(a: seq<byte>, b: seq<byte>)
    requires Encode(a) == Encode(b)
    ensures a == b
  {
    DecodeEncode(a);
    DecodeEncode(b);
  }

  /** A prefix of whole hex pairs decodes on its own, and the rest decodes after it. */
  lemma {:induction false} DecodeAppend(x: string, y: string)
    requires |x| % 2 == 0 && AllHex(x)
    ensures Decode(x + y) == Decode(x) + Decode(y)
    ensures |Decode(x)| == |x| / 2
  {
    if x != [] {
      assert (x + y)[2..] == x[2..] + y;
      DecodeAppend(x[2..], y);
    } else {
      assert x + y == y;
    }
  }

  /** The decoded buffer holds at least `n` bytes exactly when the first `2 * n` characters are hex digits. */
  lemma {:induction false} DecodeAtLeast(s: string, n: nat)
    ensures |Decode(s)| >= n <==> |s| >= 2 * n && AllHex(s[..2 * n])
  {
    if n > 0 && |s| >= 2 {
      if HexValue(s[0]).Some? && HexValue(s[1]).Some? {
        DecodeAtLeast(s[2..], n - 1);
        if |s| >= 2 * n {
          assert s[2..][..2 * n - 2] == s[..2 * n][2..];
          assert AllHex(s[..2 * n]) <==> AllHex(s[..2 * n][2..]);
        }
      } else if |s| >= 2 * n {
        assert !HexValue(s[..2 * n][0]).Some? || !HexValue(s[..2 * n][1]).Some?;
      }
    }
  }
}
