/**
 * The password hasher: a PBKDF2 key written in hex with the salt appended, and the
 * comparison that recovers the salt from a stored hash, re-derives the key and
 * compares the two decoded buffers.
 */
module CredentialHasher {

  import opened Wrappers
  import opened Bytes
  import Hex

  /** The derived key is 64 bytes long. */
  const KeyLength: nat := 64

  /** The key takes two hex characters per byte, so the salt starts at character 128. */
  const KeyTextLength: nat := 2 * KeyLength

  /** The iteration count `generateHash` uses when none is given. */
  const DefaultIterations: int := 100000

  /** Node accepts iteration counts from 1 up to the largest 32-bit signed integer. */
  const MaxIterations: int := 0x7fff_ffff

  type Key = b: seq<byte> | |b| == KeyLength witness seq(64, _ => 0 as byte)

  /**
   * `crypto.pbkdf2(password, salt, iterations, 64, "sha512")`: PBKDF2 with HMAC-SHA-512 as
   * its pseudorandom function (section 5.2 of RFC 8018), keyed by the UTF-8 bytes of the
   * password and salted by those of the salt. Only its determinism and its key length
   * are assumed.
   */
  type Pbkdf2 = (string, string, int) -> Key

  /** The errors the two operations can raise. */
  datatype HashError =
    | IterationsOutOfRange  // `crypto.pbkdf2` rejects the iteration count
    | LengthMismatch        // `crypto.timingSafeEqual` is given buffers of different lengths

  /**
   * `generateHash(password, salt, iterations)`: the derived key in lowercase hex, followed
   * by the salt as it was given. An iteration count Node refuses rejects the promise.
   */
  function GenerateHash(password: string, salt: string, iterations: int, pbkdf2: Pbkdf2): (r: Result<string, HashError>)
    ensures r.Failure? <==> !(1 <= iterations <= MaxIterations)
    ensures r.Failure? ==> r.error == IterationsOutOfRange
    ensures r.Success? ==>
      && |r.value| == KeyTextLength + |salt|
      && Hex.AllHex(r.value[..KeyTextLength])
      && Hex.AllLowerHex(r.value[..KeyTextLength])
      && Hex.Decode(r.value[..KeyTextLength]) == pbkdf2(password, salt, iterations)
      && r.value[KeyTextLength..] == salt
  {
    if 1 <= iterations <= MaxIterations then
      var key := pbkdf2(password, salt, iterations);
      var text := Hex.Encode(key);
      assert (text + salt)[..KeyTextLength] == text;
      Hex.DecodeEncode(key);
      Success(text + salt)
    else
      Failure(IterationsOutOfRange)
  }

  /** `hashedPassword.slice(128)`: everything after the key part, empty when there is nothing after it. */
  function StoredSalt(stored: string): (salt: string)
    ensures |stored| >= KeyTextLength ==> stored == stored[..KeyTextLength] + salt
    ensures |stored| <= KeyTextLength ==> salt == []
  {
    if |stored| >= KeyTextLength then stored[KeyTextLength..] else []
  }

  /** The salt a hash was generated with is the salt recovered from it. */
  lemma SaltRecovered(password: string, salt: string, iterations: int, pbkdf2: Pbkdf2)
    requires 1 <= iterations <= MaxIterations
    ensures StoredSalt(GenerateHash(password, salt, iterations, pbkdf2).value) == salt
  {
  }

  /** `crypto.timingSafeEqual(a, b)`: throws unless both buffers have the same length. */
  function TimingSafeEqual(a: seq<byte>, b: seq<byte>): (r: Result<bool, HashError>)
    ensures r.Failure? <==> |a| != |b|
    ensures r.Failure? ==> r.error == LengthMismatch
    ensures r.Success? ==> (r.value <==> a == b)
  {
    if |a| != |b| then Failure(LengthMismatch) else Success(a == b)
  }

  /**
   * `comparePasswords(enteredPassword, hashedPassword)`: re-hashes the entered password with
   * the recovered salt and the default iteration count, then compares
   * `Buffer.from(·, "hex")` of both strings.
   */
  function ComparePasswords(entered: string, stored: string, pbkdf2: Pbkdf2): (r: Result<bool, HashError>)
    ensures r.Failure? ==> r.error == LengthMismatch
  {
    var rehashed := GenerateHash(entered, StoredSalt(stored), DefaultIterations, pbkdf2).value;
    TimingSafeEqual(Hex.Decode(rehashed), Hex.Decode(stored))
  }

  /** The re-derived string decodes to the fresh key followed by the decoded salt. */
  lemma RehashedBuffer(entered: string, salt: string, pbkdf2: Pbkdf2)
    ensures var rehashed := GenerateHash(entered, salt, DefaultIterations, pbkdf2).value;
      Hex.Decode(rehashed) == pbkdf2(entered, salt, DefaultIterations) + Hex.Decode(salt)
  {
    var key := pbkdf2(entered, salt, DefaultIterations);
    Hex.DecodeAppend(Hex.Encode(key), salt);
    Hex.DecodeEncode(key);
  }

  /**
   * A stored hash whose first 128 characters are hex digits matches exactly when they
   * decode to the key derived from the entered password, its own salt and 100000 iterations.
   */
  lemma CompareKeyPortions(entered: string, stored: string, pbkdf2: Pbkdf2)
    requires |stored| >= KeyTextLength && Hex.AllHex(stored[..KeyTextLength])
    ensures ComparePasswords(entered, stored, pbkdf2) ==
      Success(Hex.Decode(stored[..KeyTextLength]) == pbkdf2(entered, StoredSalt(stored), DefaultIterations))
  {
    var salt := StoredSalt(stored);
    var key: seq<byte> := pbkdf2(entered, salt, DefaultIterations);
    var kept: seq<byte> := Hex.Decode(stored[..KeyTextLength]);
    RehashedBuffer(entered, salt, pbkdf2);
    Hex.DecodeAppend(stored[..KeyTextLength], salt);
    assert |kept| == KeyLength;
    var tail: seq<byte> := Hex.Decode(salt);
    if key + tail == kept + tail {
      assert key == (key + tail)[..KeyLength];
      assert kept == (kept + tail)[..KeyLength];
    }
  }

  /**
   * The comparison raises exactly when the stored hash does not begin with 128 hex digits;
   * in particular a stored hash shorter than 128 characters raises instead of failing to match.
   */
  lemma CompareRaises(entered: string, stored: string, pbkdf2: Pbkdf2)
    ensures ComparePasswords(entered, stored, pbkdf2).Failure? <==>
      !(|stored| >= KeyTextLength && Hex.AllHex(stored[..KeyTextLength]))
    ensures |stored| < KeyTextLength ==> ComparePasswords(entered, stored, pbkdf2) == Failure(LengthMismatch)
  {
    if |stored| >= KeyTextLength && Hex.AllHex(stored[..KeyTextLength]) {
      CompareKeyPortions(entered, stored, pbkdf2);
    } else {
      var salt := StoredSalt(stored);
      RehashedBuffer(entered, salt, pbkdf2);
      Hex.DecodeAtLeast(stored, KeyLength);
    }
  }

  /**
   * Comparing against a generated hash re-derives with the same salt, so it matches exactly
   * when the key for the entered password at 100000 iterations is the stored key.
   */
  lemma CompareGenerated(entered: string, password: string, salt: string, iterations: int, pbkdf2: Pbkdf2)
    requires 1 <= iterations <= MaxIterations
    ensures ComparePasswords(entered, GenerateHash(password, salt, iterations, pbkdf2).value, pbkdf2) ==
      Success(pbkdf2(password, salt, iterations) == pbkdf2(entered, salt, DefaultIterations))
  {
    var stored := GenerateHash(password, salt, iterations, pbkdf2).value;
    CompareKeyPortions(entered, stored, pbkdf2);
  }

  /** A password matches the hash generated from it with the default iteration count. */
  lemma OwnHashMatches(password: string, salt: string, pbkdf2: Pbkdf2)
    ensures ComparePasswords(password, GenerateHash(password, salt, DefaultIterations, pbkdf2).value, pbkdf2) == Success(true)
  {
    CompareGenerated(password, password, salt, DefaultIterations, pbkdf2);
  }

  /**
   * The comparison always re-derives with 100000 iterations: a hash generated with another
   * count, whose key differs, does not match even the right password.
   */
  lemma OtherIterationsRejected(password: string, salt: string, iterations: int, pbkdf2: Pbkdf2)
    requires 1 <= iterations <= MaxIterations
    requires pbkdf2(password, salt, iterations) != pbkdf2(password, salt, DefaultIterations)
    ensures ComparePasswords(password, GenerateHash(password, salt, iterations, pbkdf2).value, pbkdf2) == Success(false)
  {
    CompareGenerated(password, password, salt, iterations, pbkdf2);
  }
}
