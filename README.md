# A verified model of a JWT-like token engine and a PBKDF2 password hasher

This project models two files of a small Node.js authentication service:

- **`utils/jwtEquivalent.js`**, the token engine.
  - `signMyJWT(payload, secret, options)` builds a header object `{alg, typ}`. It also builds a payload object: the claims with `expireAt` set. A claim of that name keeps its place; otherwise `expireAt` is added after the other claims.
  - It serialises both objects with `JSON.stringify` and encodes each as unpadded base64url.
  - It signs the two encoded segments with an HMAC-SHA-256 over their concatenation and joins the three parts with `.`.
  - It sets `options.expireAt` on the caller's options object as a side effect.
  - `verifyMyJWT(token, secret)` rejects a string without `.` and splits on `.`. It checks the signature only when a non-empty third segment is present, using the digest named by the header's `alg`.
  - It then parses the payload, rejects it when `expireAt` is truthy and before the current second, and returns the payload with `expireAt` removed.
- **`utils/bcryptEquivalent.js`**, the password hasher.
  - `generateHash(password, salt, iterations)` returns the 64-byte PBKDF2-HMAC-SHA-512 key (section 5.2 of RFC 8018) in lowercase hex, followed by the salt.
  - `comparePasswords(entered, stored)` takes the salt as everything after character 128 and re-hashes with 100000 iterations. It then compares `Buffer.from(·, "hex")` of both strings with `crypto.timingSafeEqual`, which throws when the buffers differ in length.

## How the model is built

Both files are pure apart from the `options.expireAt` assignment. They become Dafny functions with lemmas:

- `Sign` returns the token together with the updated options object (`Signed`).
- `TokenEngine.Primitives` is a value of function-typed fields. It holds the HMAC, Node's "is this digest known" test, and the UTF-8 encoder and decoder.
- The PBKDF2 derivation is a function parameter of type `CredentialHasher.Pbkdf2`.
- These are the foreign calls. Being functions, they are deterministic. Every other assumption about them is a hypothesis of the lemma that needs it:
  - UTF-8 decoding undoes encoding (`Utf8RoundTrip`). The round-trip and rejection lemmas all take this.
  - Node knows the digest `sha256` (`SignVerify`, `DefaultLifetimeRoundTrip`, `WrongSecretRejected`). `ForeignDigestRejected` also takes it that Node knows the header's digest.
  - The `sha256` HMAC of the signed message (`SignedMessage`: header segment then payload segment) is non-empty (`WrongSecretRejected`, `UnusableDigestRejected`, `ForeignDigestRejected`).
  - On that same message, the other secret's HMAC differs from the signer's (`WrongSecretRejected`), and the header digest's HMAC differs from the `sha256` one (`ForeignDigestRejected`).
  - The PBKDF2 key at the other iteration count differs from the key at 100000 (`OtherIterationsRejected`).
  - The lemmas about signed tokens also require the claims object to have distinct keys, as every object `JSON.parse` builds does.
  - `SignVerify`, `WrongSecretRejected`, `UnusableDigestRejected` and `ForeignDigestRejected` also require the given options to be well formed (`OptionsWellFormed`). Their `alg`, `typ` and `expireAt`, when present, must be JSON values whose objects have distinct keys, so that the header and payload parse back to what was written.
- The clock is the parameter `nowMs` (what `Date.now()` returns). The salt is always a parameter.

The supporting modules model the JavaScript built-ins the two files lean on:

- `Json`: a JSON value type with insertion-ordered objects, plus `JSON.stringify` and a `JSON.parse` that round-trip.
- `JsValues`: truthiness, property reads (including the `TypeError` on `null`), the loose `<` against a number (including the `TypeError` for a value with no primitive value), and object rest.
- `Base64Url` and `Hex`: Node's buffer codecs. The decoders are lenient, as Node's are.
- `Strings`: `split` and `join`.

Because every function is deterministic, `generateHash` for a fixed salt and iteration count, and `signMyJWT` for fixed inputs and clock, always give the same result.

Quirks of the code that the model keeps:

- **Fewer than three segments.** A token such as `a.b` or `a.b.` is read with no signature check at all: the check runs only when a non-empty third segment is present (`TwoSegmentsUnsigned`, `EmptySignatureUnsigned`).
- **Signing digest.** The signer always signs with `sha256`, whatever `options.alg` says, while the verifier uses the header's `alg`. A token signed with another `alg` therefore fails its own verification, unless Node resolves that name to the same digest (`SHA256` and `RSA-SHA256` give the `sha256` HMAC). `UnusableDigestRejected` covers a missing, non-string or unknown `alg`. `ForeignDigestRejected` covers a known `alg` whose HMAC of the signed message differs from the `sha256` one, and takes that difference as its hypothesis.
- **Salt position.** The comparison takes as the salt everything after character 128 of the stored hash, however long the rest is (`SaltRecovered`).
- **Malformed stored hashes.** A stored hash that is short, or not hex in its first 128 characters, makes the comparison throw rather than return `false` (`CompareRaises`).
- **Unchecked `expireAt`.** The payload's `expireAt` is compared with JavaScript's loose `<`. It is not required to be an integer, and a falsy one never expires. An object with its own `toString` member, or an array holding one at any depth, has no primitive value. For such an `expireAt` the comparison throws a `TypeError` (`ToStringMemberThrows`).

## Model

| member | source | states |
|---|---|---|
| Strings.Split | utils/jwtEquivalent.js:59 | `split(".")` gives at least one dot-free part, the parts joined back with `.` are the input, and there are two or more parts exactly when the input holds a `.` |
| Strings.SplitJoin | utils/jwtEquivalent.js:59 | splitting the join of dot-free parts gives those parts back |
| Strings.SplitPrefix | utils/jwtEquivalent.js:59 | a dot-free first part followed by `.` is split off ahead of the parts of the rest |
| Base64Url.Encode | utils/jwtEquivalent.js:26-33 | the base64url text has (4n+2)/3 characters each a letter, a digit, `-` or `_` (never `+`, `/` or `=`), and so no `.` |
| Base64Url.EncodeLastCharacter | utils/jwtEquivalent.js:26-33 | after a final partial group, the last character's unused low bits (four after one byte, two after two) are zero |
| Base64Url.DecodeEncode | utils/jwtEquivalent.js:65 | decoding a segment the signer encoded gives the same bytes back |
| Hex.Encode | utils/jwtEquivalent.js:39 | hex text has two lowercase hex digits (`0`-`9`, `a`-`f`) per byte and no `.` |
| Hex.DecodeEncode | utils/bcryptEquivalent.js:61-62 | `Buffer.from(hex, "hex")` undoes `toString("hex")` |
| Hex.EncodeInjective | utils/jwtEquivalent.js:74 | two byte strings with the same hex text are equal |
| Hex.DecodeAppend | utils/bcryptEquivalent.js:61-62 | a whole-pair hex prefix decodes to half its length, and the rest decodes after it |
| Hex.DecodeAtLeast | utils/bcryptEquivalent.js:62 | the decoded buffer has at least n bytes exactly when the first 2n characters are hex digits |
| Json.Put | utils/jwtEquivalent.js:20-23 | `{...claims, expireAt}` gives `expireAt` the new value, keeps every other key and its value, and appends `expireAt` last when it was not already there |
| Json.Remove | utils/jwtEquivalent.js:91 | leaving `expireAt` out removes that key only and keeps the remaining keys and values |
| Json.PutInPlace | utils/jwtEquivalent.js:20-23 | assigning to a key already present keeps the number of members and the key at every position |
| Json.RemoveAppend | utils/jwtEquivalent.js:91 | leaving a key out of two joined lists is leaving it out of each, and a single member is kept exactly when its key differs, so the other members keep their order |
| Json.RemovePut | utils/jwtEquivalent.js:20-23 | overwriting a key and then removing it is the same as removing it |
| Json.ParseStringify | utils/jwtEquivalent.js:14-23 | `JSON.parse(JSON.stringify(v))` is `v` for every value whose objects have distinct keys |
| JsValues.NumberValue | utils/jwtEquivalent.js:87 | for `<`, the conversion throws exactly for a value with no primitive value (an object with its own `toString`, or an array holding one at any depth); numbers are themselves, `null` is 0, booleans are 0 or 1, and other objects are `NaN` |
| JsValues.DecimalStringNumber | utils/jwtEquivalent.js:87 | a number written as a string of decimal digits, with an optional sign, compares as that number |
| JsValues.RestWithout | utils/jwtEquivalent.js:91 | `{expireAt, ...data}` throws on `null`; otherwise `data` has no `expireAt` and every other key as before |
| JsValues.IndexedRestKept | utils/jwtEquivalent.js:91 | rest without `expireAt` on a string or an array keeps every element, as its spread does |
| JsValues.IndexKeysKept | utils/jwtEquivalent.js:91 | rest without a non-index name keeps every element of an array or a string |
| TokenEngine.EncodeSegment | utils/jwtEquivalent.js:26-33 | an encoded segment holds no `.` |
| TokenEngine.Signature | utils/jwtEquivalent.js:36-39 | the hex HMAC over header text followed by payload text is dot-free and twice the digest's length |
| TokenEngine.SignedOptions | utils/jwtEquivalent.js:3-11 | the options object keeps `alg` and `typ` and always ends up with an `expireAt` |
| TokenEngine.TokenSegments | utils/jwtEquivalent.js:14-39 | all three segments are dot-free, and the third is the `sha256` HMAC of the first two with the signing secret |
| TokenEngine.Sign | utils/jwtEquivalent.js:3-43 | the token splits on `.` into exactly header, payload and signature, and the options object gains `expireAt` |
| TokenEngine.ThreeParts | utils/jwtEquivalent.js:42 | joining three dot-free parts with `.` and splitting gives the three parts |
| TokenEngine.MoreParts | utils/jwtEquivalent.js:59 | what follows a third `.` only adds parts after the first three |
| TokenEngine.CheckSignature | utils/jwtEquivalent.js:62-79 | the header check fails only with a parse, type, digest or signature error; the parse error comes exactly when the header does not parse, a header that parses to a non-object is a type error, and a pass requires the third segment to be the HMAC of a known digest |
| TokenEngine.CheckPayload | utils/jwtEquivalent.js:86-92 | the result is a type error exactly when the payload is `null` or its `expireAt` is truthy with no primitive value; otherwise the payload is expired exactly when `expireAt` is truthy and less than the current second; the result has no `expireAt` and all the other keys |
| TokenEngine.VerifyPayload | utils/jwtEquivalent.js:82-92 | a payload that does not parse is a syntax error, and returned claims never carry `expireAt` |
| TokenEngine.Verify | utils/jwtEquivalent.js:45-93 | the missing-parts error is raised exactly for strings without `.`, and returned claims never carry `expireAt` |
| TokenEngine.TwoSegmentsUnsigned | utils/jwtEquivalent.js:59-62 | a two-segment token is read as its payload alone, with no HMAC computed |
| TokenEngine.EmptySignatureUnsigned | utils/jwtEquivalent.js:62 | an empty third segment skips the signature check |
| TokenEngine.SignedChecked | utils/jwtEquivalent.js:62-84 | with a non-empty third segment, a failed header check is the result, and otherwise the payload is read |
| TokenEngine.ExtraSegmentsIgnored | utils/jwtEquivalent.js:59 | segments after the third do not change the result |
| TokenEngine.HeaderDigest | utils/jwtEquivalent.js:69-78 | under a header naming a known digest, the check passes exactly when the third segment is that digest's HMAC, and otherwise fails with the signature error |
| TokenEngine.IntegerExpiry | utils/jwtEquivalent.js:87-89 | an integer `expireAt` expires exactly when it is non-zero and strictly below the current second; equal to it passes |
| TokenEngine.ToStringMemberThrows | utils/jwtEquivalent.js:87 | an `expireAt` of `{"toString":1}`, or of an array of arrays holding such an object, makes the check throw a type error |
| TokenEngine.FalsyExpiryKept | utils/jwtEquivalent.js:87-92 | a missing or falsy `expireAt` never expires, and a payload without one comes back unchanged |
| TokenEngine.SegmentRoundTrip | utils/jwtEquivalent.js:26-33 | a value encoded as a segment decodes and parses back to itself |
| TokenEngine.HeaderWellFormed | utils/jwtEquivalent.js:14-17 | the header object has distinct keys |
| TokenEngine.PayloadWellFormed | utils/jwtEquivalent.js:20-23 | the payload object has distinct keys and carries the given `expireAt` |
| TokenEngine.SignedOptionsWellFormed | utils/jwtEquivalent.js:11 | setting `expireAt` keeps well-formed options well formed |
| TokenEngine.SegmentsDecode | utils/jwtEquivalent.js:64-66 | the signed header and payload segments parse back to the objects that were written |
| TokenEngine.SegmentsPayload | utils/jwtEquivalent.js:82-92 | a signed payload verifies to the claims without `expireAt`, unless the recorded `expireAt` has no primitive value (a type error) or has passed |
| TokenEngine.OptionsHeaderCheck | utils/jwtEquivalent.js:62-79 | the check of a header written from given options: type error without a string `alg`, digest error for an unknown one, signature error on mismatch, otherwise pass |
| TokenEngine.SegmentsHeaderCheck | utils/jwtEquivalent.js:62-79 | on signed segments the check uses the recorded `alg` against the `sha256` signature |
| TokenEngine.VerifySigned | utils/jwtEquivalent.js:45-93 | a signed token is verified through its own three segments |
| TokenEngine.SignVerify | utils/jwtEquivalent.js:3-93 | round trip: with `alg` `sha256` and the same secret, verification returns the claims without `expireAt`; if the recorded `expireAt` has no primitive value it gives the type error, and once `expireAt` has passed it gives the expiry error |
| TokenEngine.DefaultLifetimeRoundTrip | utils/jwtEquivalent.js:11-89 | without options, a token verifies until the current second exceeds the signing second plus 300 |
| TokenEngine.WrongSecretRejected | utils/jwtEquivalent.js:74-78 | a secret whose HMAC of the signed message differs from the signer's gives the signature error |
| TokenEngine.UnusableDigestRejected | utils/jwtEquivalent.js:62-72 | a token signed with options whose `alg` is missing or not a string, or is a digest Node does not know, fails its own verification |
| TokenEngine.ForeignDigestRejected | utils/jwtEquivalent.js:36-78 | a token whose `alg` names a known digest whose HMAC of the signed message differs from the `sha256` one fails its own verification with the signature error |
| TokenEngine.SignedClaims | utils/jwtEquivalent.js:11-23 | `expireAt` is the given one when truthy, otherwise the current second plus 300; it overrides a claim of that name in its place, keeping every key's position, is appended last when there is none, and leaves every other claim alone |
| CredentialHasher.GenerateHash | utils/bcryptEquivalent.js:3-42 | fails exactly for iteration counts outside 1 to 2^31-1; otherwise the result has 128 + length-of-salt characters, the first 128 are lowercase hex digits that decode to the derived key, and the rest is the salt |
| CredentialHasher.SaltRecovered | utils/bcryptEquivalent.js:34-52 | the salt recovered from a generated hash is the salt it was generated with |
| CredentialHasher.ComparePasswords | utils/bcryptEquivalent.js:45-66 | the only error the comparison can raise is the length mismatch |
| CredentialHasher.RehashedBuffer | utils/bcryptEquivalent.js:55-61 | the re-derived string decodes to the fresh key followed by the decoded salt |
| CredentialHasher.CompareKeyPortions | utils/bcryptEquivalent.js:52-66 | for a stored hash beginning with 128 hex digits, the result is whether they decode to the key derived from the entered password, its own salt and 100000 iterations |
| CredentialHasher.CompareRaises | utils/bcryptEquivalent.js:52-63 | the comparison throws exactly when the stored hash does not begin with 128 hex digits, in particular when it is shorter than 128 characters |
| CredentialHasher.CompareGenerated | utils/bcryptEquivalent.js:3-66 | comparing against a generated hash matches exactly when the stored key equals the 100000-iteration key of the entered password |
| CredentialHasher.OwnHashMatches | utils/bcryptEquivalent.js:34-66 | a password matches a hash generated from it with the default iteration count |
| CredentialHasher.OtherIterationsRejected | utils/bcryptEquivalent.js:6-55 | a hash generated with another iteration count, whose key differs, does not match even the right password |

## Left out

- HMAC-SHA-256, PBKDF2-HMAC-SHA-512, Node's digest-name table and UTF-8 conversion are foreign `node:crypto` and `Buffer` code. They are function parameters, not implementations.
- The constant-time behaviour of `timingSafeEqual` and the plain `!==` signature comparison cannot be stated as values. Both are modelled as equality.
- The promise and callback machinery of `generateHash` is left out. A rejected promise is a failure result.
- The random default salt (`crypto.randomBytes(16)`) is left out. The salt is always given. With the default 32-character salt, the hash has 160 characters, in line with `GenerateHash`.
- `Date.now()` is left out. The current time in milliseconds is a parameter.
- `Sign` returns the updated options instead of mutating the caller's object. Aliasing of that object with other references is not captured.
- The JSON model has `null`, booleans, integers, strings, arrays and objects. The following are not modelled:
  - Fractions and exponents. The parser refuses numbers that have them.
  - Floating-point precision. Integers of any size are read and written exactly. JavaScript rounds integers above 2^53 and writes numbers from 1e21 up with an exponent.
  - Lone surrogate escapes.
  - `undefined`, functions and `toJSON` values, which `JSON.stringify` drops or transforms.
  - Characters of strings are modelled as characters, not UTF-16 code units.
- JavaScript lists integer-like object keys first in numeric order. The model keeps every key in insertion order.
- JsValues.StringToNumber: converts only an optional sign followed by decimal digits, and the empty string. Whitespace trimming, hexadecimal, `Infinity`, fractions and exponents are treated as `NaN`.
- JsValues.Property: does not model properties inherited from prototypes, such as `constructor`. Only names that are neither array indices nor `length` are read, which covers `alg` and `expireAt`.
- Only string tokens, secrets, passwords and salts are modelled. The callers pass `process.env.JWT` as the secret, the second word of the `Authorization` header as the token, and request-body fields or stored profile fields as passwords. What happens when one of these is not a string, such as the `undefined` token of a header without a space, is not modelled.
- Node feeds the HMAC's two `update` calls as one message, so the model passes the concatenation.
- The HTTP controllers, the authentication middleware, the database client, the router and the response helpers are not part of this model. They are I/O and service plumbing around the two files above.
