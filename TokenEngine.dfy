/**
 * The token signer and verifier of `utils/jwtEquivalent.js`: a JWT-like
 * `header.payload.signature` string whose first two segments are base64url
 * JSON and whose third is a lowercase hex HMAC of the first two.
 *
 * Node's HMAC, its list of digest names and its UTF-8 codecs are foreign code;
 * they enter as a `Primitives` value, about which the lemmas state their
 * assumptions. The clock enters as a number of milliseconds.
 */
module TokenEngine {

  import opened Wrappers
  import opened Bytes
  import opened Json
  import opened JsValues
  import Strings
  import Hex
  import Base64Url

  datatype Primitives = Primitives(
    /** Whether `createHmac` accepts this digest name. */
    knownDigest: string -> bool,
    /** The digest of `createHmac(digest, secret).update(message).digest()`. */
    hmac: (string, string, string) -> seq<byte>,
    /** `Buffer.from(s, "utf8")` */
    utf8Encode: string -> seq<byte>,
    /** `buffer.toString("utf8")` */
    utf8Decode: seq<byte> -> string)

  /** Decoding what was encoded gives the same text back. */
  ghost predicate Utf8RoundTrip(p: Primitives) {
    forall s {:trigger p.utf8Encode(s)} :: p.utf8Decode(p.utf8Encode(s)) == s
  }

  /** What `verifyMyJWT` throws. */
  datatype TokenError =
    | MissingParts      // no `.` at all
    | InvalidSignature  // the third segment is not the expected HMAC
    | TokenExpired      // `expireAt` is truthy and lies in the past
    | SyntaxError       // `JSON.parse` refused a segment
    | TypeError         // a property of `null` was read, the header names no string digest, or `expireAt` has no primitive value
    | InvalidDigest     // `createHmac` does not know the header's digest

  /** The fields of the options object; `None` is a field that is not there. */
  datatype Options = Options(alg: Option<Value>, typ: Option<Value>, expireAt: Option<Value>)

  /** The options `signMyJWT` makes up when it is called without any. */
  const DefaultOptions := Options(Some(Str("sha256")), Some(Str("MyJWT")), None)

  /** The digest name the signer always uses. */
  const SigningDigest := "sha256"

  /** How long a token lives when the options do not say, in seconds. */
  const DefaultLifetime := 5 * 60

  /** `Math.floor(now / 1000)`: whole seconds since the epoch. */
  function Seconds(nowMs: int): int {
    nowMs / 1000
  }

  /** `options.expireAt || Math.floor(Date.now() / 1000) + 5 * 60` */
  function Expiry(opts: Options, nowMs: int): Value {
    if opts.expireAt.Some? && Truthy(opts.expireAt.value) then opts.expireAt.value
    else Num(Seconds(nowMs) + DefaultLifetime)
  }

  /** `{alg: options.alg, typ: options.typ}`; a field that is not there is not written. */
  function HeaderMembers(opts: Options): seq<Member> {
    (if opts.alg.Some? then [Member("alg", opts.alg.value)] else [])
    + (if opts.typ.Some? then [Member("typ", opts.typ.value)] else [])
  }

  /** `{...claims, expireAt: e}` */
  function PayloadMembers(claims: Value, e: Value): seq<Member> {
    Put(OwnMembers(claims), "expireAt", e)
  }

  /** `Buffer.from(text, "utf8").toString("base64url")` */
  function EncodeSegment(p: Primitives, text: string): (seg: string)
    ensures '.' !in seg
  {
    Base64Url.Encode(p.utf8Encode(text))
  }

  /** `Buffer.from(seg, "base64url").toString("utf8")` */
  function DecodeSegment(p: Primitives, seg: string): string {
    p.utf8Decode(Base64Url.Decode(seg))
  }

  /** `createHmac(digest, secret).update(encodedHeader).update(encodedPayload).digest("hex")` */
  function Signature(p: Primitives, digest: string, secret: string, encHeader: string, encPayload: string): (sig: string)
    ensures '.' !in sig
    ensures |sig| == 2 * |p.hmac(digest, secret, encHeader + encPayload)|
  {
    Hex.Encode(p.hmac(digest, secret, encHeader + encPayload))
  }

  /** The options the signer starts from: the ones given, or the defaults when none are. */
  function GivenOptions(given: Option<Options>): Options {
    if given.Some? then given.value else DefaultOptions
  }

  /** The options object after `signMyJWT` has set its `expireAt`. */
  function SignedOptions(given: Option<Options>, nowMs: int): (o: Options)
    ensures o.alg == GivenOptions(given).alg && o.typ == GivenOptions(given).typ
    ensures o.expireAt.Some?
  {
    var opts := GivenOptions(given);
    opts.(expireAt := Some(Expiry(opts, nowMs)))
  }

  /** The three segments of a token. */
  datatype Segments = Segments(header: string, payload: string, signature: string)

  /** The segments `signMyJWT` writes once the options hold `expireAt`. */
  function TokenSegments(claims: Value, secret: string, o: Options, p: Primitives): (seg: Segments)
    requires o.expireAt.Some?
    ensures '.' !in seg.header && '.' !in seg.payload && '.' !in seg.signature
    ensures seg.signature == Signature(p, SigningDigest, secret, seg.header, seg.payload)
  {
    var h := EncodeSegment(p, Stringify(Obj(HeaderMembers(o))));
    var pl := EncodeSegment(p, Stringify(Obj(PayloadMembers(claims, o.expireAt.value))));
    Segments(h, pl, Signature(p, SigningDigest, secret, h, pl))
  }

  /** A token and the options object as `signMyJWT` leaves it. */
  datatype Signed = Signed(token: string, options: Options)

  /**
   * `signMyJWT(claims, secret, options)`: `given` is `None` when the options argument
   * is left out. The options object gains `expireAt`, and the token splits on `.` into
   * exactly its three segments.
   */
  function Sign(claims: Value, secret: string, given: Option<Options>, nowMs: int, p: Primitives): (r: Signed)
    ensures r.options == SignedOptions(given, nowMs)
    ensures var seg := TokenSegments(claims, secret, r.options, p);
      Strings.Split(r.token, '.') == [seg.header, seg.payload, seg.signature]
  {
    var o := SignedOptions(given, nowMs);
    var seg := TokenSegments(claims, secret, o, p);
    ThreeParts(seg.header, seg.payload, seg.signature);
    Signed(seg.header + "." + seg.payload + "." + seg.signature, o)
  }

  /** Joining three dot-free segments with dots and splitting the result gives them back. */
  lemma ThreeParts(a: string, b: string, c: string)
    requires '.' !in a && '.' !in b && '.' !in c
    ensures Strings.Split(a + "." + b + "." + c, '.') == [a, b, c]
  {
    assert a + "." + b + "." + c == a + ['.'] + (b + ['.'] + c);
    Strings.SplitPrefix(a, b + ['.'] + c, '.');
    Strings.SplitPrefix(b, c, '.');
  }

  /** Whatever follows a third dot is split off into further segments. */
  lemma MoreParts(a: string, b: string, c: string, extra: string)
    requires '.' !in a && '.' !in b && '.' !in c
    ensures Strings.Split(a + "." + b + "." + c + "." + extra, '.') == [a, b, c] + Strings.Split(extra, '.')
  {
    assert a + "." + b + "." + c + "." + extra == a + ['.'] + (b + ['.'] + (c + ['.'] + extra));
    Strings.SplitPrefix(a, b + ['.'] + (c + ['.'] + extra), '.');
    Strings.SplitPrefix(b, c + ['.'] + extra, '.');
    Strings.SplitPrefix(c, extra, '.');
  }

  /** The header check: parse the header, create the HMAC it names, and compare. */
  function CheckSignature(encHeader: string, encPayload: string, sig: string, secret: string, p: Primitives): (r: Outcome<TokenError>)
    ensures r.Fail? ==> r.error in {SyntaxError, TypeError, InvalidDigest, InvalidSignature}
    ensures r == Fail(SyntaxError) <==> Parse(DecodeSegment(p, encHeader)).None?
    ensures Parse(DecodeSegment(p, encHeader)).Some? && !Parse(DecodeSegment(p, encHeader)).value.Obj? ==> r == Fail(TypeError)
    ensures r.Pass? ==> exists d {:trigger p.knownDigest(d)} :: p.knownDigest(d) && sig == Signature(p, d, secret, encHeader, encPayload)
  {
    match Parse(DecodeSegment(p, encHeader))
    case None => Fail(SyntaxError)
    case Some(header) =>
      match Property(header, "alg")
      case Failure(_) => Fail(TypeError)
      case Success(alg) =>
        if alg.None? || !alg.value.Str? then Fail(TypeError)
        else if !p.knownDigest(alg.value.s) then Fail(InvalidDigest)
        else if sig != Signature(p, alg.value.s, secret, encHeader, encPayload) then Fail(InvalidSignature)
        else Pass
  }

  /** `payload.expireAt && payload.expireAt < Math.floor(now / 1000)` holds. */
  predicate Expired(e: Option<Value>, nowSec: int) {
    e.Some? && Truthy(e.value) && LessThan(e.value, nowSec) == Success(true)
  }

  /** `payload.expireAt && payload.expireAt < …` throws: `expireAt` is truthy and has no primitive value. */
  predicate ExpiryThrows(e: Option<Value>) {
    e.Some? && Truthy(e.value) && NoPrimitive(e.value)
  }

  /** The expiry check and the removal of `expireAt`, on the parsed payload. */
  function CheckPayload(payload: Value, nowMs: int): (r: Result<seq<Member>, TokenError>)
    ensures r.Failure? ==> r.error in {TypeError, TokenExpired}
    ensures r == Failure(TypeError) <==> payload.Null? || ExpiryThrows(Property(payload, "expireAt").value)
    ensures !payload.Null? ==>
      (r == Failure(TokenExpired) <==> Expired(Property(payload, "expireAt").value, Seconds(nowMs)))
    ensures r.Success? ==> Lookup(r.value, "expireAt") == None
    ensures r.Success? ==> forall k :: k != "expireAt" ==> Lookup(r.value, k) == Lookup(OwnMembers(payload), k)
  {
    match Property(payload, "expireAt")
    case Failure(_) => Failure(TypeError)
    case Success(e) =>
      var expired := if e.Some? && Truthy(e.value) then LessThan(e.value, Seconds(nowMs)) else Success(false);
      match expired
      case Failure(_) => Failure(TypeError)
      case Success(true) => Failure(TokenExpired)
      case Success(false) =>
        match RestWithout(payload, "expireAt")
        case Failure(_) => Failure(TypeError)
        case Success(data) => Success(data)
  }

  /** Decode and parse the payload segment, then check it. */
  function VerifyPayload(encPayload: string, nowMs: int, p: Primitives): (r: Result<seq<Member>, TokenError>)
    ensures r.Failure? ==> r.error in {SyntaxError, TypeError, TokenExpired}
    ensures r == Failure(SyntaxError) <==> Parse(DecodeSegment(p, encPayload)).None?
    ensures r.Success? ==> Lookup(r.value, "expireAt") == None
  {
    match Parse(DecodeSegment(p, encPayload))
    case None => Failure(SyntaxError)
    case Some(payload) => CheckPayload(payload, nowMs)
  }

  /** `verifyMyJWT(token, secret)` at time `nowMs`: the claims without `expireAt`, or what it throws. */
  function Verify(token: string, secret: string, nowMs: int, p: Primitives): (r: Result<seq<Member>, TokenError>)
    ensures r == Failure(MissingParts) <==> '.' !in token
    ensures r.Success? ==> Lookup(r.value, "expireAt") == None
  {
    if '.' !in token then Failure(MissingParts)
    else
      var parts := Strings.Split(token, '.');
      var sig := if |parts| > 2 then parts[2] else "";
      if sig != "" then
        match CheckSignature(parts[0], parts[1], sig, secret, p)
        case Fail(e) => Failure(e)
        case Pass => VerifyPayload(parts[1], nowMs, p)
      else VerifyPayload(parts[1], nowMs, p)
  }

  // ---------------------------------------------------------------------------
  // The order of the checks

  /** A token of two segments is read without any HMAC being computed. */
  lemma TwoSegmentsUnsigned(h: string, pl: string, secret: string, nowMs: int, p: Primitives)
    requires '.' !in h && '.' !in pl
    ensures Verify(h + "." + pl, secret, nowMs, p) == VerifyPayload(pl, nowMs, p)
  {
    var token := h + "." + pl;
    assert token == h + ['.'] + pl;
    Strings.SplitPrefix(h, pl, '.');
    assert Strings.Split(token, '.') == [h, pl];
  }

  /** A token whose third segment is empty is read without any HMAC being computed. */
  lemma EmptySignatureUnsigned(h: string, pl: string, secret: string, nowMs: int, p: Primitives)
    requires '.' !in h && '.' !in pl
    ensures Verify(h + "." + pl + ".", secret, nowMs, p) == VerifyPayload(pl, nowMs, p)
  {
    var token := h + "." + pl + ".";
    assert token == h + "." + pl + "." + "";
    ThreeParts(h, pl, "");
    assert Strings.Split(token, '.') == [h, pl, ""];
  }

  /** With a non-empty third segment the header check runs first, and the payload is read only if it passes. */
  lemma SignedChecked(h: string, pl: string, sig: string, secret: string, nowMs: int, p: Primitives)
    requires '.' !in h && '.' !in pl && '.' !in sig && sig != ""
    ensures var r := Verify(h + "." + pl + "." + sig, secret, nowMs, p);
      match CheckSignature(h, pl, sig, secret, p)
      case Fail(e) => r == Failure(e)
      case Pass => r == VerifyPayload(pl, nowMs, p)
  {
    ThreeParts(h, pl, sig);
  }

  /** Segments after the third are never looked at. */
  lemma ExtraSegmentsIgnored(h: string, pl: string, sig: string, extra: string, secret: string, nowMs: int, p: Primitives)
    requires '.' !in h && '.' !in pl && '.' !in sig
    ensures Verify(h + "." + pl + "." + sig + "." + extra, secret, nowMs, p) == Verify(h + "." + pl + "." + sig, secret, nowMs, p)
  {
    ThreeParts(h, pl, sig);
    MoreParts(h, pl, sig, extra);
  }

  /** A header naming a known digest passes exactly when the third segment is that digest's HMAC. */
  lemma HeaderDigest(encHeader: string, encPayload: string, sig: string, secret: string, p: Primitives, ms: seq<Member>, digest: string)
    requires Parse(DecodeSegment(p, encHeader)) == Some(Obj(ms))
    requires Lookup(ms, "alg") == Some(Str(digest)) && p.knownDigest(digest)
    ensures CheckSignature(encHeader, encPayload, sig, secret, p) ==
      if sig == Signature(p, digest, secret, encHeader, encPayload) then Pass else Fail(InvalidSignature)
  {
  }

  // ---------------------------------------------------------------------------
  // Expiry and the returned claims

  /** An integral `expireAt` expires exactly when it is non-zero and strictly before the current second. */
  lemma IntegerExpiry(ms: seq<Member>, e: int, nowMs: int)
    requires Lookup(ms, "expireAt") == Some(Num(e))
    ensures CheckPayload(Obj(ms), nowMs) ==
      if e != 0 && e < Seconds(nowMs) then Failure(TokenExpired) else Success(Remove(ms, "expireAt"))
  {
  }

  /** An `expireAt` object with its own `toString` member cannot be compared, so verification throws. */
  lemma ToStringMemberThrows(nowMs: int)
    ensures CheckPayload(Obj([Member("expireAt", Obj([Member("toString", Num(1))]))]), nowMs) == Failure(TypeError)
    ensures CheckPayload(Obj([Member("expireAt", Arr([Arr([Obj([Member("toString", Null)])])]))]), nowMs) == Failure(TypeError)
  {
    var inner := Obj([Member("toString", Null)]);
    assert NoPrimitive(Arr([inner])) by { assert Arr([inner]).items[0] == inner; }
    assert NoPrimitive(Arr([Arr([inner])])) by { assert Arr([Arr([inner])]).items[0] == Arr([inner]); }
  }

  /** A payload object without `expireAt`, or with a falsy one, never expires and comes back with its other members in order. */
  lemma FalsyExpiryKept(ms: seq<Member>, nowMs: int)
    requires Lookup(ms, "expireAt").None? || !Truthy(Lookup(ms, "expireAt").value)
    ensures CheckPayload(Obj(ms), nowMs) == Success(Remove(ms, "expireAt"))
    ensures "expireAt" !in KeySet(ms) ==> CheckPayload(Obj(ms), nowMs) == Success(ms)
  {
  }

  // ---------------------------------------------------------------------------
  // Signing, then verifying

  predicate OptionsWellFormed(opts: Options) {
    && (opts.alg.Some? ==> WellFormed(opts.alg.value))
    && (opts.typ.Some? ==> WellFormed(opts.typ.value))
    && (opts.expireAt.Some? ==> WellFormed(opts.expireAt.value))
  }

  /** A parsed-back value survives the segment encoding when UTF-8 does. */
  lemma SegmentRoundTrip(p: Primitives, v: Value)
    requires Utf8RoundTrip(p) && WellFormed(v)
    ensures Parse(DecodeSegment(p, EncodeSegment(p, Stringify(v)))) == Some(v)
  {
    var text := Stringify(v);
    Base64Url.DecodeEncode(p.utf8Encode(text));
    assert p.utf8Decode(p.utf8Encode(text)) == text;
    ParseStringify(v);
  }

  lemma HeaderWellFormed(opts: Options)
    requires OptionsWellFormed(opts)
    ensures WellFormed(Obj(HeaderMembers(opts)))
  {
    var ms := HeaderMembers(opts);
    if opts.alg.Some? && opts.typ.Some? {
      assert ms[1..] == [Member("typ", opts.typ.value)];
      assert KeySet(ms[1..]) == {"typ"};
    }
  }

  lemma PayloadWellFormed(claims: Value, e: Value)
    requires WellFormed(Obj(OwnMembers(claims))) && WellFormed(e)
    ensures WellFormed(Obj(PayloadMembers(claims, e)))
    ensures Lookup(PayloadMembers(claims, e), "expireAt") == Some(e)
  {
  }

  /** The options after signing are well formed when the ones given were. */
  lemma SignedOptionsWellFormed(given: Option<Options>, nowMs: int)
    requires given.Some? ==> OptionsWellFormed(given.value)
    ensures OptionsWellFormed(SignedOptions(given, nowMs))
  {
  }

  /** The first two segments decode to the header and payload objects that were written. */
  lemma SegmentsDecode(claims: Value, secret: string, o: Options, p: Primitives)
    requires Utf8RoundTrip(p) && WellFormed(Obj(OwnMembers(claims))) && OptionsWellFormed(o) && o.expireAt.Some?
    ensures var seg := TokenSegments(claims, secret, o, p);
      && Parse(DecodeSegment(p, seg.header)) == Some(Obj(HeaderMembers(o)))
      && Parse(DecodeSegment(p, seg.payload)) == Some(Obj(PayloadMembers(claims, o.expireAt.value)))
  {
    HeaderWellFormed(o);
    PayloadWellFormed(claims, o.expireAt.value);
    SegmentRoundTrip(p, Obj(HeaderMembers(o)));
    SegmentRoundTrip(p, Obj(PayloadMembers(claims, o.expireAt.value)));
  }

  /**
   * The payload segment gives the claims without `expireAt`, unless the recorded `expireAt`
   * cannot be compared or has passed.
   */
  lemma SegmentsPayload(claims: Value, secret: string, o: Options, laterMs: int, p: Primitives)
    requires Utf8RoundTrip(p) && WellFormed(Obj(OwnMembers(claims))) && OptionsWellFormed(o) && o.expireAt.Some?
    ensures VerifyPayload(TokenSegments(claims, secret, o, p).payload, laterMs, p) ==
      if ExpiryThrows(o.expireAt) then Failure(TypeError)
      else if Expired(o.expireAt, Seconds(laterMs)) then Failure(TokenExpired)
      else Success(Remove(OwnMembers(claims), "expireAt"))
  {
    var e := o.expireAt.value;
    SegmentsDecode(claims, secret, o, p);
    PayloadWellFormed(claims, e);
    RemovePut(OwnMembers(claims), "expireAt", e);
  }

  /** The header check on a header written from options `o`. */
  lemma OptionsHeaderCheck(encHeader: string, encPayload: string, sig: string, secret: string, p: Primitives, o: Options)
    requires Parse(DecodeSegment(p, encHeader)) == Some(Obj(HeaderMembers(o)))
    ensures CheckSignature(encHeader, encPayload, sig, secret, p) ==
      if o.alg.None? || !o.alg.value.Str? then Fail(TypeError)
      else if !p.knownDigest(o.alg.value.s) then Fail(InvalidDigest)
      else if Signature(p, o.alg.value.s, secret, encHeader, encPayload) != sig then Fail(InvalidSignature)
      else Pass
  {
    var hm := HeaderMembers(o);
    if o.alg.Some? {
      assert Lookup(hm, "alg") == Some(o.alg.value);
    } else {
      assert Lookup(hm, "alg") == None;
    }
  }

  /**
   * The header check of signed segments, made with secret `other`, uses the digest
   * `options.alg` recorded, while the signature was made with `sha256`.
   */
  lemma SegmentsHeaderCheck(claims: Value, secret: string, other: string, o: Options, p: Primitives)
    requires Utf8RoundTrip(p) && WellFormed(Obj(OwnMembers(claims))) && OptionsWellFormed(o) && o.expireAt.Some?
    ensures var seg := TokenSegments(claims, secret, o, p);
      CheckSignature(seg.header, seg.payload, seg.signature, other, p) ==
        if o.alg.None? || !o.alg.value.Str? then Fail(TypeError)
        else if !p.knownDigest(o.alg.value.s) then Fail(InvalidDigest)
        else if Signature(p, o.alg.value.s, other, seg.header, seg.payload) != seg.signature then Fail(InvalidSignature)
        else Pass
  {
    var seg := TokenSegments(claims, secret, o, p);
    SegmentsDecode(claims, secret, o, p);
    OptionsHeaderCheck(seg.header, seg.payload, seg.signature, other, p, o);
  }

  /** How the verifier treats a signed token: its three segments, checked as any token's are. */
  lemma VerifySigned(claims: Value, secret: string, other: string, given: Option<Options>, nowMs: int, laterMs: int, p: Primitives)
    ensures var s := Sign(claims, secret, given, nowMs, p);
      var seg := TokenSegments(claims, secret, s.options, p);
      var r := Verify(s.token, other, laterMs, p);
      if seg.signature == "" then r == VerifyPayload(seg.payload, laterMs, p)
      else
        match CheckSignature(seg.header, seg.payload, seg.signature, other, p)
        case Fail(e) => r == Failure(e)
        case Pass => r == VerifyPayload(seg.payload, laterMs, p)
  {
    var s := Sign(claims, secret, given, nowMs, p);
    assert '.' in s.token;
  }

  /**
   * Round trip: a token signed with digest `sha256` in its header verifies with the same
   * secret to the claims without `expireAt`, unless the recorded `expireAt` cannot be
   * compared with a number (a `TypeError`) or has passed.
   */
  lemma SignVerify(claims: Value, secret: string, given: Option<Options>, nowMs: int, laterMs: int, p: Primitives)
    requires Utf8RoundTrip(p) && p.knownDigest(SigningDigest) && WellFormed(Obj(OwnMembers(claims)))
    requires given.Some? ==> given.value.alg == Some(Str(SigningDigest)) && OptionsWellFormed(given.value)
    ensures var s := Sign(claims, secret, given, nowMs, p);
      Verify(s.token, secret, laterMs, p) ==
        if ExpiryThrows(s.options.expireAt) then Failure(TypeError)
        else if Expired(s.options.expireAt, Seconds(laterMs)) then Failure(TokenExpired)
        else Success(Remove(OwnMembers(claims), "expireAt"))
  {
    var o := SignedOptions(given, nowMs);
    SignedOptionsWellFormed(given, nowMs);
    SegmentsHeaderCheck(claims, secret, secret, o, p);
    SegmentsPayload(claims, secret, o, laterMs, p);
    VerifySigned(claims, secret, secret, given, nowMs, laterMs, p);
  }

  /** Without options, a token lives until the end of the fifth minute after the second it was signed in. */
  lemma DefaultLifetimeRoundTrip(claims: Value, secret: string, nowMs: int, laterMs: int, p: Primitives)
    requires Utf8RoundTrip(p) && p.knownDigest(SigningDigest) && WellFormed(Obj(OwnMembers(claims)))
    requires nowMs >= 0
    ensures Verify(Sign(claims, secret, None, nowMs, p).token, secret, laterMs, p) ==
      if Seconds(nowMs) + DefaultLifetime < Seconds(laterMs) then Failure(TokenExpired)
      else Success(Remove(OwnMembers(claims), "expireAt"))
  {
    var o := SignedOptions(None, nowMs);
    var e := Seconds(nowMs) + DefaultLifetime;
    assert o.expireAt == Some(Num(e)) by {
      assert GivenOptions(None).expireAt == None;
    }
    assert Expired(o.expireAt, Seconds(laterMs)) <==> e < Seconds(laterMs) by {
      assert Truthy(Num(e));
      assert LessThan(Num(e), Seconds(laterMs)) == Success(e < Seconds(laterMs));
    }
    SignVerify(claims, secret, None, nowMs, laterMs, p);
  }

  /** The message the signer's HMAC covers: the header segment followed by the payload segment. */
  function SignedMessage(claims: Value, given: Option<Options>, nowMs: int, p: Primitives): string {
    var o := SignedOptions(given, nowMs);
    EncodeSegment(p, Stringify(Obj(HeaderMembers(o)))) + EncodeSegment(p, Stringify(Obj(PayloadMembers(claims, o.expireAt.value))))
  }

  /**
   * A token verified with a secret whose HMAC of the signed message differs from the
   * signer's is refused.
   */
  lemma WrongSecretRejected(claims: Value, secret: string, other: string, given: Option<Options>, nowMs: int, laterMs: int, p: Primitives)
    requires Utf8RoundTrip(p) && p.knownDigest(SigningDigest) && WellFormed(Obj(OwnMembers(claims)))
    requires given.Some? ==> given.value.alg == Some(Str(SigningDigest)) && OptionsWellFormed(given.value)
    requires var m := SignedMessage(claims, given, nowMs, p);
      p.hmac(SigningDigest, other, m) != p.hmac(SigningDigest, secret, m) && p.hmac(SigningDigest, secret, m) != []
    ensures Verify(Sign(claims, secret, given, nowMs, p).token, other, laterMs, p) == Failure(InvalidSignature)
  {
    var o := SignedOptions(given, nowMs);
    var seg := TokenSegments(claims, secret, o, p);
    SignedOptionsWellFormed(given, nowMs);
    SegmentsHeaderCheck(claims, secret, other, o, p);
    VerifySigned(claims, secret, other, given, nowMs, laterMs, p);
    var m := seg.header + seg.payload;
    assert p.hmac(SigningDigest, secret, m) != [];
    if Signature(p, SigningDigest, other, seg.header, seg.payload) == seg.signature {
      Hex.EncodeInjective(p.hmac(SigningDigest, other, m), p.hmac(SigningDigest, secret, m));
    }
  }

  /**
   * A token signed with options that name no string digest (as when only `expireAt`
   * is passed), or a digest Node does not know, is refused by its own verifier.
   */
  lemma UnusableDigestRejected(claims: Value, secret: string, opts: Options, nowMs: int, laterMs: int, p: Primitives)
    requires Utf8RoundTrip(p) && WellFormed(Obj(OwnMembers(claims))) && OptionsWellFormed(opts)
    requires p.hmac(SigningDigest, secret, SignedMessage(claims, Some(opts), nowMs, p)) != []
    ensures var r := Verify(Sign(claims, secret, Some(opts), nowMs, p).token, secret, laterMs, p);
      && (opts.alg.None? || !opts.alg.value.Str? ==> r == Failure(TypeError))
      && (opts.alg.Some? && opts.alg.value.Str? && !p.knownDigest(opts.alg.value.s) ==> r == Failure(InvalidDigest))
  {
    var o := SignedOptions(Some(opts), nowMs);
    var seg := TokenSegments(claims, secret, o, p);
    SignedOptionsWellFormed(Some(opts), nowMs);
    SegmentsHeaderCheck(claims, secret, secret, o, p);
    VerifySigned(claims, secret, secret, Some(opts), nowMs, laterMs, p);
    assert seg.signature != [] by {
      assert p.hmac(SigningDigest, secret, seg.header + seg.payload) != [];
    }
  }

  /**
   * A token signed with options naming a known digest whose HMAC of the signed message
   * differs from `sha256`'s is refused by its own verifier, which checks with that digest.
   */
  lemma ForeignDigestRejected(claims: Value, secret: string, opts: Options, nowMs: int, laterMs: int, p: Primitives)
    requires Utf8RoundTrip(p) && WellFormed(Obj(OwnMembers(claims))) && OptionsWellFormed(opts)
    requires opts.alg.Some? && opts.alg.value.Str? && p.knownDigest(opts.alg.value.s)
    requires var m := SignedMessage(claims, Some(opts), nowMs, p);
      p.hmac(opts.alg.value.s, secret, m) != p.hmac(SigningDigest, secret, m) && p.hmac(SigningDigest, secret, m) != []
    ensures Verify(Sign(claims, secret, Some(opts), nowMs, p).token, secret, laterMs, p) == Failure(InvalidSignature)
  {
    var o := SignedOptions(Some(opts), nowMs);
    var seg := TokenSegments(claims, secret, o, p);
    SignedOptionsWellFormed(Some(opts), nowMs);
    SegmentsHeaderCheck(claims, secret, secret, o, p);
    VerifySigned(claims, secret, secret, Some(opts), nowMs, laterMs, p);
    var m := seg.header + seg.payload;
    assert p.hmac(SigningDigest, secret, m) != [];
    if Signature(p, opts.alg.value.s, secret, seg.header, seg.payload) == seg.signature {
      Hex.EncodeInjective(p.hmac(opts.alg.value.s, secret, m), p.hmac(SigningDigest, secret, m));
    }
  }

  /**
   * The payload's `expireAt` is the given one when it is truthy, otherwise five minutes
   * from the current second. A claim of that name keeps its place and takes the new
   * value; without one, `expireAt` is written after all the claims. Every other claim
   * is left as it was.
   */
  lemma SignedClaims(claims: Value, given: Option<Options>, nowMs: int)
    ensures var opts := GivenOptions(given);
      var e := SignedOptions(given, nowMs).expireAt.value;
      var pm := PayloadMembers(claims, e);
      && e == (if opts.expireAt.Some? && Truthy(opts.expireAt.value) then opts.expireAt.value
               else Num(Seconds(nowMs) + DefaultLifetime))
      && Lookup(pm, "expireAt") == Some(e)
      && (forall k :: k != "expireAt" ==> Lookup(pm, k) == Lookup(OwnMembers(claims), k))
      && ("expireAt" !in KeySet(OwnMembers(claims)) ==> pm == OwnMembers(claims) + [Member("expireAt", e)])
      && ("expireAt" in KeySet(OwnMembers(claims)) ==>
            |pm| == |OwnMembers(claims)| && forall i :: 0 <= i < |pm| ==> pm[i].key == OwnMembers(claims)[i].key)
  {
    var e := SignedOptions(given, nowMs).expireAt.value;
    if "expireAt" in KeySet(OwnMembers(claims)) {
      PutInPlace(OwnMembers(claims), "expireAt", e);
    }
  }
}
