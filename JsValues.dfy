/**
 * The JavaScript operations the token verifier applies to parsed JSON values:
 * truthiness, property reads, the loose `<` against a number, and object rest.
 */
module JsValues {

  import opened Wrappers
  import opened Bytes
  import opened Json
  import Strings

  /** `Boolean(v)`: `null`, `false`, `0` and `""` are falsy, everything else is truthy. */
  predicate Truthy(v: Value) {
    match v
    case Null => false
    case Bool(b) => b
    case Num(n) => n != 0
    case Str(s) => s != []
    case _ => true
  }

  /**
   * The `TypeError`s of the operations below: reading a property of `null`, and converting
   * a value that has no primitive value.
   */
  datatype AccessError = ReadOfNull | NoPrimitiveValue

  /**
   * A name that is neither an array index nor `length`, and that no prototype
   * defines, such as `alg` and `expireAt`: only an object can have it.
   */
  predicate PlainName(k: string) {
    k != "length" && (k == [] || !IsDigit(k[0]))
  }

  /** `v[k]`: `null` throws; `undefined` (`None`) unless `v` is an object with a member `k`. */
  function Property(v: Value, k: string): (r: Result<Option<Value>, AccessError>)
    requires PlainName(k)
    ensures r.Failure? <==> v.Null?
    ensures v.Obj? ==> r == Success(Lookup(v.members, k))
    ensures !v.Null? && !v.Obj? ==> r == Success(None)
  {
    match v
    case Null => Failure(ReadOfNull)
    case Obj(ms) => Success(Lookup(ms, k))
    case _ => Success(None)
  }

  /**
   * A value JavaScript cannot turn into a primitive: an object with an own `toString`
   * member, which a JSON value cannot make callable, or an array holding such a value at
   * any depth. Neither `valueOf` nor `toString` then yields a primitive.
   */
  predicate NoPrimitive(v: Value) {
    match v
    case Obj(ms) => "toString" in KeySet(ms)
    case Arr(items) => exists i :: 0 <= i < |items| && NoPrimitive(items[i])
    case _ => false
  }

  /**
   * `String(v)` as `Array.prototype.join` applies it to one element: `null` becomes the
   * empty string, and `None` stands for the `TypeError` of a value without a primitive.
   */
  function ElementText(v: Value): (r: Option<string>)
    ensures r.None? <==> NoPrimitive(v)
  {
    match v
    case Null => Some("")
    case Bool(b) => Some(if b then "true" else "false")
    case Num(n) => Some(IntToDecimal(n))
    case Str(s) => Some(s)
    case Arr(items) =>
      var texts := seq(|items|, i requires 0 <= i < |items| => ElementText(items[i]));
      assert forall i :: 0 <= i < |items| ==> texts[i] == ElementText(items[i]);
      if exists i :: 0 <= i < |texts| && texts[i].None? then None
      else Some(Strings.Join(seq(|texts|, i requires 0 <= i < |texts| => texts[i].value), ","))
    case Obj(ms) => if "toString" in KeySet(ms) then None else Some("[object Object]")
  }

  /**
   * `Number(s)` for a decimal integer with an optional sign; the empty string is 0.
   * `None` stands for `NaN`.
   */
  function StringToNumber(s: string): (r: Option<int>)
    ensures s == [] ==> r == Some(0)
    ensures s != [] && AllDigits(s) ==> r == Some(DecimalValue(s))
  {
    if s == [] then Some(0)
    else if (s[0] == '-' || s[0] == '+') && |s| > 1 && AllDigits(s[1..]) then
      var m: int := DecimalValue(s[1..]);
      Some(if s[0] == '-' then -m else m)
    else if AllDigits(s) then Some(DecimalValue(s))
    else None
  }

  /**
   * The number `x < n` compares when `n` is a number: `ToNumber(ToPrimitive(x))`.
   * An array becomes its joined text and an object `"[object Object]"`, which is `NaN`,
   * unless the conversion throws.
   */
  function NumberValue(v: Value): (r: Result<Option<int>, AccessError>)
    ensures r.Failure? <==> NoPrimitive(v)
    ensures r.Failure? ==> r.error == NoPrimitiveValue
    ensures v.Num? ==> r == Success(Some(v.n))
    ensures v.Null? ==> r == Success(Some(0))
    ensures v.Bool? ==> r == Success(Some(if v.b then 1 else 0))
    ensures v.Obj? && !NoPrimitive(v) ==> r == Success(None)
  {
    match v
    case Null => Success(Some(0))
    case Bool(b) => Success(Some(if b then 1 else 0))
    case Num(n) => Success(Some(n))
    case Str(s) => Success(StringToNumber(s))
    case _ =>
      match ElementText(v)
      case None => Failure(NoPrimitiveValue)
      case Some(t) => Success(StringToNumber(t))
  }

  /** `x < n` for a number `n`: false whenever `x` converts to `NaN`, a `TypeError` when it cannot be converted. */
  function LessThan(v: Value, n: int): (r: Result<bool, AccessError>)
    ensures r.Failure? <==> NoPrimitive(v)
    ensures v.Num? ==> r == Success(v.n < n)
  {
    match NumberValue(v)
    case Failure(e) => Failure(e)
    case Success(None) => Success(false)
    case Success(Some(x)) => Success(x < n)
  }

  /** A number written as a JSON string compares as that number. */
  lemma DecimalStringNumber(n: int)
    ensures NumberValue(Str(IntToDecimal(n))) == Success(Some(n))
  {
    DecimalText(n);
  }

  /** `Number` reads back the decimal text of an integer. */
  lemma DecimalText(n: int)
    ensures StringToNumber(IntToDecimal(n)) == Some(n)
  {
    if n < 0 {
      var d := NatToDecimal(-n);
      DecimalRoundTrip(-n);
      assert IntToDecimal(n)[1..] == d;
    } else {
      DecimalRoundTrip(n);
    }
  }

  /** The own enumerable properties of a value, as object rest copies them. */
  function OwnMembers(v: Value): (r: seq<Member>)
    ensures v.Obj? ==> r == v.members
    ensures v.Str? ==> |r| == |v.s| && forall i :: 0 <= i < |r| ==> r[i] == Member(NatToDecimal(i), Str([v.s[i]]))
    ensures v.Arr? ==> |r| == |v.items| && forall i :: 0 <= i < |r| ==> r[i] == Member(NatToDecimal(i), v.items[i])
    ensures v.Null? || v.Bool? || v.Num? ==> r == []
  {
    match v
    case Obj(ms) => ms
    case Str(s) => seq(|s|, i requires 0 <= i < |s| => Member(NatToDecimal(i), Str([s[i]])))
    case Arr(items) => seq(|items|, i requires 0 <= i < |items| => Member(NatToDecimal(i), items[i]))
    case _ => []
  }

  /** `const {k, ...rest} = v`: `null` throws; otherwise the own properties of `v` other than `k`. */
  function RestWithout(v: Value, k: string): (r: Result<seq<Member>, AccessError>)
    ensures r.Failure? <==> v.Null?
    ensures r.Success? ==> Lookup(r.value, k) == None
    ensures r.Success? ==> forall k' :: k' != k ==> Lookup(r.value, k') == Lookup(OwnMembers(v), k')
  {
    if v.Null? then Failure(ReadOfNull) else Success(Remove(OwnMembers(v), k))
  }

  /** An index name is never a plain name, so rest without a plain name keeps every element of an array or a string. */
  lemma {:induction false} IndexKeysKept(ms: seq<Member>, k: string)
    requires PlainName(k)
    requires forall i :: 0 <= i < |ms| ==> AllDigits(ms[i].key) && ms[i].key != []
    ensures Remove(ms, k) == ms
  {
    if ms != [] {
      IndexKeysKept(ms[1..], k);
    }
  }

  /** Rest without a plain name, such as `expireAt`, keeps every element of a string or an array. */
  lemma IndexedRestKept(v: Value, k: string)
    requires PlainName(k) && (v.Str? || v.Arr?)
    ensures RestWithout(v, k) == Success(OwnMembers(v))
  {
    IndexKeysKept(OwnMembers(v), k);
  }
}
