/**
 * The two JavaScript string built-ins the core relies on:
 * `Array.prototype.join` and `String.prototype.split` with a one-character separator.
 */
module Strings {

  /** `parts.join(sep)` */
  function Join(parts: seq<string>, sep: string): (r: string)
    ensures parts == [] ==> r == []
    ensures |parts| == 1 ==> r == parts[0]
  {
    if parts == [] then []
    else if |parts| == 1 then parts[0]
    else parts[0] + sep + Join(parts[1..], sep)
  }

  /** The join of a non-empty list, followed by `tail`: its first part, then the rest. */
  lemma JoinFirst(parts: seq<string>, sep: string, tail: string)
    requires |parts| >= 1
    ensures Join(parts, sep) + tail ==
      parts[0] + (if |parts| == 1 then tail else sep + Join(parts[1..], sep) + tail)
  {
    if |parts| > 1 {
      var others := Join(parts[1..], sep);
      assert Join(parts, sep) + tail == parts[0] + (sep + others + tail);
    }
  }

  /** `s.split(sep)`: the maximal separator-free pieces between occurrences of `sep`. */
  function Split(s: string, sep: char): (parts: seq<string>)
    ensures |parts| >= 1
    ensures forall i :: 0 <= i < |parts| ==> sep !in parts[i]
    ensures Join(parts, [sep]) == s
    ensures sep !in s ==> parts == [s]
    ensures sep in s ==> |parts| >= 2
  {
    if s == [] then [[]]
    else
      var tail := Split(s[1..], sep);
      if s[0] == sep then [[]] + tail
      else
        var first := [s[0]] + tail[0];
        assert |tail| > 1 ==> Join([first] + tail[1..], [sep]) == first + [sep] + Join(tail[1..], [sep]);
        assert |tail| > 1 ==> Join(tail, [sep]) == tail[0] + [sep] + Join(tail[1..], [sep]);
        [first] + tail[1..]
  }

  /** Splitting the join of separator-free pieces gives the pieces back. */
  lemma {:induction false} SplitJoin(parts: seq<string>, sep: char)
    requires |parts| >= 1
    requires forall i :: 0 <= i < |parts| ==> sep !in parts[i]
    ensures Split(Join(parts, [sep]), sep) == parts
  {
    if |parts| == 1 {
      assert sep !in Join(parts, [sep]);
    } else {
      SplitJoin(parts[1..], sep);
      SplitPrefix(parts[0], Join(parts[1..], [sep]), sep);
    }
  }

  /** Splitting `a + sep + b`, where `a` holds no separator, puts `a` in front of the pieces of `b`. */
  lemma {:induction false} SplitPrefix(a: string, b: string, sep: char)
    requires sep !in a
    ensures Split(a + [sep] + b, sep) == [a] + Split(b, sep)
  {
    if a == [] {
      assert (a + [sep] + b)[1..] == b;
    } else {
      assert (a + [sep] + b)[1..] == a[1..] + [sep] + b;
      SplitPrefix(a[1..], b, sep);
      assert [a[0]] + a[1..] == a;
    }
  }
}
