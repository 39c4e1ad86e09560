/** The string operations of Python that the pipeline relies on:
    `str.endswith`, slicing, `sep.join(parts)` and, as the inverse of a
    join, splitting on one separator character. */
module Text {

  function Min(a: int, b: int): int {
    if a <= b then a else b
  }

  /** `s.endswith(suffix)`. */
  predicate EndsWith(s: string, suffix: string) {
    |suffix| <= |s| && s[|s| - |suffix|..] == suffix
  }

  /** `s` ends with `suffix` exactly when `s` is some prefix followed by `suffix`. */
  lemma EndsWithIffSuffix(s: string, suffix: string)
    ensures EndsWith(s, suffix) <==> exists p: string :: s == p + suffix
  {
    if EndsWith(s, suffix) {
      var p := s[..|s| - |suffix|];
      assert s == p + suffix;
    }
    if exists p: string :: s == p + suffix {
      var p: string :| s == p + suffix;
      assert s[|p|..] == suffix;
    }
  }

  /** One bound of a Python slice of a string of length `n`: a negative
      bound counts from the end, and the result is clamped to `0..n`. */
  function SliceBound(b: int, n: nat): (r: nat)
    ensures r <= n
  {
    if b >= 0 then Min(b, n)
    else if b + n >= 0 then b + n
    else 0
  }

  /** `s[i:j]`: both bounds are normalised as Python does, and a slice whose
      upper bound does not lie past its lower bound is empty. */
  function Slice(s: string, i: int, j: int): (r: string)
    ensures |r| <= |s|
    ensures 0 <= i <= j ==> |r| == Min(j, |s|) - Min(i, |s|)
    ensures 0 <= i < |s| && i <= j ==> r == s[i..Min(j, |s|)]
    ensures 0 <= j <= i ==> r == ""
  {
    var lo, hi := SliceBound(i, |s|), SliceBound(j, |s|);
    if lo < hi then s[lo..hi] else ""
  }

  /** A negative slice bound counts from the end: `s[i:j]` with `-len(s) <= i < 0`
      is `s[len(s)+i:j]`, and likewise for `j`. */
  lemma SliceFromEnd(s: string, i: int, j: int)
    ensures -|s| <= i < 0 ==> Slice(s, i, j) == Slice(s, |s| + i, j)
    ensures -|s| <= j < 0 ==> Slice(s, i, j) == Slice(s, i, |s| + j)
  {
  }

  /** `sep.join(parts)`. */
  function Join(sep: string, parts: seq<string>): string
  {
    if |parts| == 0 then ""
    else if |parts| == 1 then parts[0]
    else parts[0] + sep + Join(sep, parts[1..])
  }

  /** `"".join(parts)`: the parts concatenated in order. */
  function Concat(parts: seq<string>): string
  {
    if |parts| == 0 then "" else parts[0] + Concat(parts[1..])
  }

  /** `s.split(sep)` for a one-character separator: the pieces between
      consecutive separators, always at least one. */
  function Split(s: string, sep: char): (pieces: seq<string>)
    ensures |pieces| >= 1
    ensures forall k :: 0 <= k < |pieces| ==> sep !in pieces[k]
    decreases |s|
  {
    if |s| == 0 then [""]
    else
      var rest := Split(s[1..], sep);
      if s[0] == sep then [""] + rest
      else [[s[0]] + rest[0]] + rest[1..]
  }

  lemma {:induction false} SplitWithoutSeparator(p: string, sep: char)
    requires sep !in p
    ensures Split(p, sep) == [p]
    decreases |p|
  {
    if |p| > 0 {
      SplitWithoutSeparator(p[1..], sep);
      assert [p[0]] + p[1..] == p;
    }
  }

  lemma {:induction false} SplitAfterSeparator(p: string, sep: char, t: string)
    requires sep !in p
    ensures Split(p + [sep] + t, sep) == [p] + Split(t, sep)
    decreases |p|
  {
    var s := p + [sep] + t;
    if |p| == 0 {
      assert s[0] == sep && s[1..] == t;
    } else {
      assert s[0] == p[0] && s[1..] == p[1..] + [sep] + t;
      SplitAfterSeparator(p[1..], sep, t);
      assert [p[0]] + p[1..] == p;
    }
  }

  /** Joining on a one-character separator keeps every part and its place:
      when no part contains the separator, splitting the join gives the
      parts back in their original order. */
  lemma {:induction false} SplitJoin(parts: seq<string>, sep: char)
    requires |parts| > 0
    requires forall k :: 0 <= k < |parts| ==> sep !in parts[k]
    ensures Split(Join([sep], parts), sep) == parts
  {
    if |parts| == 1 {
      SplitWithoutSeparator(parts[0], sep);
    } else {
      SplitJoin(parts[1..], sep);
      SplitAfterSeparator(parts[0], sep, Join([sep], parts[1..]));
      assert [parts[0]] + parts[1..] == parts;
    }
  }
}
