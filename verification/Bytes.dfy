/** Byte strings, with the search the Go `bytes` package offers on them. */
module Bytes {
  type byte = b: int | 0 <= b < 256

  datatype Option<+T> = None | Some(value: T)

  function Min(a: nat, b: nat): nat { if a < b then a else b }

  /** `pat` occurs in `s` at index `i`. */
  predicate MatchAt(s: seq<byte>, pat: seq<byte>, i: int) {
    0 <= i <= |s| - |pat| && s[i..i + |pat|] == pat
  }

  /** The search behind `bytes.Index`, begun at index `i`. */
  function IndexFrom(s: seq<byte>, pat: seq<byte>, i: nat): (r: int)
    ensures r == -1 || (i <= r && MatchAt(s, pat, r))
    ensures forall j :: i <= j && (r == -1 || j < r) ==> !MatchAt(s, pat, j)
    decreases |s| - i
  {
    if i + |pat| > |s| then -1
    else if s[i..i + |pat|] == pat then i
    else if i == |s| then -1
    else IndexFrom(s, pat, i + 1)
  }

  /** `bytes.Index`: the first occurrence, or -1 when there is none. */
  function Index(s: seq<byte>, pat: seq<byte>): (r: int)
    ensures r == -1 || MatchAt(s, pat, r)
    ensures forall j :: r == -1 || j < r ==> !MatchAt(s, pat, j)
  {
    IndexFrom(s, pat, 0)
  }

  /** `bytes.Contains`. */
  predicate Contains(s: seq<byte>, pat: seq<byte>) {
    Index(s, pat) >= 0
  }

  /** All parts, one after the other. */
  function Concat<T>(parts: seq<seq<T>>): seq<T> {
    if parts == [] then [] else parts[0] + Concat(parts[1..])
  }

  lemma {:induction false} ConcatAppend<T>(a: seq<seq<T>>, b: seq<seq<T>>)
    ensures Concat(a + b) == Concat(a) + Concat(b)
  {
    if a == [] {
      assert a + b == b;
    } else {
      assert (a + b)[1..] == a[1..] + b;
      ConcatAppend(a[1..], b);
    }
  }
}
