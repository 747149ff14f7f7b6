/** Start-code framing of H.264 NAL units (section B.1 of ITU-T H.264). */
module AnnexB {
  import opened Bytes

  /** The four-byte start code. */
  const SC: seq<byte> := [0, 0, 0, 1]

  /** A NAL unit that does not hold the four-byte start code. */
  predicate Clean(nal: seq<byte>) {
    Index(nal, SC) == -1
  }

  /** Each NAL unit behind its own start code. */
  function Encode(nals: seq<seq<byte>>): seq<byte> {
    if nals == [] then [] else SC + nals[0] + Encode(nals[1..])
  }

  /** What a receiver does: cut at every start code, left to right. */
  function Split(s: seq<byte>): (parts: seq<seq<byte>>)
    ensures |parts| > 0
    decreases |s|
  {
    var i := Index(s, SC);
    if i == -1 then [s] else [s[..i]] + Split(s[i + 4..])
  }

  lemma {:induction false} EncodeAppend(a: seq<seq<byte>>, b: seq<seq<byte>>)
    ensures Encode(a + b) == Encode(a) + Encode(b)
  {
    if a == [] {
      assert a + b == b;
    } else {
      assert (a + b)[1..] == a[1..] + b;
      EncodeAppend(a[1..], b);
    }
  }

  /** The start code does not overlap itself, so behind a clean NAL unit the
      first match is the delimiter itself: no match straddles the boundary. */
  lemma NoStraddle(nal: seq<byte>, rest: seq<byte>)
    requires Clean(nal)
    ensures Index(nal + SC + rest, SC) == |nal|
  {
    var s := nal + SC + rest;
    assert s[|nal|..|nal| + 4] == SC;
    assert MatchAt(s, SC, |nal|);
    forall i | 0 <= i < |nal|
      ensures !MatchAt(s, SC, i)
    {
      if i + 4 <= |nal| {
        assert s[i..i + 4] == nal[i..i + 4];
        assert !MatchAt(nal, SC, i);
      } else {
        assert s[i..i + 4][3] == s[i + 3] == SC[i + 3 - |nal|] != SC[3];
      }
    }
  }

  /** Splitting undoes framing: any number of clean NAL units, behind any
      clean prefix, come back one by one and in order. */
  lemma {:induction false} SplitEncode(pre: seq<byte>, nals: seq<seq<byte>>)
    requires Clean(pre)
    requires forall n :: n in nals ==> Clean(n)
    ensures Split(pre + Encode(nals)) == [pre] + nals
    decreases |nals|
  {
    if nals == [] {
      assert pre + Encode(nals) == pre;
    } else {
      var s := pre + Encode(nals);
      var tail := nals[0] + Encode(nals[1..]);
      assert s == pre + SC + tail;
      NoStraddle(pre, tail);
      assert s[|pre| + 4..] == tail && s[..|pre|] == pre;
      SplitEncode(nals[0], nals[1..]);
    }
  }

  lemma Reassociate(s: seq<byte>, i: nat, head: seq<byte>, tail: seq<byte>)
    requires MatchAt(s, SC, i)
    requires head + tail == s[i + 4..]
    ensures s[..i] + (SC + head + tail) == s
  {
    assert SC + head + tail == SC + (head + tail);
    assert s[..i] + s[i..i + 4] + s[i + 4..] == s;
  }

  /** Framing undoes splitting, on every byte string. */
  lemma {:induction false} EncodeSplit(s: seq<byte>)
    ensures Split(s)[0] + Encode(Split(s)[1..]) == s
    decreases |s|
  {
    var i := Index(s, SC);
    if i == -1 {
      assert Split(s)[1..] == [];
    } else {
      var parts := Split(s[i + 4..]);
      EncodeSplit(s[i + 4..]);
      assert Split(s) == [s[..i]] + parts;
      assert Split(s)[1..] == parts;
      Reassociate(s, i, parts[0], Encode(parts[1..]));
    }
  }

  /** Three zero bytes and a one in front of every unit. */
  lemma StartCoded(nal: seq<byte>, rest: seq<seq<byte>>)
    ensures Encode([nal] + rest) == [0, 0, 0, 1] + nal + Encode(rest)
  {
    assert ([nal] + rest)[1..] == rest;
  }
}
