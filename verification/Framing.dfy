/** How one encoder output buffer reaches the byte stream: the ring-buffer
    wrap is undone, and length-prefixed NAL units (section 5.3 of
    ISO/IEC 14496-15) are rewritten to start-code framing. */
module Framing {
  import opened Bytes
  import AnnexB

  const U32: int := 0x1_0000_0000

  // ---------------------------------------------------------------- lengths

  /** A 32-bit length, most significant byte first. */
  function Be32(n: nat): seq<byte>
    requires n < U32
  {
    [n / 256 / 256 / 256, n / 256 / 256 % 256, n / 256 % 256, n % 256]
  }

  /** The prefix read back; the source's shifted bytes share no bits, so its
      bitwise or is this sum. */
  function ReadBe32(d: seq<byte>): (n: nat)
    requires |d| >= 4
    ensures n < U32
  {
    d[0] as int * 0x1000000 + d[1] as int * 0x10000 + d[2] as int * 256 + d[3] as int
  }

  lemma ReadsBack(n: nat)
    requires n < U32
    ensures ReadBe32(Be32(n)) == n
  {
  }

  lemma WritesBack(d: seq<byte>)
    requires |d| >= 4
    ensures Be32(ReadBe32(d)) == d[..4]
  {
    var b0: int, b1: int, b2: int, b3: int := d[0], d[1], d[2], d[3];
    var n := ReadBe32(d);
    assert n == 256 * (b0 * 0x10000 + b1 * 256 + b2) + b3;
    assert n / 256 == b0 * 0x10000 + b1 * 256 + b2 == 256 * (b0 * 256 + b1) + b2;
    assert n / 256 / 256 == 256 * b0 + b1;
  }

  /** Most significant byte first. */
  lemma BigEndian(b0: byte, b1: byte, b2: byte, b3: byte)
    ensures ReadBe32([b0, b1, b2, b3]) == ((b0 as int * 256 + b1 as int) * 256 + b2 as int) * 256 + b3 as int
  {
  }

  // ------------------------------------------------- length-prefixed framing

  /** A NAL unit that length prefixing can carry. */
  predicate Unit(nal: seq<byte>) {
    0 < |nal| < U32
  }

  predicate AllUnits(nals: seq<seq<byte>>) {
    forall n :: n in nals ==> Unit(n)
  }

  /** Each NAL unit behind its own length. */
  function Avcc(nals: seq<seq<byte>>): seq<byte>
    requires AllUnits(nals)
  {
    if nals == [] then [] else assert Unit(nals[0]); Be32(|nals[0]|) + nals[0] + Avcc(nals[1..])
  }

  /** The complete non-empty units at the head of arbitrary bytes. */
  function Units(d: seq<byte>): (nals: seq<seq<byte>>)
    ensures AllUnits(nals)
    decreases |d|
  {
    if |d| < 4 then []
    else
      var n := ReadBe32(d);
      if n == 0 || 4 + n > |d| then [] else [d[4..4 + n]] + Units(d[4 + n..])
  }

  /** What the source writes out for one reassembled buffer. */
  function Forwarded(d: seq<byte>): seq<byte> {
    if |d| >= 4 && d[..4] == AnnexB.SC then d else AnnexB.Encode(Units(d))
  }

  lemma PrefixCat(d: seq<byte>, i: nat, j: nat, tail: seq<byte>)
    requires i <= j <= |d| && tail <= d[j..]
    ensures d[..i] + d[i..j] + tail <= d
  {
    assert d == d[..i] + d[i..j] + d[j..];
  }

  lemma PrefixGrows(d: seq<byte>, n: nat, tail: seq<seq<byte>>)
    requires |d| >= 4 && n == ReadBe32(d) > 0 && 4 + n <= |d|
    requires AllUnits(tail) && Avcc(tail) <= d[4 + n..]
    ensures AllUnits([d[4..4 + n]] + tail) && Avcc([d[4..4 + n]] + tail) <= d
  {
    var unit := d[4..4 + n];
    var nals := [unit] + tail;
    assert nals[1..] == tail;
    WritesBack(d);
    assert Avcc(nals) == d[..4] + unit + Avcc(tail);
    PrefixCat(d, 4, 4 + n, Avcc(tail));
  }

  /** The units found are a prefix of the bytes. */
  lemma {:induction false} UnitsPrefix(d: seq<byte>)
    ensures Avcc(Units(d)) <= d
    decreases |d|
  {
    if |d| >= 4 && 0 < ReadBe32(d) && 4 + ReadBe32(d) <= |d| {
      var n := ReadBe32(d);
      UnitsPrefix(d[4 + n..]);
      PrefixGrows(d, n, Units(d[4 + n..]));
    }
  }

  lemma TailOf(d: seq<byte>, nals: seq<seq<byte>>)
    requires AllUnits(nals) && nals != []
    requires Avcc(nals) <= d && 4 + |nals[0]| <= |d|
    ensures Avcc(nals[1..]) <= d[4 + |nals[0]|..]
  {
    var k := 4 + |nals[0]|;
    assert Unit(nals[0]);
    assert Avcc(nals)[k..] == Avcc(nals[1..]);
    assert d[..|Avcc(nals)|][k..] == d[k..|Avcc(nals)|];
  }

  /** The first unit of any parse is the one the prefix announces. */
  lemma HeadOf(d: seq<byte>, nals: seq<seq<byte>>)
    requires AllUnits(nals) && nals != []
    requires Avcc(nals) <= d
    ensures Unit(nals[0])
    ensures |d| >= 4 + |nals[0]| && ReadBe32(d) == |nals[0]| && d[4..4 + |nals[0]|] == nals[0]
  {
    var k := |nals[0]|;
    var a := Avcc(nals);
    assert Unit(nals[0]);
    assert a[..4] == Be32(k);
    assert a[4..4 + k] == nals[0];
    assert d[..4] == a[..4] && d[4..4 + k] == a[4..4 + k];
    ReadsBack(k);
  }

  /** No other parse reaches further: every list of units that the bytes begin
      with is a prefix of the list found. So that list is the longest, and the
      only longest one. */
  lemma {:induction false} UnitsLongest(d: seq<byte>, other: seq<seq<byte>>)
    requires AllUnits(other) && Avcc(other) <= d
    ensures other <= Units(d)
    decreases |other|
  {
    if other != [] {
      HeadOf(d, other);
      TailOf(d, other);
      UnitsLongest(d[4 + |other[0]|..], other[1..]);
      assert other == [other[0]] + other[1..];
    }
  }

  /** Rewriting changes no length: as many bytes leave as were consumed. */
  lemma {:induction false} SameLength(nals: seq<seq<byte>>)
    requires AllUnits(nals)
    ensures |AnnexB.Encode(nals)| == |Avcc(nals)|
  {
    if nals != [] {
      SameLength(nals[1..]);
    }
  }

  lemma {:induction false} UnitsOfAvcc(nals: seq<seq<byte>>)
    requires AllUnits(nals)
    ensures Units(Avcc(nals)) == nals
  {
    if nals != [] {
      var d := Avcc(nals);
      HeadOf(d, nals);
      assert d[4 + |nals[0]|..] == Avcc(nals[1..]);
      UnitsOfAvcc(nals[1..]);
    }
  }

  lemma AllOne(nals: seq<seq<byte>>)
    requires nals != []
    ensures (forall n :: n in nals ==> |n| == 1) <==> |nals[0]| == 1 && forall n :: n in nals[1..] ==> |n| == 1
  {
    assert nals == [nals[0]] + nals[1..];
  }

  /** Equal frames have equal prefixes and equal rests. */
  lemma SameHead(p: seq<byte>, q: seq<byte>, nal: seq<byte>, a: seq<byte>, b: seq<byte>)
    requires |p| == |q|
    ensures p + nal + a == q + nal + b <==> p == q && a == b
  {
    var x, y := p + nal + a, q + nal + b;
    assert x[..|p|] == p && y[..|q|] == q;
    assert x[|p| + |nal|..] == a && y[|q| + |nal|..] == b;
  }

  lemma {:induction false} SameBytes(nals: seq<seq<byte>>)
    requires AllUnits(nals)
    ensures Avcc(nals) == AnnexB.Encode(nals) <==> forall n :: n in nals ==> |n| == 1
  {
    if nals != [] {
      SameBytes(nals[1..]);
      AllOne(nals);
      assert Unit(nals[0]);
      SameHead(Be32(|nals[0]|), AnnexB.SC, nals[0], Avcc(nals[1..]), AnnexB.Encode(nals[1..]));
      ReadsBack(|nals[0]|);
      assert Be32(1) == AnnexB.SC;
    }
  }

  lemma LooksStartCoded(nals: seq<seq<byte>>)
    requires AllUnits(nals) && nals != []
    ensures |Avcc(nals)| >= 4 && (Avcc(nals)[..4] == AnnexB.SC <==> |nals[0]| == 1)
  {
    assert Unit(nals[0]);
    assert Avcc(nals)[..4] == Be32(|nals[0]|);
    ReadsBack(|nals[0]|);
    assert Be32(1) == AnnexB.SC;
  }

  /** Exactly when the rewrite is right on length-prefixed input: a first unit
      of length one makes the buffer look like start-code framing, and then
      only buffers made of one-byte units survive. */
  lemma RewriteExact(nals: seq<seq<byte>>)
    requires AllUnits(nals)
    ensures Forwarded(Avcc(nals)) == AnnexB.Encode(nals)
       <==> (nals == [] || |nals[0]| != 1 || forall n :: n in nals ==> |n| == 1)
  {
    UnitsOfAvcc(nals);
    SameBytes(nals);
    if nals != [] {
      LooksStartCoded(nals);
      assert nals[0] in nals;
    }
  }

  /** The failing family is inhabited. */
  lemma RewriteFails()
    ensures Forwarded(Avcc([[9], [7, 7]])) != AnnexB.Encode([[9], [7, 7]])
  {
    RewriteExact([[9], [7, 7]]);
    assert [7, 7] in [[9], [7, 7]];
  }

  /** No complete unit begins here. */
  predicate Broken(rest: seq<byte>) {
    |rest| < 4 || ReadBe32(rest) == 0 || 4 + ReadBe32(rest) > |rest|
  }

  lemma UnitInFront(unit: seq<byte>, tail: seq<byte>)
    requires Unit(unit)
    ensures Units(Be32(|unit|) + unit + tail) == [unit] + Units(tail)
  {
    var d := Be32(|unit|) + unit + tail;
    ReadsBack(|unit|);
    assert d[..4] == Be32(|unit|) && ReadBe32(d) == ReadBe32(d[..4]);
    assert d[4..4 + |unit|] == unit && d[4 + |unit|..] == tail;
  }

  lemma AvccRest(nals: seq<seq<byte>>, rest: seq<byte>)
    requires AllUnits(nals) && nals != [] && Unit(nals[0])
    ensures Avcc(nals) + rest == Be32(|nals[0]|) + nals[0] + (Avcc(nals[1..]) + rest)
  {
  }

  lemma {:induction false} UnitsThenRest(nals: seq<seq<byte>>, rest: seq<byte>)
    requires AllUnits(nals) && Broken(rest)
    ensures Units(Avcc(nals) + rest) == nals
  {
    if nals == [] {
      assert Avcc(nals) + rest == rest;
    } else {
      var unit, tail := nals[0], Avcc(nals[1..]) + rest;
      assert Unit(unit);
      UnitInFront(unit, tail);
      UnitsThenRest(nals[1..], rest);
      AvccRest(nals, rest);
    }
  }

  /** What begins with a start code passes unchanged; otherwise the complete
      units are sent, each behind a start code, and the rest is dropped. */
  lemma ForwardedExact(nals: seq<seq<byte>>, rest: seq<byte>)
    requires AllUnits(nals) && Broken(rest)
    ensures var d := Avcc(nals) + rest;
            Forwarded(d) == if [0, 0, 0, 1] <= d then d else AnnexB.Encode(nals)
  {
    var d := Avcc(nals) + rest;
    UnitsThenRest(nals, rest);
    if |d| >= 4 { assert d[..4] == AnnexB.SC <==> AnnexB.SC <= d; }
  }

  lemma AvccHead(prefix: seq<byte>, unit: seq<byte>, more: seq<seq<byte>>)
    requires Unit(unit) && AllUnits(more) && prefix == Be32(|unit|)
    ensures AllUnits([unit] + more) && Avcc([unit] + more) == prefix + unit + Avcc(more)
  {
    assert ([unit] + more)[1..] == more;
  }

  lemma ThreeParts(d: seq<byte>, n: nat, more: seq<byte>, rest: seq<byte>)
    requires 4 + n <= |d| && d[4 + n..] == more + rest
    ensures d == d[..4] + d[4..4 + n] + more + rest
  {
    assert d == d[..4] + d[4..4 + n] + d[4 + n..];
  }

  lemma UnitsHead(d: seq<byte>, n: nat, rest: seq<byte>)
    requires |d| >= 4 && n == ReadBe32(d) > 0 && 4 + n <= |d| && d[4 + n..] == Avcc(Units(d[4 + n..])) + rest
    ensures d == Avcc(Units(d)) + rest
  {
    var unit, more := d[4..4 + n], Units(d[4 + n..]);
    assert Units(d) == [unit] + more;
    AvccHead(d[..4], unit, more) by { WritesBack(d); }
    ThreeParts(d, n, Avcc(more), rest);
  }

  /** Any bytes are complete units followed by something that is none. */
  lemma {:induction false} UnitsLeave(d: seq<byte>)
    ensures exists rest :: Broken(rest) && d == Avcc(Units(d)) + rest
    decreases |d|
  {
    if Broken(d) {
      assert Avcc([]) + d == d;
    } else {
      var n := ReadBe32(d);
      UnitsLeave(d[4 + n..]);
      var rest :| Broken(rest) && d[4 + n..] == Avcc(Units(d[4 + n..])) + rest;
      UnitsHead(d, n, rest);
    }
  }

  // ------------------------------------------------------------ whole stream

  /** One encoder output, in either framing the source accepts. */
  datatype Output = LengthPrefixed(nals: seq<seq<byte>>) | StartCoded(nals: seq<seq<byte>>)

  predicate WellFramed(o: Output) {
    && AllUnits(o.nals)
    && (forall n :: n in o.nals ==> AnnexB.Clean(n))
    && (o.LengthPrefixed? && o.nals != [] ==> |o.nals[0]| != 1)
  }

  function Raw(o: Output): seq<byte>
    requires WellFramed(o)
  {
    if o.LengthPrefixed? then Avcc(o.nals) else AnnexB.Encode(o.nals)
  }

  lemma ForwardedOutput(o: Output)
    requires WellFramed(o)
    ensures Forwarded(Raw(o)) == AnnexB.Encode(o.nals)
  {
    if o.LengthPrefixed? {
      RewriteExact(o.nals);
    } else if o.nals != [] {
      assert AnnexB.Encode(o.nals)[..4] == AnnexB.SC;
    }
  }

  /** The bytes a run writes, buffer by buffer. */
  function Emitted(bufs: seq<seq<byte>>): seq<byte> {
    if bufs == [] then [] else Emitted(bufs[..|bufs| - 1]) + Forwarded(bufs[|bufs| - 1])
  }

  lemma EmittedGrows(pre: seq<byte>, bufs: seq<seq<byte>>, buf: seq<byte>)
    ensures pre + Emitted(bufs) + Forwarded(buf) == pre + Emitted(bufs + [buf])
  {
    assert (bufs + [buf])[..|bufs|] == bufs;
  }

  function AllNals(outs: seq<Output>): seq<seq<byte>> {
    if outs == [] then [] else AllNals(outs[..|outs| - 1]) + outs[|outs| - 1].nals
  }

  function RawAll(outs: seq<Output>): (bufs: seq<seq<byte>>)
    requires forall o :: o in outs ==> WellFramed(o)
    ensures |bufs| == |outs|
  {
    seq(|outs|, i requires 0 <= i < |outs| => Raw(outs[i]))
  }

  lemma {:induction false} EmittedIsAnnexB(outs: seq<Output>)
    requires forall o :: o in outs ==> WellFramed(o)
    ensures Emitted(RawAll(outs)) == AnnexB.Encode(AllNals(outs))
    ensures forall n :: n in AllNals(outs) ==> AnnexB.Clean(n)
  {
    if outs != [] {
      var k := |outs| - 1;
      EmittedIsAnnexB(outs[..k]);
      ForwardedOutput(outs[k]);
      assert RawAll(outs)[..k] == RawAll(outs[..k]);
      AnnexB.EncodeAppend(AllNals(outs[..k]), outs[k].nals);
    }
  }

  lemma AllClean(sps: seq<byte>, pps: seq<byte>, rest: seq<seq<byte>>)
    requires AnnexB.Clean(sps) && AnnexB.Clean(pps)
    requires forall n :: n in rest ==> AnnexB.Clean(n)
    ensures forall n :: n in [sps, pps] + rest ==> AnnexB.Clean(n)
  {
  }

  lemma Regroup(sps: seq<byte>, pps: seq<byte>, rest: seq<seq<byte>>)
    ensures [[]] + ([sps, pps] + rest) == [[], sps, pps] + rest
  {
  }

  lemma SplitWhole(nals: seq<seq<byte>>)
    requires forall n :: n in nals ==> AnnexB.Clean(n)
    ensures AnnexB.Split(AnnexB.Encode(nals)) == [[]] + nals
  {
    AnnexB.SplitEncode([], nals);
    assert [] + AnnexB.Encode(nals) == AnnexB.Encode(nals);
  }

  lemma Headed(sps: seq<byte>, pps: seq<byte>, rest: seq<seq<byte>>)
    requires AnnexB.Clean(sps) && AnnexB.Clean(pps)
    requires forall n :: n in rest ==> AnnexB.Clean(n)
    ensures AnnexB.Split(AnnexB.Encode([sps, pps]) + AnnexB.Encode(rest)) == [[], sps, pps] + rest
  {
    AnnexB.EncodeAppend([sps, pps], rest);
    AllClean(sps, pps, rest);
    SplitWhole([sps, pps] + rest);
    Regroup(sps, pps, rest);
  }

  /** Main result on the stream: whatever mixture of framings the encoder
      used, a receiver that cuts the stream at the start codes gets the
      parameter sets and then every NAL unit of every frame, in order. */
  lemma StreamSplits(sps: seq<byte>, pps: seq<byte>, outs: seq<Output>)
    requires AnnexB.Clean(sps) && AnnexB.Clean(pps)
    requires forall o :: o in outs ==> WellFramed(o)
    ensures AnnexB.Split(AnnexB.Encode([sps, pps]) + Emitted(RawAll(outs))) == [[], sps, pps] + AllNals(outs)
  {
    EmittedIsAnnexB(outs);
    Headed(sps, pps, AllNals(outs));
  }

  // ------------------------------------------------------------ the ring wrap

  /** The vendor's description of one output: a total and two regions, the
      second used when the frame wraps round the end of the ring; and what
      `malloc` would return for a frame of that size, with whatever it holds. */
  datatype OutDesc = OutDesc(total: nat, data0: Option<seq<byte>>, size0: nat, data1: Option<seq<byte>>, size1: nat,
                             block: Option<seq<byte>>)

  /** The regions are joined: the frame wraps, and there is memory for it. */
  predicate Joined(o: OutDesc) { o.data1.Some? && o.size1 > 0 && o.block.Some? }

  /** How much of each region fits the total. */
  function Part0(total: nat, size0: nat): nat { Min(size0, total) }

  function Part1(total: nat, size0: nat, size1: nat): nat { Min(size1, total - Part0(total, size0)) }

  /** The memory `block` with both parts copied in, one behind the other. */
  function Join(total: nat, data0: seq<byte>, s0: nat, data1: seq<byte>, s1: nat, block: seq<byte>): seq<byte>
    requires |block| == total && Part0(total, s0) <= |data0| && Part1(total, s0, s1) <= |data1|
  {
    var n0, n1 := Part0(total, s0), Part1(total, s0, s1);
    data0[..n0] + data1[..n1] + block[n0 + n1..]
  }

  /** Regions that cover the total are cut at it; others leave old memory. */
  lemma JoinCut(total: nat, data0: seq<byte>, s0: nat, data1: seq<byte>, s1: nat, block: seq<byte>)
    requires |block| == total && s0 <= |data0| && s1 <= |data1|
    ensures var all := data0[..s0] + data1[..s1];
            Join(total, data0, s0, data1, s1, block) == if |all| >= total then all[..total] else all + block[|all|..]
  {
  }

  /** Which descriptions the source can read without leaving the memory behind
      the pointers. */
  predicate Readable(o: OutDesc) {
    && o.total < U32 && o.size0 < U32 && o.size1 < U32
    && (o.data0.Some? && o.total > 0 ==>
          if Joined(o)
          then Part0(o.total, o.size0) <= |o.data0.value| && Part1(o.total, o.size0, o.size1) <= |o.data1.value|
            && |o.block.value| == o.total
          else o.total <= |o.data0.value|)
  }

  /** The frame forwarded. Regions that are too small leave old memory behind
      them, and without memory for a wrapped frame the total is read from the
      first region alone. */
  function Payload(o: OutDesc): (p: seq<byte>)
    requires Readable(o)
    ensures p != [] ==> |p| == o.total
  {
    if o.data0.None? || o.total == 0 then []
    else if Joined(o) then Join(o.total, o.data0.value, o.size0, o.data1.value, o.size1, o.block.value)
    else o.data0.value[..o.total]
  }

  /** The bytes of a frame held in a ring, read round its end. */
  function InRing(ring: seq<byte>, start: nat, len: nat): seq<byte>
    requires start < |ring| && len <= |ring|
  {
    seq(len, i requires 0 <= i < len => ring[(start + i) % |ring|])
  }

  /** How the vendor describes that frame. */
  function Describe(ring: seq<byte>, start: nat, len: nat, block: seq<byte>): OutDesc
    requires start < |ring| && len <= |ring|
  {
    if start + len <= |ring|
    then OutDesc(len, Some(ring[start..start + len]), len, None, 0, Some(block))
    else OutDesc(len, Some(ring[start..]), |ring| - start, Some(ring), start + len - |ring|, Some(block))
  }

  lemma WrapIndex(x: nat, n: nat)
    requires x < 2 * n
    ensures x % n == if x < n then x else x - n
  {
    if x >= n {
      assert x == n * 1 + (x - n);
      assert x / n == 1;
    }
  }

  /** Wrap transparency: for every ring, start and length the source sees the
      logical frame, so nothing it writes depends on where the frame wrapped or
      on what the allocated memory held. */
  lemma WrapTransparent(ring: seq<byte>, start: nat, len: nat, block: seq<byte>)
    requires start < |ring| < U32 && len <= |ring| && |block| == len
    ensures Readable(Describe(ring, start, len, block))
    ensures Payload(Describe(ring, start, len, block)) == InRing(ring, start, len)
  {
    var p, q := Payload(Describe(ring, start, len, block)), InRing(ring, start, len);
    assert |p| == len;
    forall i | 0 <= i < len
      ensures p[i] == q[i]
    {
      WrapIndex(start + i, |ring|);
    }
  }

  /** `memcpy` of the first `n` bytes of `src` to `dst + at`. */
  method Memcpy(dst: array<byte>, at: nat, src: seq<byte>, n: nat)
    requires n <= |src| && at + n <= dst.Length
    modifies dst
    ensures dst[..] == old(dst[..at]) + src[..n] + old(dst[at + n..])
  {
    forall i | 0 <= i < n {
      dst[at + i] := src[i];
    }
  }

  /** The two copies, one behind the other. */
  method CopyParts(frame: array<byte>, data0: seq<byte>, n0: nat, data1: seq<byte>, n1: nat)
    requires n0 <= |data0| && n1 <= |data1| && n0 + n1 <= frame.Length
    modifies frame
    ensures frame[..] == data0[..n0] + data1[..n1] + old(frame[n0 + n1..])
  {
    Memcpy(frame, 0, data0, n0);
    Memcpy(frame, n0, data1, n1);
  }

  /** The reassembly of a wrapped output in the memory `block`. The two clamps
      keep every copy inside the `total` bytes allocated, whatever sizes the
      vendor reports. */
  method Reassemble(total: nat, data0: seq<byte>, s0: nat, data1: seq<byte>, s1: nat, block: seq<byte>)
    returns (frame: array<byte>)
    requires total < U32 && s0 < U32 && s1 < U32 && |block| == total
    requires Part0(total, s0) <= |data0| && Part1(total, s0, s1) <= |data1|
    ensures fresh(frame) && frame.Length == total
    ensures frame[..] == Join(total, data0, s0, data1, s1, block)
    ensures s0 <= |data0| && s1 <= |data1| && s0 + s1 >= total ==> frame[..] == (data0[..s0] + data1[..s1])[..total]
    ensures s0 + s1 < total ==> frame[..] == data0[..s0] + data1[..s1] + block[s0 + s1..]
  {
    frame := new byte[total](i requires 0 <= i < total => block[i]);
    assert frame[..] == block;
    var n0, n1 := s0, s1;
    if n0 > total { n0 := total; }
    if n0 + n1 > total { n1 := if total > n0 then total - n0 else 0; }
    CopyParts(frame, data0, n0, data1, n1);
    if s0 <= |data0| && s1 <= |data1| { JoinCut(total, data0, s0, data1, s1, block); }
  }

  /** The byte sink behind `cedar_write_go`. */
  class Writer {
    var out: seq<byte>

    constructor ()
      ensures out == []
    {
      out := [];
    }

    method Write(data: seq<byte>)
      modifies this
      ensures out == old(out) + data
    {
      out := out + data;
    }
  }

  /** One turn of the loop: the units still to come. */
  lemma StepParse(d: seq<byte>, n: nat)
    requires 4 + n <= |d| && 0 < n && ReadBe32(d) == n
    ensures Units(d) == [d[4..4 + n]] + Units(d[4 + n..])
  {
  }

  /** The length word and the break test of the rewrite loop. */
  method NextUnit(d: seq<byte>, off: nat) returns (unit: Option<seq<byte>>)
    requires off + 4 <= |d|
    ensures unit.None? ==> Units(d[off..]) == []
    ensures unit.Some? ==> var next := off + 4 + |unit.value|;
                           off + 4 < next <= |d| && Units(d[off..]) == [unit.value] + Units(d[next..])
  {
    assert d[off..][..4] == d[off..off + 4];
    var nal := ReadBe32(d[off..off + 4]);
    if nal == 0 || off + 4 + nal > |d| { return None; }
    StepParse(d[off..], nal);
    assert d[off..][4..4 + nal] == d[off + 4..off + 4 + nal];
    assert d[off..][4 + nal..] == d[off + 4 + nal..];
    return Some(d[off + 4..off + 4 + nal]);
  }

  /** The same turn: the bytes already written. */
  lemma StepWrite(start: seq<byte>, done: seq<seq<byte>>, unit: seq<byte>)
    ensures start + AnnexB.Encode(done) + AnnexB.SC + unit == start + AnnexB.Encode(done + [unit])
  {
    AnnexB.EncodeAppend(done, [unit]);
    assert AnnexB.Encode([unit]) == AnnexB.SC + unit;
  }

  lemma Reassociate(done: seq<seq<byte>>, unit: seq<byte>, rest: seq<seq<byte>>)
    ensures done + ([unit] + rest) == done + [unit] + rest
  {
  }

  /** One unit behind its start code, after the units `done`. */
  method WriteUnit(unit: seq<byte>, w: Writer, ghost start: seq<byte>, ghost done: seq<seq<byte>>)
    requires w.out == start + AnnexB.Encode(done)
    modifies w
    ensures w.out == start + AnnexB.Encode(done + [unit])
  {
    w.Write(AnnexB.SC);
    w.Write(unit);
    StepWrite(start, done, unit);
  }

  /** The rewrite loop over the bytes `d`. */
  method RewriteUnits(d: seq<byte>, w: Writer)
    modifies w
    ensures w.out == old(w.out) + AnnexB.Encode(Units(d))
  {
    ghost var out0 := w.out;
    var off := 0;
    ghost var done: seq<seq<byte>> := [];
    assert d[0..] == d && done + Units(d) == Units(d);
    while off + 4 <= |d|
      invariant off <= |d|
      invariant Units(d) == done + Units(d[off..])
      invariant w.out == out0 + AnnexB.Encode(done)
      decreases |d| - off
    {
      var unit := NextUnit(d, off);
      if unit.None? { break; }
      var next := off + 4 + |unit.value|;
      Reassociate(done, unit.value, Units(d[next..]));
      WriteUnit(unit.value, w, out0, done);
      done := done + [unit.value];
      off := next;
    }
    assert Units(d[off..]) == [] && done + [] == done;
  }

  /** The framing test in front of it: start-code framing passes unchanged. */
  method Rewrite(d: seq<byte>, w: Writer)
    modifies w
    ensures w.out == old(w.out) + Forwarded(d)
  {
    if |d| >= 4 && d[0] == 0 && d[1] == 0 && d[2] == 0 && d[3] == 1 {
      assert d[..4] == AnnexB.SC;
      w.Write(d);
    } else {
      assert |d| >= 4 ==> d[..4][0] == d[0] && d[..4][1] == d[1] && d[..4][2] == d[2] && d[..4][3] == d[3];
      RewriteUnits(d, w);
    }
  }

  /** One output buffer from the vendor, all the way to the writer. */
  method ForwardOutput(o: OutDesc, w: Writer)
    requires Readable(o)
    modifies w
    ensures w.out == old(w.out) + Forwarded(Payload(o))
  {
    if o.data0.Some? && o.total > 0 {
      if o.data1.Some? && o.size1 > 0 && o.block.Some? {
        var frame := Reassemble(o.total, o.data0.value, o.size0, o.data1.value, o.size1, o.block.value);
        Rewrite(frame[..], w);
      } else {
        Rewrite(o.data0.value[..o.total], w);
      }
    } else {
      assert w.out == w.out + Forwarded([]);
    }
  }
}
