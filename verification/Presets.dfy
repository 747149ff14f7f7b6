/** The encoder parameters chosen for a quality name and a display size. */
module Presets {
  import opened Bytes
  import AnnexB
  import Sdp

  /** Rounding up to the macroblock size. Clearing the low four bits of a
      two's-complement number is flooring to a multiple of sixteen. */
  function Align16(n: int): (r: int)
    ensures r % 16 == 0 && n <= r < n + 16
  {
    (n + 15) / 16 * 16
  }

  const SPS_L30: seq<byte> := [0x67, 0x42, 0x40, 0x1e, 0xf4, 0x0f, 0x04, 0x72]
  const SPS_L31: seq<byte> := [0x67, 0x42, 0x40, 0x1f, 0x96, 0x54, 0x02, 0x80, 0x2d, 0xc8]
  const PPS: seq<byte> := [0x68, 0xee, 0x3c, 0x80]

  /** The SPS of each supported size; every entry has the same PPS. */
  const SPS_TABLE: map<(int, int), seq<byte>> := map[
    (480, 272) := SPS_L30,
    (640, 368) := SPS_L30,
    (1280, 720) := SPS_L31
  ]

  datatype Quality = Quality(fps: int, gop: int, kbps: int)

  const QUALITIES: map<string, Quality> := map[
    "low" := Quality(15, 8, 500),
    "medium" := Quality(30, 15, 900),
    "high" := Quality(30, 15, 1500),
    "ultra" := Quality(15, 1, 1200)
  ]

  datatype Preset = Preset(width: int, height: int, fps: int, gop: int, kbps: int, spspps: seq<byte>)

  datatype PresetResult = Ok(preset: Preset) | UnknownSize(w: int, h: int) | UnknownQuality(name: string)

  /** `CedarPresetFor`: the size is looked up before the quality. */
  function PresetFor(quality: string, nativeW: int, nativeH: int): PresetResult {
    var w, h := Align16(nativeW), Align16(nativeH);
    if (w, h) !in SPS_TABLE then UnknownSize(w, h)
    else if quality !in QUALITIES then UnknownQuality(quality)
    else
      var q := QUALITIES[quality];
      Ok(Preset(w, h, q.fps, q.gop, q.kbps, AnnexB.SC + SPS_TABLE[(w, h)] + AnnexB.SC + PPS))
  }

  /** A NAL unit without a byte one holds no start code. */
  lemma NoOneByte(nal: seq<byte>)
    requires 1 !in nal
    ensures AnnexB.Clean(nal)
  {
    forall i | 0 <= i <= |nal| - 4
      ensures !MatchAt(nal, AnnexB.SC, i)
    {
      assert nal[i..i + 4][3] == nal[i + 3] != AnnexB.SC[3];
    }
  }

  /** What the rest of the encoder relies on, for every accepted preset: a
      size it can convert and index in 32 bits, and a rate the pacing takes. */
  lemma PresetFacts(quality: string, nativeW: int, nativeH: int)
    requires PresetFor(quality, nativeW, nativeH).Ok?
    ensures var p := PresetFor(quality, nativeW, nativeH).preset;
            && nativeW <= p.width < nativeW + 16 && nativeH <= p.height < nativeH + 16
            && 0 < p.width && 0 < p.height && p.width % 16 == 0 && p.height % 16 == 0
            && p.width * p.height * 4 < 0x1_0000_0000
            && (p.fps == 15 || p.fps == 30)
  {
  }

  /** What each quality means, and which requests are refused, the size before
      the name. */
  lemma PresetExact(quality: string, nativeW: int, nativeH: int)
    ensures var w, h := Align16(nativeW), Align16(nativeH);
            match PresetFor(quality, nativeW, nativeH)
            case UnknownSize(x, y) => x == w && y == h && (w, h) !in {(480, 272), (640, 368), (1280, 720)}
            case UnknownQuality(q) =>
              && q == quality && (w, h) in {(480, 272), (640, 368), (1280, 720)}
              && quality !in {"low", "medium", "high", "ultra"}
            case Ok(p) =>
              && (w, h) in {(480, 272), (640, 368), (1280, 720)} && p.width == w && p.height == h
              && (p.fps, p.gop, p.kbps) ==
                 if quality == "low" then (15, 8, 500)
                 else if quality == "medium" then (30, 15, 900)
                 else if quality == "high" then (30, 15, 1500)
                 else (15, 1, 1200)
  {
  }

  lemma TableClean(w: int, h: int)
    requires (w, h) in SPS_TABLE
    ensures AnnexB.Clean(SPS_TABLE[(w, h)]) && AnnexB.Clean(PPS)
  {
    NoOneByte(SPS_TABLE[(w, h)]);
    NoOneByte(PPS);
  }

  lemma TwoNals(a: seq<byte>, b: seq<byte>)
    ensures AnnexB.Encode([a, b]) == AnnexB.SC + a + AnnexB.SC + b
  {
    assert [a, b][1..] == [b] && [b][1..] == [];
    assert AnnexB.Encode([b]) == AnnexB.SC + b;
  }

  /** The parameter sets split into exactly one SPS and one PPS. */
  lemma PresetSplits(quality: string, nativeW: int, nativeH: int)
    requires PresetFor(quality, nativeW, nativeH).Ok?
    ensures var p := PresetFor(quality, nativeW, nativeH).preset;
            AnnexB.Split(p.spspps) == [[], SPS_TABLE[(p.width, p.height)], PPS]
  {
    var p := PresetFor(quality, nativeW, nativeH).preset;
    var sps := SPS_TABLE[(p.width, p.height)];
    TableClean(p.width, p.height);
    TwoNals(sps, PPS);
    NoOneByte([]);
    AnnexB.SplitEncode([], [sps, PPS]);
    assert [] + AnnexB.Encode([sps, PPS]) == p.spspps;
    assert [[]] + [sps, PPS] == [[], sps, PPS];
  }

  /** Every accepted preset can be announced over RTP: the client reads back
      the table's own parameter sets. */
  lemma PresetAnnounced(quality: string, nativeW: int, nativeH: int, host: string)
    requires PresetFor(quality, nativeW, nativeH).Ok?
    requires '\n' !in host
    ensures var p := PresetFor(quality, nativeW, nativeH).preset;
            var sps := SPS_TABLE[(p.width, p.height)];
            Sdp.Parse(Sdp.Build(p.spspps, host)) == Some(Sdp.Params(sps, PPS, sps[1..4]))
  {
    var p := PresetFor(quality, nativeW, nativeH).preset;
    var sps := SPS_TABLE[(p.width, p.height)];
    NoOneByte(sps);
    Sdp.RoundTrip(sps, PPS, host);
  }

  // ------------------ the size an SPS announces (section 7.3.2.1 of ITU-T H.264)

  /** Bit `i`, the high bit of a byte first; zero behind the end. */
  function Bit(d: seq<byte>, i: nat): (b: nat)
    ensures b < 2
  {
    if i / 8 >= |d| then 0
    else
      var v := d[i / 8] as int;
      match i % 8
      case 0 => v / 128
      case 1 => v / 64 % 2
      case 2 => v / 32 % 2
      case 3 => v / 16 % 2
      case 4 => v / 8 % 2
      case 5 => v / 4 % 2
      case 6 => v / 2 % 2
      case _ => v % 2
  }

  /** `n` bits as a number. */
  function Number(d: seq<byte>, at: nat, n: nat): nat {
    if n == 0 then 0 else 2 * Number(d, at, n - 1) + Bit(d, at + n - 1)
  }

  function Zeros(d: seq<byte>, at: nat): nat
    decreases 8 * |d| - at
  {
    if at >= 8 * |d| || Bit(d, at) == 1 then 0 else 1 + Zeros(d, at + 1)
  }

  /** An unsigned Exp-Golomb code (section 9.1): some zeros, a one, and as many
      bits as there were zeros. */
  function Ue(d: seq<byte>, at: nat): int { Number(d, at + Zeros(d, at), Zeros(d, at) + 1) - 1 }

  function UeEnd(d: seq<byte>, at: nat): nat { at + 2 * Zeros(d, at) + 1 }

  /** Where the sizes stand in the SPS of a baseline profile with picture order
      count type 0: behind four bytes, the codes for identifier, frame number
      bits, order count type, order count bits and reference frames, and a flag. */
  function SizeAt(sps: seq<byte>): nat {
    UeEnd(sps, UeEnd(sps, UeEnd(sps, UeEnd(sps, UeEnd(sps, 32))))) + 1
  }

  /** Width and height, coded in macroblocks less one. */
  function SpsSize(sps: seq<byte>): (int, int) {
    (16 * (Ue(sps, SizeAt(sps)) + 1), 16 * (Ue(sps, UeEnd(sps, SizeAt(sps))) + 1))
  }

  /** A code with `z` zeros at `at`. */
  lemma {:induction false} ZerosAre(d: seq<byte>, at: nat, z: nat)
    requires at + z < 8 * |d| && Bit(d, at + z) == 1 && forall j :: at <= j < at + z ==> Bit(d, j) == 0
    ensures Zeros(d, at) == z
    decreases z
  {
    if z > 0 { ZerosAre(d, at + 1, z - 1); }
  }

  lemma NumberMore(d: seq<byte>, at: nat, n: nat)
    ensures Number(d, at, n + 1) == 2 * Number(d, at, n) + Bit(d, at + n)
  {
  }

  lemma Width30(d: seq<byte>)
    requires |d| == 8 && d[4] == 0xf4 && d[5] == 0x0f && d[6] == 0x04 && d[7] == 0x72
    ensures Number(d, 44, 5) == 30
  {
    assert Bit(d, 44) == 1 && Bit(d, 45) == 1 && Bit(d, 46) == 1 && Bit(d, 47) == 1 && Bit(d, 48) == 0;
    NumberMore(d, 44, 0);
    NumberMore(d, 44, 1);
    NumberMore(d, 44, 2);
    NumberMore(d, 44, 3);
    NumberMore(d, 44, 4);
  }

  lemma Height30(d: seq<byte>)
    requires |d| == 8 && d[4] == 0xf4 && d[5] == 0x0f && d[6] == 0x04 && d[7] == 0x72
    ensures Number(d, 53, 5) == 17
  {
    assert Bit(d, 53) == 1 && Bit(d, 54) == 0 && Bit(d, 55) == 0 && Bit(d, 56) == 0 && Bit(d, 57) == 1;
    NumberMore(d, 53, 0);
    NumberMore(d, 53, 1);
    NumberMore(d, 53, 2);
    NumberMore(d, 53, 3);
    NumberMore(d, 53, 4);
  }

  lemma Width31(d: seq<byte>)
    requires |d| == 10 && d[4] == 0x96 && d[5] == 0x54 && d[6] == 0x02 && d[7] == 0x80 && d[8] == 0x2d
    ensures Number(d, 54, 7) == 80
  {
    assert Bit(d, 54) == 1 && Bit(d, 55) == 0 && Bit(d, 56) == 1 && Bit(d, 57) == 0;
    assert Bit(d, 58) == 0 && Bit(d, 59) == 0 && Bit(d, 60) == 0;
    NumberMore(d, 54, 0);
    NumberMore(d, 54, 1);
    NumberMore(d, 54, 2);
    NumberMore(d, 54, 3);
    NumberMore(d, 54, 4);
    NumberMore(d, 54, 5);
    NumberMore(d, 54, 6);
  }

  lemma Height31(d: seq<byte>)
    requires |d| == 10 && d[4] == 0x96 && d[5] == 0x54 && d[6] == 0x02 && d[7] == 0x80 && d[8] == 0x2d
    ensures Number(d, 66, 6) == 45
  {
    assert Bit(d, 66) == 1 && Bit(d, 67) == 0 && Bit(d, 68) == 1 && Bit(d, 69) == 1;
    assert Bit(d, 70) == 0 && Bit(d, 71) == 1;
    NumberMore(d, 66, 0);
    NumberMore(d, 66, 1);
    NumberMore(d, 66, 2);
    NumberMore(d, 66, 3);
    NumberMore(d, 66, 4);
    NumberMore(d, 66, 5);
  }

  lemma Codes30(d: seq<byte>)
    requires |d| == 8 && d[4] == 0xf4 && d[5] == 0x0f && d[6] == 0x04 && d[7] == 0x72
    ensures SizeAt(d) == 40
  {
    ZerosAre(d, 32, 0);
    ZerosAre(d, 33, 0);
    ZerosAre(d, 34, 0);
    ZerosAre(d, 35, 0);
    ZerosAre(d, 36, 1);
  }

  lemma Codes31(d: seq<byte>)
    requires |d| == 10 && d[4] == 0x96 && d[5] == 0x54 && d[6] == 0x02 && d[7] == 0x80 && d[8] == 0x2d
    ensures SizeAt(d) == 48
  {
    ZerosAre(d, 32, 0);
    ZerosAre(d, 33, 2);
    ZerosAre(d, 38, 0);
    ZerosAre(d, 39, 2);
    ZerosAre(d, 44, 1);
  }

  lemma UeIs(d: seq<byte>, at: nat, z: nat, m: nat)
    requires Zeros(d, at) == z && Number(d, at + z, z + 1) == m
    ensures Ue(d, at) == m - 1 && UeEnd(d, at) == at + 2 * z + 1
  {
  }

  lemma Zeros30(d: seq<byte>)
    requires |d| == 8 && d[4] == 0xf4 && d[5] == 0x0f && d[6] == 0x04 && d[7] == 0x72
    ensures Zeros(d, 40) == 4 && Zeros(d, 49) == 4
  {
    ZerosAre(d, 40, 4);
    ZerosAre(d, 49, 4);
  }

  lemma Zeros31(d: seq<byte>)
    requires |d| == 10 && d[4] == 0x96 && d[5] == 0x54 && d[6] == 0x02 && d[7] == 0x80 && d[8] == 0x2d
    ensures Zeros(d, 48) == 6 && Zeros(d, 61) == 5
  {
    ZerosAre(d, 48, 6);
    ZerosAre(d, 61, 5);
  }

  lemma Sizes(d: seq<byte>, w: nat, h: nat, mw: int, mh: int)
    requires SizeAt(d) == w && UeEnd(d, w) == h && Ue(d, w) == mw - 1 && Ue(d, h) == mh - 1
    ensures SpsSize(d) == (16 * mw, 16 * mh)
  {
  }

  /** Behind the sizes: frames only, no cropping, no further parameters, and the
      stop bit, so the sizes are those of the picture. */
  predicate WholeFrames(sps: seq<byte>) {
    var at := UeEnd(sps, UeEnd(sps, SizeAt(sps)));
    Bit(sps, at) == 1 && Bit(sps, at + 2) == 0 && Bit(sps, at + 3) == 0 && Bit(sps, at + 4) == 1
  }

  lemma Whole(d: seq<byte>, at: nat)
    requires UeEnd(d, UeEnd(d, SizeAt(d))) == at
    requires Bit(d, at) == 1 && Bit(d, at + 2) == 0 && Bit(d, at + 3) == 0 && Bit(d, at + 4) == 1
    ensures WholeFrames(d)
  {
  }

  lemma Size30(d: seq<byte>)
    requires |d| == 8 && d[4] == 0xf4 && d[5] == 0x0f && d[6] == 0x04 && d[7] == 0x72
    ensures SpsSize(d) == (480, 272) && WholeFrames(d)
  {
    Codes30(d);
    Zeros30(d);
    Width30(d);
    Height30(d);
    UeIs(d, 40, 4, 30);
    UeIs(d, 49, 4, 17);
    Sizes(d, 40, 49, 30, 17);
    Whole(d, 58);
  }

  lemma Size31(d: seq<byte>)
    requires |d| == 10 && d[4] == 0x96 && d[5] == 0x54 && d[6] == 0x02 && d[7] == 0x80 && d[8] == 0x2d
    requires d[9] == 0xc8
    ensures SpsSize(d) == (1280, 720) && WholeFrames(d)
  {
    Codes31(d);
    Zeros31(d);
    Width31(d);
    Height31(d);
    UeIs(d, 48, 6, 80);
    UeIs(d, 61, 5, 45);
    Sizes(d, 48, 61, 80, 45);
    Whole(d, 72);
  }

  /** The SPS of a supported size announces that size, uncropped, except that of
      640 by 368, which announces 480 by 272. */
  lemma SizeAnnounced(w: int, h: int)
    requires (w, h) in SPS_TABLE
    ensures SpsSize(SPS_TABLE[(w, h)]) == (w, h) <==> (w, h) != (640, 368)
    ensures (w, h) == (640, 368) ==> SpsSize(SPS_TABLE[(w, h)]) == (480, 272)
    ensures WholeFrames(SPS_TABLE[(w, h)])
  {
    if (w, h) == (1280, 720) {
      Size31(SPS_TABLE[(w, h)]);
    } else {
      Size30(SPS_TABLE[(w, h)]);
    }
  }

  /** Unit types, baseline profile and level; and the PPS: both identifiers zero,
      arithmetic coding, and nothing behind the stop bit. */
  lemma SetsExact(w: int, h: int)
    requires (w, h) in SPS_TABLE
    ensures SPS_TABLE[(w, h)][0] as int % 32 == 7 && SPS_TABLE[(w, h)][1] == 66 && SPS_TABLE[(w, h)][2] == 64
    ensures SPS_TABLE[(w, h)][3] == if h == 720 then 31 else 30
    ensures |PPS| == 4 && PPS[0] as int % 32 == 8 && PPS[1] == 238 && PPS[2] == 60 && PPS[3] == 128
    ensures Bit(PPS, 8) == 1 && Bit(PPS, 9) == 1 && Bit(PPS, 10) == 1
    ensures Bit(PPS, 24) == 1 && forall i :: 25 <= i < 32 ==> Bit(PPS, i) == 0
  {
    assert PPS[3] == 0x80;
    forall i | 25 <= i < 32 ensures Bit(PPS, i) == 0 {
      assert i / 8 == 3 && i % 8 == i - 24;
    }
  }
}
