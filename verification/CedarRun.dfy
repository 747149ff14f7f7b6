/** The encode loop: setup, one frame after another, and the cleanup that
    every exit goes through. */
module CedarRun {
  import opened Bytes
  import opened Vendor
  import Framing
  import Nv12
  import Pacing

  datatype Config = Config(width: nat, height: nat, fps: nat, bpp: int, inputBuffers: nat, maxFrames: int)

  /** What the Go side hands over: aligned sizes, a positive rate, 16 or 32
      bits a pixel. */
  predicate Usable(c: Config) {
    && c.width % 2 == 0 && c.height % 2 == 0
    && 1 <= c.fps <= 1_000_000
    && (c.bpp == 16 || c.bpp == 32)
  }

  /** Pixels of a frame. */
  function Area(c: Config): nat { c.width * c.height }

  function FbSize(c: Config): nat
    requires Usable(c)
  {
    Area(c) * (c.bpp / 8)
  }

  /** The framebuffer bytes as little-endian 16-bit pixels. */
  function Words(fb: seq<byte>): (px: seq<Nv12.uint16>)
    ensures |px| == |fb| / 2
  {
    seq(|fb| / 2, i requires 0 <= i < |fb| / 2 => fb[2 * i] as int + 256 * fb[2 * i + 1] as int)
  }

  lemma SizeSplit(c: Config)
    requires Usable(c)
    ensures c.bpp == 16 ==> FbSize(c) == 2 * Area(c)
    ensures c.bpp == 32 ==> FbSize(c) == 4 * Area(c)
    ensures Nv12.ChromaSize(c.width, c.height) == Area(c) / 2
  {
    if c.width > 0 && c.height > 0 {
      Nv12.ChromaFits(c.width, c.height);
    } else {
      assert c.width == 0 ==> Nv12.Stride(c.width) == 0;
    }
  }

  /** The low byte of a pixel comes first. */
  lemma WordsExact(fb: seq<byte>, i: nat)
    requires 2 * i + 1 < |fb|
    ensures Words(fb)[i] as int % 256 == fb[2 * i] as int && Words(fb)[i] as int / 256 == fb[2 * i + 1] as int
  {
  }

  /** The picture a framebuffer read shows. */
  function Picture(c: Config, fb: seq<byte>): (p: seq<Nv12.Rgb>)
    requires Usable(c) && |fb| == FbSize(c)
    ensures |p| == Area(c)
  {
    SizeSplit(c);
    if c.bpp == 16 then Nv12.Pixels565(Words(fb), Area(c)) else Nv12.PixelsBgra(fb, Area(c))
  }

  /** The `k`-th frame submitted, given what was read from the framebuffer. */
  function Expected(c: Config, fb: seq<byte>, k: nat): Input
    requires Usable(c) && |fb| == FbSize(c)
  {
    var p := Picture(c, fb);
    Input(Nv12.Luma(p), Nv12.ChromaRows(p, c.width, c.height), k == 0, c.maxFrames > 0 && k + 1 >= c.maxFrames,
          Pacing.Pts(c.fps, k), 1_000_000 / c.fps)
  }

  /** The two bytes of a pixel show a colour. */
  predicate Shows(low: byte, high: byte, p: Nv12.Rgb) {
    && Nv12.Stretched(high as int / 8, 31, p.r)
    && Nv12.Stretched(high as int % 8 * 8 + low as int / 32, 63, p.g)
    && Nv12.Stretched(low as int % 32, 31, p.b)
  }

  lemma FiveSixFive(w: Nv12.uint16, low: byte, high: byte)
    requires w as int == 256 * high as int + low as int
    ensures w as int / 2048 == high as int / 8
    ensures w as int / 32 % 64 == high as int % 8 * 8 + low as int / 32
    ensures w as int % 32 == low as int % 32
  {
    var h, l: int := high as int, low as int;
    assert w as int / 32 == 8 * h + l / 32;
    assert h == 8 * (h / 8) + h % 8;
  }

  /** What is in the picture, told by the framebuffer's bytes: blue, green, red
      and an unused one, or five, six and five bits in two bytes, low byte first. */
  lemma PictureExact(c: Config, fb: seq<byte>, i: nat)
    requires Usable(c) && |fb| == FbSize(c) && i < Area(c)
    ensures c.bpp == 32 ==>
              |fb| == 4 * Area(c) && Picture(c, fb)[i] == Nv12.Rgb(fb[4 * i + 2], fb[4 * i + 1], fb[4 * i])
    ensures c.bpp == 16 ==> |fb| == 2 * Area(c) && Shows(fb[2 * i], fb[2 * i + 1], Picture(c, fb)[i])
  {
    SizeSplit(c);
    if c.bpp == 16 {
      var words := Words(fb);
      WordsExact(fb, i);
      Nv12.Pixel565At(words, Area(c), i);
      Nv12.Expand565Exact(words[i]);
      FiveSixFive(words[i], fb[2 * i], fb[2 * i + 1]);
    }
  }

  lemma FrameTime(fps: nat, k: nat)
    requires fps > 0
    ensures fps * (1_000_000 / fps) <= 1_000_000 < fps * (1_000_000 / fps + 1)
    ensures Pacing.Pts(fps, 0) == 0 && Pacing.Pts(fps, k + 1) == Pacing.Pts(fps, k) + 1_000_000 / fps
  {
    var d := 1_000_000 / fps;
    assert 1_000_000 == fps * d + 1_000_000 % fps;
    assert fps * (d + 1) == fps * d + fps;
    assert (k + 1) * d == k * d + d;
  }

  /** What is submitted: planes that fill the pool's, every luma code the nearest
      to its pixel's, key and end flags, and time stamps that follow each other
      without a gap, a frame time apart. */
  lemma ExpectedExact(c: Config, fb: seq<byte>, k: nat)
    requires Usable(c) && |fb| == FbSize(c)
    ensures var x, p := Expected(c, fb, k), Picture(c, fb);
            && |x.y| == Area(c) && |x.uv| == Area(c) / 2
            && (forall i :: 0 <= i < Area(c) ==>
                  Nv12.Rounds(66 * p[i].r as int + 129 * p[i].g as int + 25 * p[i].b as int, x.y[i] as int - 16))
            && (x.first <==> k == 0) && (x.last <==> 0 < c.maxFrames <= k + 1)
            && c.fps * x.duration <= 1_000_000 < c.fps * (x.duration + 1)
            && Expected(c, fb, 0).pts == 0 && Expected(c, fb, k + 1).pts == x.pts + x.duration
  {
    var x, p := Expected(c, fb, k), Picture(c, fb);
    SizeSplit(c);
    Nv12.RowsSize(p, c.width, c.height);
    forall i | 0 <= i < Area(c)
      ensures Nv12.Rounds(66 * p[i].r as int + 129 * p[i].g as int + 25 * p[i].b as int, x.y[i] as int - 16)
    {
      Nv12.ColourAccurate(p[i]);
    }
    FrameTime(c.fps, k);
  }

  /** At most one pool was asked for, of one buffer at least, with planes for
      one frame; and only whole frames were read. */
  ghost predicate Requested(c: Config, pools: seq<(nat, nat, nat)>, sizes: seq<nat>)
    requires Usable(c)
  {
    && (pools == [] || pools == [(if c.inputBuffers == 0 then 1 else c.inputBuffers, Area(c), Area(c) / 2)])
    && forall n :: n in sizes ==> n == FbSize(c)
  }

  /** Every submission is the conversion of its own framebuffer read. */
  ghost predicate Faithful(c: Config, shots: seq<seq<byte>>, inputs: seq<Input>)
    requires Usable(c)
  {
    && |inputs| == |shots|
    && (forall k :: 0 <= k < |shots| ==> |shots[k]| == FbSize(c))
    && (forall k :: 0 <= k < |shots| ==> inputs[k] == Expected(c, shots[k], k))
  }

  /** Frame `k` is followed by a sleep until `k + 1` steps after the start. */
  ghost predicate Paced(sleeps: seq<int>, start: int, step: nat) {
    forall k :: 0 <= k < |sleeps| ==> sleeps[k] == Pacing.Deadline(start, step, k + 1)
  }

  lemma FaithfulGrows(c: Config, shots: seq<seq<byte>>, inputs: seq<Input>, fb: seq<byte>)
    requires Usable(c) && Faithful(c, shots, inputs) && |fb| == FbSize(c)
    ensures Faithful(c, shots + [fb], inputs + [Expected(c, fb, |shots|)])
  {
    var more := shots + [fb];
    var sent := inputs + [Expected(c, fb, |shots|)];
    forall k | 0 <= k < |more|
      ensures |more[k]| == FbSize(c) && sent[k] == Expected(c, more[k], k)
    {
      if k < |shots| { assert more[k] == shots[k] && sent[k] == inputs[k]; }
    }
  }

  lemma PacedGrows(sleeps: seq<int>, start: int, step: nat)
    requires Paced(sleeps, start, step)
    ensures Paced(sleeps + [Pacing.Deadline(start, step, |sleeps| + 1)], start, step)
  {
  }

  lemma StepShort(fps: nat)
    requires fps >= 1
    ensures Pacing.FrameNs(fps) <= Pacing.SECOND
  {
  }

  /** A failed call before there is a frame on its way, or the loop's end. */
  predicate Quits(e: Event) {
    match e
    case FbOpen(ok) => !ok
    case Check(ok) => !ok
    case MemOpen(ok) => !ok
    case Create(ok) => !ok
    case Init(ok) => !ok
    case AllocPool(_, _, _, ok) => !ok
    case GetInput(ok) => !ok
    case Poll(_) => true
    case FbRead(_, _, ok) => !ok
    case AddInput(_, ok) => !ok
    case _ => false
  }

  predicate Allocated(e: Event) { e.AllocPool? && e.ok }

  /** Only the protocol state moved, and a failure is remembered. */
  ghost predicate OnlyProto(was: View, now: View, ok: bool) {
    now == was.(proto := now.proto, failed := was.failed || !ok)
  }

  /** The variables of `cedar_run`, its flags among them. */
  class Session {
    const cfg: Config
    const lib: Library
    const writer: Framing.Writer
    const next: Pacing.Timespec
    const frameNs: nat
    ghost const start: int
    ghost const out0: seq<byte>
    ghost const pool: (nat, nat, nat)
    ghost const frameSize: nat

    var fbOpen: bool
    var memOpen: bool
    var enc: bool
    var encInit: bool
    var bufAlloc: bool
    var bufGot: bool
    var bufSubmitted: bool
    var firstFrame: bool
    var frameCount: nat
    var planeY: array<byte>
    var planeUV: array<byte>

    /** What was asked for so far. */
    ghost predicate Asked(t: Trail) {
      (t.pools == [] || t.pools == [pool]) && forall n :: n in t.sizes ==> n == frameSize
    }

    /** The last event was `e`. */
    ghost predicate Last(e: Event)
      reads lib
    {
      lib.trail.last == Some(e)
    }

    /** The flags tell the protocol state exactly, while `bits` output frames
        are in hand, and the calls were in order so far. */
    ghost predicate LinkedWith(bits: nat)
      reads this, lib
    {
      && lib.Valid()
      && lib.view.proto.Some?
      && var p := lib.view.proto.value;
      && p.fb.Held? == fbOpen && p.mem.Held? == memOpen && p.enc.Held? == enc
      && p.init.Held? == encInit && p.pool.Held? == bufAlloc
      && p.out == (if bufGot then 1 else 0) && p.queued == (if lib.view.owed then 1 else 0) && p.bits == bits
      && !p.dirty && Nesting(p) && (bufAlloc ==> p.size > 0)
      && (bufSubmitted ==> bufGot) && (bufGot ==> bufAlloc)
      && (lib.view.owed ==> bufSubmitted)
      && lib.trail.ordered && Asked(lib.trail)
    }

    /** The flags tell the protocol state exactly. */
    ghost predicate Linked()
      reads this, lib
    {
      LinkedWith(0)
    }

    /** The run so far has done with every frame what it should. */
    ghost predicate Working()
      reads this, lib, writer, next
    {
      && Usable(cfg)
      && Faithful(cfg, lib.view.shots, lib.view.inputs)
      && Paced(lib.view.sleeps, start, frameNs)
      && writer.out == out0 + Framing.Emitted(lib.view.payloads)
      && next.Normal() && next.Total() == Pacing.Deadline(start, frameNs, frameCount) && frameNs <= Pacing.SECOND
      && frameCount == |lib.view.sleeps|
    }

    constructor (cfg: Config, lib: Library, writer: Framing.Writer, now: int)
      requires Usable(cfg) && lib.Valid() && lib.trace == []
      ensures this.cfg == cfg && this.lib == lib && this.writer == writer && frameNs == Pacing.FrameNs(cfg.fps)
      ensures fresh(next) && start == now && out0 == writer.out
      ensures Linked() && Working() && !bufGot && !bufSubmitted && firstFrame && frameCount == 0
      ensures lib.view == NO_VIEW && lib.trail.last == None && lib.trail.pools == []
      ensures pool == (if cfg.inputBuffers != 0 then cfg.inputBuffers else 1, Area(cfg), Area(cfg) / 2)
      ensures frameSize == FbSize(cfg)
    {
      pool := (if cfg.inputBuffers != 0 then cfg.inputBuffers else 1, Area(cfg), Area(cfg) / 2);
      frameSize := FbSize(cfg);
      this.cfg := cfg;
      this.lib := lib;
      this.writer := writer;
      start := now;
      out0 := writer.out;
      fbOpen, memOpen, enc, encInit, bufAlloc := false, false, false, false, false;
      bufGot, bufSubmitted := false, false;
      firstFrame, frameCount := true, 0;
      planeY, planeUV := new byte[0], new byte[0];
      frameNs := Pacing.FrameNs(cfg.fps);
      StepShort(cfg.fps);
      next := new Pacing.Timespec(now / Pacing.SECOND, now % Pacing.SECOND);
    }

    /** Ready for the next frame. */
    ghost predicate Ready()
      reads this, lib, writer, next
    {
      && Linked() && Working()
      && bufGot && !bufSubmitted && planeY != planeUV
      && planeY.Length == Area(cfg) && planeUV.Length == Area(cfg) / 2
      && frameCount == |lib.view.shots| && firstFrame == (frameCount == 0) && frameSize == FbSize(cfg)
      && (cfg.maxFrames > 0 ==> frameCount <= cfg.maxFrames)
    }

    /** The loop guard comes next. */
    ghost predicate AtTop()
      reads lib
    {
      lib.trail.last.Some? && (lib.trail.last.value == Check(true) || lib.trail.last.value.Sleep?)
    }

    /** Plain checks with no resource behind them. */
    method Require() returns (ok: bool)
      requires Linked()
      requires lib.trail.last.Some? && May(lib.trail.last, Check(true))
      modifies lib
      ensures Linked() && OnlyProto(old(lib.view), lib.view, ok) && lib.view.proto == old(lib.view.proto)
      ensures Last(Check(ok)) && lib.trail.pools == old(lib.trail.pools)
    {
      ok := lib.Attempt(Check(true), Check(false));
    }

    method OpenFb() returns (ok: bool)
      requires Linked() && lib.view.proto == Some(FRESH)
      requires lib.trail.last == None
      modifies this`fbOpen, lib
      ensures Linked() && OnlyProto(old(lib.view), lib.view, ok)
      ensures lib.view.proto == Some(FRESH.(fb := Vendor.Take(ok)))
      ensures Last(FbOpen(ok)) && lib.trail.pools == old(lib.trail.pools)
    {
      ok := lib.Attempt(FbOpen(true), FbOpen(false));
      fbOpen := ok;
    }

    method OpenMem() returns (ok: bool)
      requires Linked() && lib.view.proto == Some(FRESH.(fb := Held))
      requires Last(Check(true))
      modifies this`memOpen, lib
      ensures Linked() && OnlyProto(old(lib.view), lib.view, ok)
      ensures lib.view.proto == Some(FRESH.(fb := Held, mem := Vendor.Take(ok)))
      ensures Last(MemOpen(ok)) && lib.trail.pools == old(lib.trail.pools)
    {
      ok := lib.Attempt(MemOpen(true), MemOpen(false));
      memOpen := ok;
    }

    method CreateEncoder() returns (ok: bool)
      requires Linked() && lib.view.proto == Some(FRESH.(fb := Held, mem := Held))
      requires Last(MemOpen(true))
      modifies this`enc, lib
      ensures Linked() && OnlyProto(old(lib.view), lib.view, ok)
      ensures lib.view.proto == Some(FRESH.(fb := Held, mem := Held, enc := Vendor.Take(ok)))
      ensures Last(Create(ok)) && lib.trail.pools == old(lib.trail.pools)
    {
      ok := lib.Attempt(Create(true), Create(false));
      enc := ok;
    }

    method InitEncoder() returns (ok: bool)
      requires Linked() && lib.view.proto == Some(FRESH.(fb := Held, mem := Held, enc := Held))
      requires Last(Create(true))
      modifies this`encInit, lib
      ensures Linked() && OnlyProto(old(lib.view), lib.view, ok)
      ensures lib.view.proto == Some(FRESH.(fb := Held, mem := Held, enc := Held, init := Vendor.Take(ok)))
      ensures Last(Init(ok)) && lib.trail.pools == old(lib.trail.pools)
    {
      ok := lib.Attempt(Init(true), Init(false));
      encInit := ok;
    }

    method AllocBuffers(n: nat, sizeY: nat, sizeC: nat) returns (ok: bool)
      requires Linked() && n > 0 && lib.view.proto == Some(FRESH.(fb := Held, mem := Held, enc := Held, init := Held))
      requires Last(Init(true)) && lib.trail.pools == [] && pool == (n, sizeY, sizeC)
      modifies this`bufAlloc, lib
      ensures Linked() && !bufGot && OnlyProto(old(lib.view), lib.view, ok) && bufAlloc == ok
      ensures Last(AllocPool(n, sizeY, sizeC, ok))
    {
      ok := lib.Attempt(AllocPool(n, sizeY, sizeC, true), AllocPool(n, sizeY, sizeC, false));
      bufAlloc := ok;
    }

    /** The pool, of one buffer when none was asked for. */
    method AllocInput() returns (ok: bool)
      requires Linked() && lib.view.proto == Some(FRESH.(fb := Held, mem := Held, enc := Held, init := Held))
      requires Last(Init(true)) && lib.trail.pools == []
      requires pool == (if cfg.inputBuffers != 0 then cfg.inputBuffers else 1, Area(cfg), Area(cfg) / 2)
      modifies this`bufAlloc, lib
      ensures Linked() && !bufGot && OnlyProto(old(lib.view), lib.view, ok) && bufAlloc == ok
      ensures lib.trail.last.Some? && lib.trail.last.value.AllocPool? && lib.trail.last.value.ok == ok
    {
      var n := if cfg.inputBuffers != 0 then cfg.inputBuffers else 1;
      ok := AllocBuffers(n, Area(cfg), Area(cfg) / 2);
    }

    /** `GetOneAllocInputBuffer`. */
    method TakeBuffer() returns (ok: bool)
      requires Linked() && bufAlloc && !bufGot
      requires Last(Check(true)) || Last(ReturnInput)
      modifies this`bufGot, lib
      ensures Linked() && !bufSubmitted && OnlyProto(old(lib.view), lib.view, ok) && bufGot == ok
      ensures lib.pos >= old(lib.pos) && Last(Event.GetInput(ok))
    {
      ok := lib.Attempt(Event.GetInput(true), Event.GetInput(false));
      bufGot := ok;
    }

    method GetPlanes(sizeY: nat, sizeC: nat) returns (ok: bool)
      requires Linked() && bufAlloc && !bufGot
      requires Last(Check(true)) || Last(ReturnInput)
      modifies this`bufGot, this`planeY, this`planeUV, lib
      ensures Linked() && !bufSubmitted && OnlyProto(old(lib.view), lib.view, ok) && bufGot == ok
      ensures lib.pos >= old(lib.pos)
      ensures fresh(planeY) && fresh(planeUV) && planeY != planeUV && planeY.Length == sizeY && planeUV.Length == sizeC
      ensures Last(Event.GetInput(ok))
    {
      ok := TakeBuffer();
      planeY, planeUV := lib.Planes(sizeY, sizeC);
    }

    /** Take one input buffer from the pool. */
    method GetBuffer() returns (ok: bool)
      requires Linked() && bufAlloc && !bufGot
      requires Last(Check(true)) || Last(ReturnInput)
      modifies this`bufGot, this`planeY, this`planeUV, lib
      ensures Linked() && !bufSubmitted && OnlyProto(old(lib.view), lib.view, ok) && bufGot == ok
      ensures lib.pos >= old(lib.pos)
      ensures fresh(planeY) && fresh(planeUV) && planeY != planeUV
      ensures planeY.Length == Area(cfg) && planeUV.Length == Area(cfg) / 2
      ensures Last(Event.GetInput(ok))
    {
      ok := GetPlanes(Area(cfg), Area(cfg) / 2);
    }

    /** The framebuffer, the libraries and the memory adapter. */
    method OpenDevices() returns (ok: bool)
      requires Linked() && lib.view.proto == Some(FRESH)
      requires lib.trail.last == None
      modifies this`fbOpen, this`memOpen, lib
      ensures Linked() && OnlyProto(old(lib.view), lib.view, ok)
      ensures ok ==> lib.view.proto == Some(FRESH.(fb := Held, mem := Held))
      ensures lib.trail.last.Some? && (if ok then Last(MemOpen(true)) else Quits(lib.trail.last.value))
      ensures lib.trail.pools == old(lib.trail.pools)
    {
      ok := OpenFb();
      if ok { ok := Require(); }         // frame memory
      if ok { ok := Require(); }         // library symbols
      if ok { ok := Require(); }         // operation tables
      if ok { ok := OpenMem(); }
    }

    /** The encoder and its buffer pool. */
    method OpenEncoder() returns (ok: bool)
      requires Linked() && lib.view.proto == Some(FRESH.(fb := Held, mem := Held))
      requires Last(MemOpen(true)) && lib.trail.pools == []
      requires pool == (if cfg.inputBuffers != 0 then cfg.inputBuffers else 1, Area(cfg), Area(cfg) / 2)
      modifies this`enc, this`encInit, this`bufAlloc, lib
      ensures Linked() && !bufGot && OnlyProto(old(lib.view), lib.view, ok)
      ensures ok ==> bufAlloc
      ensures lib.trail.last.Some? && (if ok then Allocated(lib.trail.last.value) else Quits(lib.trail.last.value))
    {
      ok := CreateEncoder();
      if ok { ok := InitEncoder(); }
      if ok { ok := AllocInput(); }
    }

    /** The buffer descriptors and the first input buffer. */
    method OpenBuffers() returns (ok: bool)
      requires Linked() && bufAlloc && !bufGot
      requires lib.trail.last.Some? && Allocated(lib.trail.last.value)
      modifies this`bufGot, this`planeY, this`planeUV, lib
      ensures Linked() && !bufSubmitted && OnlyProto(old(lib.view), lib.view, ok)
      ensures ok ==> bufGot && fresh(planeY) && fresh(planeUV) && planeY != planeUV
      ensures ok ==> planeY.Length == Area(cfg) && planeUV.Length == Area(cfg) / 2
      ensures if ok then Last(Check(true)) else lib.trail.last.Some? && Quits(lib.trail.last.value)
    {
      ok := Require();                   // descriptor memory
      if ok { ok := GetBuffer(); }
      if ok { ok := Require(); }         // plane addresses
    }

    /** Everything before the encode loop. */
    method Setup() returns (ok: bool)
      requires Linked() && !bufGot && !bufSubmitted && lib.view.proto == Some(FRESH)
      requires lib.trail.last == None && lib.trail.pools == []
      requires pool == (if cfg.inputBuffers != 0 then cfg.inputBuffers else 1, Area(cfg), Area(cfg) / 2)
      modifies this`fbOpen, this`memOpen, this`enc, this`encInit, this`bufAlloc, this`bufGot
      modifies this`planeY, this`planeUV, lib
      ensures Linked() && !bufSubmitted && OnlyProto(old(lib.view), lib.view, ok)
      ensures ok ==> bufGot && fresh(planeY) && fresh(planeUV) && planeY != planeUV
      ensures ok ==> planeY.Length == Area(cfg) && planeUV.Length == Area(cfg) / 2
      ensures if ok then Last(Check(true)) else lib.trail.last.Some? && Quits(lib.trail.last.value)
    {
      ok := OpenDevices();
      if ok { ok := OpenEncoder(); }
      if ok { ok := OpenBuffers(); }
    }

    /** Read the framebuffer. */
    method ReadPixels() returns (ok: bool, pixels: seq<byte>)
      requires Usable(cfg) && frameSize == FbSize(cfg)
      requires Linked() && !bufSubmitted && bufGot && fbOpen && Last(Poll(false))
      modifies lib
      ensures Linked() && lib.pos >= old(lib.pos) && Last(FbRead(FbSize(cfg), pixels, ok))
      ensures !ok ==> OnlyProto(old(lib.view), lib.view, false)
      ensures ok ==> |pixels| == FbSize(cfg)
      ensures ok ==> lib.view == old(lib.view).(proto := lib.view.proto, shots := old(lib.view.shots) + [pixels])
    {
      ok, pixels := lib.ReadFb(FbSize(cfg));
    }

    /** Convert what was read into the input planes. */
    method Convert(pixels: seq<byte>)
      requires Usable(cfg) && |pixels| == FbSize(cfg) && planeY != planeUV
      requires planeY.Length == Area(cfg) && planeUV.Length == Area(cfg) / 2
      modifies planeY, planeUV
      ensures planeY[..] == Nv12.Luma(Picture(cfg, pixels))
      ensures planeUV[..] == Nv12.ChromaRows(Picture(cfg, pixels), cfg.width, cfg.height)
    {
      SizeSplit(cfg);
      if cfg.bpp == 16 {
        Nv12.Rgb565ToNv12(Words(pixels), planeY, planeUV, cfg.width, cfg.height);
      } else {
        Nv12.BgraToNv12(pixels, planeY, planeUV, cfg.width, cfg.height);
      }
      Nv12.RowsSize(Picture(cfg, pixels), cfg.width, cfg.height);
    }

    /** Read the framebuffer and convert it into the input planes. */
    method Capture() returns (ok: bool, ghost fb: seq<byte>)
      requires Ready() && Last(Poll(false))
      modifies lib, planeY, planeUV
      ensures Linked() && lib.pos >= old(lib.pos) && Last(FbRead(FbSize(cfg), fb, ok))
      ensures !ok ==> OnlyProto(old(lib.view), lib.view, false)
      ensures ok ==> |fb| == FbSize(cfg)
      ensures ok ==> lib.view == old(lib.view).(proto := lib.view.proto, shots := old(lib.view.shots) + [fb])
      ensures ok ==> planeY[..] == Nv12.Luma(Picture(cfg, fb))
      ensures ok ==> planeUV[..] == Nv12.ChromaRows(Picture(cfg, fb), cfg.width, cfg.height)
    {
      var pixels;
      ok, pixels := ReadPixels();
      fb := pixels;
      if ok { Convert(pixels); }
    }

    method FlushCache()
      requires Linked() && bufGot && !bufSubmitted
      requires lib.trail.last.Some? && lib.trail.last.value.FbRead? && lib.trail.last.value.ok
      modifies lib
      ensures Linked() && lib.pos == old(lib.pos) && lib.view == old(lib.view).(proto := lib.view.proto)
      ensures Last(Flush) && lib.view.proto.value.flushed
    {
      lib.Log(Flush);
    }

    method AddFrame(input: Input) returns (ok: bool)
      requires Linked() && bufGot && !bufSubmitted && Last(Flush) && lib.view.proto.value.flushed
      modifies lib, this`bufSubmitted
      ensures Linked() && lib.pos >= old(lib.pos) && bufSubmitted == ok && Last(AddInput(input, ok))
      ensures lib.view == old(lib.view).(proto := lib.view.proto, failed := old(lib.view.failed) || !ok, owed := ok,
                                         inputs := old(lib.view.inputs) + [input])
    {
      ok := lib.Attempt(AddInput(input, true), AddInput(input, false));
      bufSubmitted := ok;
    }

    /** Flush the cache and queue the frame. */
    method Queue(input: Input) returns (ok: bool)
      requires Linked() && bufGot && !bufSubmitted
      requires lib.trail.last.Some? && lib.trail.last.value.FbRead? && lib.trail.last.value.ok
      modifies lib, this`bufSubmitted
      ensures Linked() && lib.pos >= old(lib.pos) && bufSubmitted == ok
      ensures lib.view == old(lib.view).(proto := lib.view.proto, failed := old(lib.view.failed) || !ok, owed := ok,
                                         inputs := old(lib.view.inputs) + [input])
      ensures Last(AddInput(input, ok))
    {
      FlushCache();
      ok := AddFrame(input);
    }

    method EncodeQueued() returns (ok: bool)
      requires Linked() && lib.view.owed
      requires lib.trail.last.Some? && lib.trail.last.value.AddInput? && lib.trail.last.value.ok
      modifies lib
      ensures Linked() && lib.pos >= old(lib.pos)
      ensures OnlyProto(old(lib.view), lib.view, ok)
      ensures Last(Event.Encode(ok))
    {
      ok := lib.Attempt(Event.Encode(true), Event.Encode(false));
    }

    /** Fill in the descriptor. */
    method Describe() returns (frame: Input)
      requires Usable(cfg)
      ensures frame == Input(planeY[..], planeUV[..], firstFrame,
                             cfg.maxFrames > 0 && frameCount + 1 >= cfg.maxFrames,
                             Pacing.Pts(cfg.fps, frameCount), 1_000_000 / cfg.fps)
    {
      frame := Input(planeY[..], planeUV[..], firstFrame, cfg.maxFrames > 0 && frameCount + 1 >= cfg.maxFrames,
                     frameCount * (1_000_000 / cfg.fps), 1_000_000 / cfg.fps);
    }

    /** The last reclaim was no good. */
    ghost predicate Stuck()
      reads lib
    {
      lib.trail.last.Some? && lib.trail.last.value.Reclaim? && Failing(lib.trail.last.value)
    }

    /** The cleanup comes next: with a frame still queued after its encoding or
        its reclaim failed, otherwise without. */
    ghost predicate Abandons()
      reads this, lib
    {
      if bufSubmitted then Last(Event.Encode(false)) || Stuck()
      else lib.trail.last.Some? && Quits(lib.trail.last.value)
    }

    /** Fill in the descriptor, queue the frame and start encoding. */
    method Submit() returns (ok: bool, ghost input: Input)
      requires Linked() && bufGot && !bufSubmitted && Usable(cfg)
      requires lib.trail.last.Some? && lib.trail.last.value.FbRead? && lib.trail.last.value.ok
      modifies lib, this`firstFrame, this`bufSubmitted
      ensures Linked() && lib.pos >= old(lib.pos) && !firstFrame
      ensures ok ==> bufSubmitted
      ensures lib.view == old(lib.view).(proto := lib.view.proto, failed := old(lib.view.failed) || !ok,
                                         owed := lib.view.owed, inputs := old(lib.view.inputs) + [input])
      ensures input == Input(planeY[..], planeUV[..], old(firstFrame),
                             cfg.maxFrames > 0 && frameCount + 1 >= cfg.maxFrames,
                             Pacing.Pts(cfg.fps, frameCount), 1_000_000 / cfg.fps)
      ensures if ok then Last(Event.Encode(true)) else Abandons()
    {
      var frame := Describe();
      input := frame;
      firstFrame := false;
      ok := Queue(frame);
      if ok { ok := EncodeQueued(); }
    }

    method FetchOutput() returns (ok: bool, out: Framing.OutDesc)
      requires Linked() && bufSubmitted
      requires lib.trail.last.Some? && lib.trail.last.value.Pending? && lib.trail.last.value.n > 0
      modifies lib
      ensures LinkedWith(if ok then 1 else 0) && lib.pos >= old(lib.pos)
      ensures ok ==> Framing.Readable(out)
      ensures lib.view == old(lib.view).(proto := lib.view.proto, payloads := lib.view.payloads)
      ensures lib.view.payloads
           == if ok then old(lib.view.payloads) + [Framing.Payload(out)] else old(lib.view.payloads)
      ensures Last(Event.GetOutput(out, ok))
    {
      ok, out := lib.GetOutput();
    }

    method FreeOne()
      requires LinkedWith(1) && bufSubmitted
      requires lib.trail.last.Some? && lib.trail.last.value.GetOutput? && lib.trail.last.value.ok
      modifies lib
      ensures Linked() && lib.pos == old(lib.pos)
      ensures lib.view == old(lib.view).(proto := lib.view.proto)
      ensures Last(FreeOutput)
    {
      lib.Log(FreeOutput);
    }

    /** Forward one output frame, after the payloads `sent`. */
    method Send(out: Framing.OutDesc, ghost sent: seq<seq<byte>>)
      requires Framing.Readable(out) && writer.out == out0 + Framing.Emitted(sent)
      modifies writer
      ensures writer.out == out0 + Framing.Emitted(sent + [Framing.Payload(out)])
    {
      Framing.EmittedGrows(out0, sent, Framing.Payload(out));
      Framing.ForwardOutput(out, writer);
    }

    /** Obtain one output frame, forward it and free it. */
    method ForwardOne() returns (ok: bool)
      requires Linked() && bufSubmitted
      requires writer.out == out0 + Framing.Emitted(lib.view.payloads)
      requires lib.trail.last.Some? && lib.trail.last.value.Pending? && lib.trail.last.value.n > 0
      modifies lib, writer
      ensures Linked() && lib.pos >= old(lib.pos)
      ensures writer.out == out0 + Framing.Emitted(lib.view.payloads)
      ensures lib.view == old(lib.view).(proto := lib.view.proto, payloads := lib.view.payloads)
      ensures lib.trail.last.Some? && if ok then Last(FreeOutput) else Dry(lib.trail.last.value)
    {
      var out;
      ok, out := FetchOutput();
      if ok {
        Send(out, old(lib.view.payloads));
        FreeOne();
      }
    }

    /** `ValidBitstreamFrameNum`. */
    method AskPending() returns (n: int)
      requires Linked() && bufSubmitted && (Last(Event.Encode(true)) || Last(FreeOutput))
      modifies lib
      ensures Linked() && lib.pos >= old(lib.pos) && (n > 0 ==> lib.pos > old(lib.pos))
      ensures lib.view == old(lib.view).(proto := lib.view.proto) && Last(Pending(n))
    {
      n := lib.OutputPending();
    }

    /** Forward every output frame that is ready. */
    method Drain()
      requires Linked() && bufSubmitted
      requires writer.out == out0 + Framing.Emitted(lib.view.payloads)
      requires Last(Event.Encode(true))
      modifies lib, writer
      ensures Linked() && lib.pos >= old(lib.pos)
      ensures writer.out == out0 + Framing.Emitted(lib.view.payloads)
      ensures lib.view == old(lib.view).(proto := lib.view.proto, payloads := lib.view.payloads)
      ensures lib.trail.last.Some? && Dry(lib.trail.last.value)
    {
      while true
        invariant Linked() && lib.pos >= old(lib.pos)
        invariant writer.out == out0 + Framing.Emitted(lib.view.payloads)
        invariant lib.view == old(lib.view).(proto := lib.view.proto, payloads := lib.view.payloads)
        invariant Last(Event.Encode(true)) || Last(FreeOutput)
        decreases |lib.script| - lib.pos
      {
        var n := AskPending();
        if n <= 0 { break; }
        var ok := ForwardOne();
        if !ok { break; }
      }
    }

    /** `AlreadyUsedInputBuffer`, good only with a plane. */
    method Reclaim() returns (ok: bool)
      requires Linked() && bufSubmitted
      requires lib.trail.last.Some? && May(lib.trail.last, Event.Reclaim(true, true))
      modifies lib
      ensures Linked() && lib.pos >= old(lib.pos) && (ok ==> !lib.view.owed)
      ensures lib.view == old(lib.view).(proto := lib.view.proto, failed := old(lib.view.failed) || !ok,
                                         owed := lib.view.owed)
      ensures exists got :: Last(Event.Reclaim(got, ok))
    {
      var got;
      ok, got := lib.Reclaim();
    }

    /** `ReturnOneAllocInputBuffer` of what was handed back. */
    method ReturnReclaimed()
      requires Linked() && bufSubmitted && !lib.view.owed
      requires exists got :: Last(Event.Reclaim(got, true))
      modifies lib, this`bufGot, this`bufSubmitted
      ensures Linked() && lib.pos == old(lib.pos) && !bufGot && !bufSubmitted
      ensures lib.view == old(lib.view).(proto := lib.view.proto)
      ensures Last(ReturnInput)
    {
      lib.Log(ReturnInput);
      bufGot := false;
      bufSubmitted := false;
    }

    /** Ask the encoder for the queued buffer and return it to the pool. */
    method TakeBack() returns (ok: bool)
      requires Linked() && bufSubmitted
      requires lib.trail.last.Some? && May(lib.trail.last, Event.Reclaim(true, true))
      modifies lib, this`bufGot, this`bufSubmitted
      ensures Linked() && lib.pos >= old(lib.pos) && bufGot == bufSubmitted == !ok
      ensures lib.view == old(lib.view).(proto := lib.view.proto, failed := old(lib.view.failed) || !ok,
                                         owed := lib.view.owed)
      ensures if ok then Last(ReturnInput) else Stuck()
    {
      ok := Reclaim();
      if ok { ReturnReclaimed(); }
    }

    /** Take the encoded buffer back, return it, and get the next one. */
    method Recycle() returns (ok: bool)
      requires Linked() && bufSubmitted
      requires lib.trail.last.Some? && May(lib.trail.last, Event.Reclaim(true, true))
      modifies lib, this`bufGot, this`bufSubmitted, this`planeY, this`planeUV
      ensures Linked() && lib.pos >= old(lib.pos)
      ensures lib.view == old(lib.view).(proto := lib.view.proto, failed := old(lib.view.failed) || !ok,
                                         owed := lib.view.owed)
      ensures ok ==> bufGot && !bufSubmitted && fresh(planeY) && fresh(planeUV) && planeY != planeUV
      ensures ok ==> planeY.Length == Area(cfg) && planeUV.Length == Area(cfg) / 2
      ensures if ok then Last(Event.GetInput(true)) else Abandons()
    {
      ok := TakeBack();
      if ok { ok := GetBuffer(); }
    }

    /** Capture and submit one frame. */
    method Feed() returns (ok: bool)
      requires Ready()
      requires Last(Poll(false))
      modifies lib, planeY, planeUV, this`firstFrame, this`bufSubmitted
      ensures Linked() && Working() && lib.pos >= old(lib.pos)
      ensures !ok ==> lib.view.failed
      ensures ok ==> bufSubmitted && !firstFrame && lib.view.failed == old(lib.view.failed)
      ensures ok ==> |lib.view.shots| == frameCount + 1
      ensures lib.view.stopped == old(lib.view.stopped) && old(|lib.view.shots|) <= |lib.view.shots| <= frameCount + 1
      ensures lib.view.sleeps == old(lib.view.sleeps)
      ensures if ok then Last(Event.Encode(true)) else Abandons()
    {
      ghost var fb;
      ghost var input;
      ok, fb := Capture();
      if ok {
        ok, input := Submit();
        FaithfulGrows(cfg, old(lib.view.shots), old(lib.view.inputs), fb);
      }
    }

    method Tick()
      requires next.Normal() && next.Total() == Pacing.Deadline(start, frameNs, frameCount) && frameNs <= Pacing.SECOND
      modifies next, this`frameCount
      ensures frameCount == old(frameCount) + 1
      ensures next.Normal() && next.Total() == Pacing.Deadline(start, frameNs, frameCount)
    {
      frameCount := frameCount + 1;
      next.Advance(frameNs);
    }

    method SleepUntil(deadline: int)
      requires Linked()
      requires Last(Event.GetInput(true))
      modifies lib
      ensures Linked() && lib.pos == old(lib.pos)
      ensures lib.view == old(lib.view).(sleeps := old(lib.view.sleeps) + [deadline])
      ensures Last(Sleep(deadline))
    {
      lib.Log(Sleep(deadline));
    }

    /** Advance the deadline and sleep until it. */
    method Pace()
      requires Linked() && Working() && bufGot && !bufSubmitted
      requires Last(Event.GetInput(true))
      modifies lib, next, this`frameCount
      ensures Linked() && Working() && lib.pos >= old(lib.pos) && frameCount == old(frameCount) + 1
      ensures lib.view == old(lib.view).(proto := lib.view.proto, sleeps := lib.view.sleeps)
      ensures lib.trail.last.Some? && lib.trail.last.value.Sleep?
    {
      Tick();
      PacedGrows(lib.view.sleeps, start, frameNs);
      SleepUntil(next.Total());
    }

    /** Everything between submitting a frame and sleeping. */
    method Collect() returns (ok: bool)
      requires Linked() && Working() && bufSubmitted
      requires Last(Event.Encode(true))
      modifies lib, writer, this`bufGot, this`bufSubmitted, this`planeY, this`planeUV
      ensures Linked() && Working() && lib.pos >= old(lib.pos)
      ensures lib.view == old(lib.view).(proto := lib.view.proto, payloads := lib.view.payloads, owed := lib.view.owed,
                                         failed := old(lib.view.failed) || !ok)
      ensures ok ==> bufGot && !bufSubmitted && fresh(planeY) && fresh(planeUV) && planeY != planeUV
      ensures ok ==> planeY.Length == Area(cfg) && planeUV.Length == Area(cfg) / 2
      ensures if ok then Last(Event.GetInput(true)) else Abandons()
    {
      Drain();
      ok := Recycle();
    }

    /** What follows the submission of a frame, up to the next turn. */
    method Finish() returns (ok: bool)
      requires Linked() && Working() && bufSubmitted && Last(Event.Encode(true)) && frameSize == FbSize(cfg)
      requires |lib.view.shots| == frameCount + 1 && !firstFrame && !lib.view.failed
      requires cfg.maxFrames > 0 ==> frameCount < cfg.maxFrames
      modifies lib, writer, next, this`bufGot, this`bufSubmitted, this`planeY, this`planeUV, this`frameCount
      ensures Linked() && Working() && lib.pos >= old(lib.pos) && lib.view.stopped == old(lib.view.stopped)
      ensures lib.view.failed == !ok && |lib.view.shots| == old(|lib.view.shots|)
      ensures ok ==> Ready() && fresh(planeY) && fresh(planeUV)
      ensures if ok then lib.trail.last.Some? && lib.trail.last.value.Sleep? else Abandons()
    {
      ok := Collect();
      if ok { Pace(); }
    }

    /** The body of the encode loop. */
    method EncodeFrame() returns (ok: bool)
      requires Ready() && !lib.view.failed
      requires cfg.maxFrames > 0 ==> frameCount < cfg.maxFrames
      requires Last(Poll(false))
      modifies lib, writer, next, planeY, planeUV
      modifies this`firstFrame, this`bufSubmitted, this`bufGot, this`planeY, this`planeUV, this`frameCount
      ensures Linked() && Working() && lib.pos >= old(lib.pos) && lib.view.stopped == old(lib.view.stopped)
      ensures lib.view.failed == !ok
      ensures ok ==> Ready() && fresh(planeY) && fresh(planeUV)
      ensures cfg.maxFrames > 0 ==> |lib.view.shots| <= cfg.maxFrames
      ensures if ok then lib.trail.last.Some? && lib.trail.last.value.Sleep? else Abandons()
    {
      ok := Feed();
      if ok { ok := Finish(); }
    }

    method PollStop() returns (stop: bool)
      requires Linked()
      requires AtTop()
      modifies lib
      ensures Linked() && lib.pos >= old(lib.pos) && (!stop ==> lib.pos > old(lib.pos))
      ensures lib.view == old(lib.view).(proto := lib.view.proto, stopped := old(lib.view.stopped) || stop)
      ensures Last(Poll(stop))
    {
      stop := lib.StopFlag();
    }

    /** The loop guard. */
    method Finished() returns (done: bool)
      requires Ready()
      requires AtTop()
      modifies lib
      ensures Ready() && lib.pos >= old(lib.pos) && (!done ==> lib.pos > old(lib.pos))
      ensures lib.view == old(lib.view).(proto := lib.view.proto, stopped := lib.view.stopped)
      ensures done ==> lib.view.stopped || (cfg.maxFrames > 0 && frameCount == cfg.maxFrames)
      ensures !done && cfg.maxFrames > 0 ==> frameCount < cfg.maxFrames
      ensures lib.trail.last.Some? && lib.trail.last.value.Poll? && (!done ==> Last(Poll(false)))
    {
      var stop := PollStop();
      done := stop || !(cfg.maxFrames <= 0 || frameCount < cfg.maxFrames);
    }

    /** The encode loop. Zero is a regular end. */
    method EncodeLoop() returns (ret: int)
      requires Ready() && frameCount == 0 && !lib.view.failed
      requires AtTop()
      modifies lib, writer, next, planeY, planeUV
      modifies this`firstFrame, this`bufSubmitted, this`bufGot, this`planeY, this`planeUV, this`frameCount
      ensures Linked() && Working()
      ensures ret == 0 || ret == -1
      ensures lib.view.failed == (ret == -1)
      ensures ret == 0 ==> !bufSubmitted && |lib.view.shots| == |lib.view.sleeps|
      ensures ret == 0 ==> lib.view.stopped || (cfg.maxFrames > 0 && |lib.view.shots| == cfg.maxFrames)
      ensures cfg.maxFrames > 0 ==> |lib.view.shots| <= cfg.maxFrames
      ensures Abandons()
    {
      ghost var y0, uv0 := planeY, planeUV;
      while true
        invariant Ready() && !lib.view.failed && AtTop()
        invariant planeY == y0 || fresh(planeY)
        invariant planeUV == uv0 || fresh(planeUV)
        decreases |lib.script| - lib.pos
      {
        var done := Finished();
        if done { return 0; }
        var ok := EncodeFrame();
        if !ok { return -1; }
      }
    }

    /** The next release may be `e`. */
    ghost predicate MayGive(e: Event)
      reads lib
    {
      lib.trail.last.Some? && May(lib.trail.last, e)
    }

    /** The topmost resource held may be given back now. */
    ghost predicate Unwinding()
      reads this, lib
    {
      && (bufAlloc ==> MayGive(ReleasePool))
      && (!bufAlloc && encInit ==> MayGive(UnInit))
      && (!encInit && enc ==> MayGive(Destroy))
      && (!enc && memOpen ==> MayGive(MemClose))
      && (!memOpen && fbOpen ==> MayGive(FbClose))
    }

    /** The flags of the stages, with no buffer out. */
    ghost predicate Emptied()
      reads this, lib
    {
      && lib.Valid() && lib.view.proto.Some?
      && var p := lib.view.proto.value;
      && p.fb.Held? == fbOpen && p.mem.Held? == memOpen && p.enc.Held? == enc
      && p.init.Held? == encInit && p.pool.Held? == bufAlloc
      && p.out == 0 && p.queued == 0 && p.bits == 0 && Nesting(p) && p.dirty == lib.view.owed
      && lib.trail.ordered && Asked(lib.trail)
    }

    method ReturnLast()
      requires Linked()
      requires lib.trail.last.Some? && (Last(ReturnInput) ==> !bufGot && bufAlloc)
      requires Stuck() || Last(ReturnInput) || Quits(lib.trail.last.value)
      requires Stuck() ==> bufGot
      modifies lib
      ensures Emptied() && lib.view == old(lib.view).(proto := lib.view.proto)
      ensures Unwinding()
    {
      if bufGot { lib.Log(ReturnInput); }
    }

    method UnInitEncoder()
      requires lib.Valid() && lib.view.proto.Some?
      requires var p := lib.view.proto.value; !p.pool.Held? && p.init.Held? == encInit
      requires lib.trail.ordered && Asked(lib.trail)
      requires encInit ==> MayGive(UnInit)
      modifies lib
      ensures lib.Valid() && lib.view == old(lib.view).(proto := lib.view.proto) && lib.view.proto.Some?
      ensures var p, q := lib.view.proto.value, old(lib.view.proto.value); p == q.(init := p.init) && !p.init.Held?
      ensures lib.trail.ordered && Asked(lib.trail)
      ensures if encInit then Last(UnInit) else lib.trail == old(lib.trail)
    {
      if encInit { lib.Log(UnInit); }
    }

    method ReleaseBuffers()
      requires Emptied() && Unwinding()
      modifies lib
      ensures lib.Valid() && lib.view == old(lib.view).(proto := lib.view.proto) && lib.view.proto.Some?
      ensures var p, q := lib.view.proto.value, old(lib.view.proto.value); p == q.(pool := p.pool) && !p.pool.Held?
      ensures lib.trail.ordered && Asked(lib.trail)
      ensures if bufAlloc then Last(ReleasePool) else lib.trail == old(lib.trail)
    {
      if bufAlloc { lib.Log(ReleasePool); }
    }

    method DestroyEncoder()
      requires lib.Valid() && lib.view.proto.Some?
      requires var p := lib.view.proto.value; !p.pool.Held? && !p.init.Held? && p.enc.Held? == enc
      requires lib.trail.ordered && Asked(lib.trail) && (enc ==> MayGive(Destroy))
      modifies lib
      ensures lib.Valid() && lib.view == old(lib.view).(proto := lib.view.proto) && lib.view.proto.Some?
      ensures var p, q := lib.view.proto.value, old(lib.view.proto.value); p == q.(enc := p.enc) && !p.enc.Held?
      ensures lib.trail.ordered && Asked(lib.trail)
      ensures if enc then Last(Destroy) else lib.trail == old(lib.trail)
    {
      if enc { lib.Log(Destroy); }
    }

    method CloseEncoder()
      requires Emptied()
      requires Unwinding()
      modifies lib
      ensures lib.Valid() && lib.view == old(lib.view).(proto := lib.view.proto) && lib.view.proto.Some?
      ensures var p, q := lib.view.proto.value, old(lib.view.proto.value);
              && p == q.(pool := p.pool, init := p.init, enc := p.enc)
              && !p.pool.Held? && !p.init.Held? && !p.enc.Held?
      ensures lib.trail.ordered && Asked(lib.trail)
      ensures (memOpen ==> MayGive(MemClose)) && (!memOpen && fbOpen ==> MayGive(FbClose))
    {
      ReleaseBuffers();
      UnInitEncoder();
      DestroyEncoder();
    }

    method CloseDevices()
      requires lib.Valid() && lib.view.proto.Some?
      requires var p := lib.view.proto.value;
               && !p.pool.Held? && !p.init.Held? && !p.enc.Held? && p.out == 0 && p.queued == 0 && p.bits == 0
               && p.mem.Held? == memOpen && p.fb.Held? == fbOpen
      requires lib.trail.ordered && Asked(lib.trail)
      requires (memOpen ==> MayGive(MemClose)) && (!memOpen && fbOpen ==> MayGive(FbClose))
      modifies lib
      ensures lib.Valid() && lib.view == old(lib.view).(proto := lib.view.proto)
      ensures lib.view.proto.Some? && Closed(lib.view.proto.value)
      ensures lib.view.proto.value.dirty == old(lib.view.proto.value.dirty)
      ensures lib.trail.ordered && Asked(lib.trail)
    {
      if memOpen { lib.Log(MemClose); }
      if fbOpen { lib.Log(FbClose); }
    }

    /** The shared exit. Whatever stage the run reached, everything it still
        holds is given back, newest first. */
    method Cleanup()
      requires Linked()
      requires Abandons()
      modifies lib, this`bufGot, this`bufSubmitted
      ensures lib.Valid() && lib.view.proto.Some? && Closed(lib.view.proto.value)
      ensures lib.view.proto.value.dirty == lib.view.owed
      ensures lib.view == old(lib.view).(proto := lib.view.proto, failed := lib.view.failed, owed := lib.view.owed)
      ensures old(lib.view.failed) ==> lib.view.failed
      ensures !old(bufSubmitted) ==> lib.view.failed == old(lib.view.failed)
      ensures lib.trail.ordered && Asked(lib.trail)
    {
      if bufSubmitted { var _ := TakeBack(); }
      ReturnLast();
      CloseEncoder();
      CloseDevices();
    }
  }

  /** `cedar_run`. A buffer goes back while the encoder owns it exactly when the
      last accepted submission was never reclaimed. */
  method Run(cfg: Config, lib: Library, writer: Framing.Writer, now: int) returns (ret: int)
    requires Usable(cfg) && lib.Valid() && lib.trace == []
    modifies lib, writer
    ensures Replay(lib.trace).Some? && Closed(Replay(lib.trace).value)
    ensures Replay(lib.trace).value.dirty <==> Unreclaimed(lib.trace)
    ensures Faithful(cfg, Shots(lib.trace), Inputs(lib.trace))
    ensures Paced(Sleeps(lib.trace), now, Pacing.FrameNs(cfg.fps))
    ensures writer.out == old(writer.out) + Framing.Emitted(Payloads(lib.trace))
    ensures ret == 0 || ret == -1
    ensures ret == 0 <==> !Failed(lib.trace)
    ensures ret == 0 ==> |Inputs(lib.trace)| == |Sleeps(lib.trace)|
    ensures ret == 0 ==> Stopped(lib.trace) || (cfg.maxFrames > 0 && |Inputs(lib.trace)| == cfg.maxFrames)
    ensures cfg.maxFrames > 0 ==> |Inputs(lib.trace)| <= cfg.maxFrames
    ensures Ordered(lib.trace) && Fetched(lib.trace) && Told(lib.script, lib.trace)
    ensures Requested(cfg, Pools(lib.trace), Reads(lib.trace))
  {
    ret := -1;
    var s := new Session(cfg, lib, writer, now);
    var ok := s.Setup();
    if ok { ret := s.EncodeLoop(); }
    s.Cleanup();
    assert lib.trace[..|lib.trace|] == lib.trace;
    ViewIs(lib.script, lib.trace, lib.history, |lib.trace|);
    TrailIs(lib.script, lib.trace, lib.history, |lib.trace|);
    FetchedAll(lib.trace);
  }
}

/** The encoder's `Start`: parameter sets first, then the encode loop. */
module Start {
  import opened Bytes
  import AnnexB
  import CedarRun
  import Framing
  import Nv12
  import Presets
  import Vendor

  /** The configuration passed on for an accepted preset. */
  function ConfigOf(p: Presets.Preset, bpp: int, inputBuffers: nat, maxFrames: int): CedarRun.Config
    requires p.width >= 0 && p.height >= 0 && p.fps >= 0
  {
    CedarRun.Config(p.width, p.height, p.fps, bpp, inputBuffers, maxFrames)
  }

  /** For every accepted preset the chroma plane asked of the pool is filled to
      its last byte, and the pool's luma plane is the whole frame. */
  lemma PresetPlanesFit(quality: string, nativeW: int, nativeH: int)
    requires Presets.PresetFor(quality, nativeW, nativeH).Ok?
    ensures var p := Presets.PresetFor(quality, nativeW, nativeH).preset;
            && 0 < p.width && 0 < p.height && p.width % 2 == 0
            && Nv12.ChromaSize(p.width, p.height) == p.width * p.height / 2
  {
    Presets.PresetFacts(quality, nativeW, nativeH);
    var p := Presets.PresetFor(quality, nativeW, nativeH).preset;
    Nv12.ChromaFits(p.width, p.height);
  }

  /** The error a finished encoder reports from `Wait`. */
  datatype Fault = WriteFailed | LoopExited(rc: int)

  /** Raw output: the writer gets the parameter sets, then what the loop emits.
      `broken` is the number of bytes after which the first write fails, if it
      does; then the loop is never entered. */
  method StartRaw(quality: string, nativeW: int, nativeH: int, bpp: int, inputBuffers: nat, maxFrames: int,
                  lib: Vendor.Library, writer: Framing.Writer, broken: Option<nat>, now: int)
    returns (err: Option<Fault>)
    requires Presets.PresetFor(quality, nativeW, nativeH).Ok? && (bpp == 16 || bpp == 32)
    requires lib.Valid() && lib.trace == []
    modifies lib, writer
    ensures broken.Some? ==> err == Some(WriteFailed) && lib.trace == []
    ensures broken.Some? ==> var head := Presets.PresetFor(quality, nativeW, nativeH).preset.spspps;
                             writer.out == old(writer.out) + head[..Min(broken.value, |head|)]
    ensures broken.None? ==> err == if Vendor.Failed(lib.trace) then Some(LoopExited(-1)) else None
    ensures broken.None? ==> writer.out == old(writer.out) + Presets.PresetFor(quality, nativeW, nativeH).preset.spspps
                                           + Framing.Emitted(Vendor.Payloads(lib.trace))
    ensures Vendor.Replay(lib.trace).Some? && Vendor.Closed(Vendor.Replay(lib.trace).value)
    ensures var p := Presets.PresetFor(quality, nativeW, nativeH).preset;
            0 <= p.width && 0 <= p.height && 0 < p.fps
            && var c := CedarRun.Config(p.width, p.height, p.fps, bpp, inputBuffers, maxFrames);
               && CedarRun.Usable(c) && CedarRun.Faithful(c, Vendor.Shots(lib.trace), Vendor.Inputs(lib.trace))
               && CedarRun.Requested(c, Vendor.Pools(lib.trace), Vendor.Reads(lib.trace))
               && CedarRun.Paced(Vendor.Sleeps(lib.trace), now, 1_000_000_000 / p.fps)
    ensures Vendor.Fetched(lib.trace) && Vendor.Told(lib.script, lib.trace)
  {
    Presets.PresetFacts(quality, nativeW, nativeH);
    var p := Presets.PresetFor(quality, nativeW, nativeH).preset;
    if broken.Some? {
      writer.Write(p.spspps[..Min(broken.value, |p.spspps|)]);
      return Some(WriteFailed);
    }
    writer.Write(p.spspps);
    var rc := CedarRun.Run(ConfigOf(p, bpp, inputBuffers, maxFrames), lib, writer, now);
    err := if rc != 0 then Some(LoopExited(rc)) else None;
  }

  /** What a receiver makes of those bytes, whatever framings the encoder
      mixed: the SPS and PPS of the preset, then every NAL unit in order. */
  lemma Received(quality: string, nativeW: int, nativeH: int, trace: seq<Vendor.Event>, outs: seq<Framing.Output>)
    requires Presets.PresetFor(quality, nativeW, nativeH).Ok?
    requires forall o :: o in outs ==> Framing.WellFramed(o)
    requires Vendor.Payloads(trace) == Framing.RawAll(outs)
    ensures var p := Presets.PresetFor(quality, nativeW, nativeH).preset;
            AnnexB.Split(p.spspps + Framing.Emitted(Vendor.Payloads(trace)))
            == [[], Presets.SPS_TABLE[(p.width, p.height)], Presets.PPS] + Framing.AllNals(outs)
  {
    var p := Presets.PresetFor(quality, nativeW, nativeH).preset;
    var sps := Presets.SPS_TABLE[(p.width, p.height)];
    Presets.TableClean(p.width, p.height);
    Presets.TwoNals(sps, Presets.PPS);
    Framing.StreamSplits(sps, Presets.PPS, outs);
  }
}
