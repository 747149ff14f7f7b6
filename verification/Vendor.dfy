/** The foreign encoder library, as an oracle that may fail any call, and the
    rules for using it. */
module Vendor {
  import opened Bytes
  import Framing

  /** One input frame as it is submitted. */
  datatype Input = Input(y: seq<byte>, uv: seq<byte>, first: bool, last: bool, pts: int, duration: int)

  /** What one call did. `ok` is the success test the caller applies. A reclaim
      is good when it returned zero and the buffer it handed back has a plane. */
  datatype Event =
    | FbOpen(ok: bool) | FbClose
    | Check(ok: bool)
    | MemOpen(ok: bool) | MemClose
    | Create(ok: bool) | Destroy
    | Init(ok: bool) | UnInit
    | AllocPool(count: nat, sizeY: nat, sizeC: nat, ok: bool) | ReleasePool
    | GetInput(ok: bool) | ReturnInput
    | Poll(stop: bool)
    | FbRead(size: nat, pixels: seq<byte>, ok: bool)
    | Flush
    | AddInput(input: Input, ok: bool)
    | Encode(ok: bool)
    | Pending(n: int)
    | GetOutput(out: Framing.OutDesc, ok: bool) | FreeOutput
    | Reclaim(got: bool, mapped: bool)
    | Sleep(deadline: int)

  // ------------------------------------------------------------- the protocol

  /** A resource taken at most once and given back at most once. */
  datatype Stage = Never | Held | Released

  /** `out`: input buffers taken from the pool; `queued`: those of them that
      the encoder still owns; `bits`: output frames not yet freed; `dirty`: a
      buffer went back to the pool while the encoder still owned it. */
  datatype Proto = Proto(fb: Stage, mem: Stage, enc: Stage, init: Stage, pool: Stage,
                         size: nat, out: nat, queued: nat, bits: nat, flushed: bool, dirty: bool)

  const FRESH: Proto := Proto(Never, Never, Never, Never, Never, 0, 0, 0, 0, false, false)

  function Take(ok: bool): Stage { if ok then Held else Never }

  /** The state after a call, or nothing when the call breaks a rule. Every
      stage stands on the one before it and is left in reverse order. The
      encoder may be asked for a buffer it has already let go of. */
  function Apply(p: Proto, e: Event): Option<Proto> {
    match e
    case FbOpen(ok) => if p.fb.Never? then Some(p.(fb := Take(ok))) else None
    case FbClose => if p.fb.Held? && !p.mem.Held? then Some(p.(fb := Released)) else None
    case MemOpen(ok) => if p.fb.Held? && p.mem.Never? then Some(p.(mem := Take(ok))) else None
    case MemClose => if p.mem.Held? && !p.enc.Held? then Some(p.(mem := Released)) else None
    case Create(ok) => if p.mem.Held? && p.enc.Never? then Some(p.(enc := Take(ok))) else None
    case Destroy => if p.enc.Held? && !p.init.Held? then Some(p.(enc := Released)) else None
    case Init(ok) => if p.enc.Held? && p.init.Never? then Some(p.(init := Take(ok))) else None
    case UnInit => if p.init.Held? && !p.pool.Held? then Some(p.(init := Released)) else None
    case AllocPool(n, _, _, ok) =>
      if p.init.Held? && p.pool.Never? && n > 0 then Some(p.(pool := Take(ok), size := n)) else None
    case ReleasePool =>
      if p.pool.Held? && p.out == 0 && p.bits == 0 then Some(p.(pool := Released)) else None
    case GetInput(ok) =>
      if p.pool.Held? && p.out < p.size
      then Some(p.(out := if ok then p.out + 1 else p.out, flushed := false)) else None
    case ReturnInput =>
      if p.out == 0 then None
      else if p.queued < p.out then Some(p.(out := p.out - 1))
      else Some(p.(out := p.out - 1, queued := p.queued - 1, dirty := true))
    case FbRead(_, _, _) => if p.fb.Held? && p.queued < p.out then Some(p.(flushed := false)) else None
    case Flush => if p.queued < p.out then Some(p.(flushed := true)) else None
    case AddInput(_, ok) =>
      if p.queued < p.out && p.flushed then Some(p.(queued := if ok then p.queued + 1 else p.queued)) else None
    case Encode(_) => if p.queued > 0 then Some(p) else None
    case Pending(_) => if p.pool.Held? then Some(p) else None
    case GetOutput(_, ok) =>
      if p.pool.Held? && p.bits == 0 then Some(p.(bits := if ok then 1 else 0)) else None
    case FreeOutput => if p.bits > 0 then Some(p.(bits := p.bits - 1)) else None
    case Reclaim(got, _) =>
      if p.out > 0 then Some(p.(queued := if got && p.queued > 0 then p.queued - 1 else p.queued)) else None
    case Check(_) => Some(p)
    case Poll(_) => Some(p)
    case Sleep(_) => Some(p)
  }

  /** The protocol state a whole trace leads to; nothing when some call in it
      broke a rule. */
  function Replay(trace: seq<Event>): Option<Proto> {
    if trace == [] then Some(FRESH)
    else
      match Replay(trace[..|trace| - 1])
      case None => None
      case Some(p) => Apply(p, trace[|trace| - 1])
  }

  /** Nothing is left behind. */
  predicate Closed(p: Proto) {
    && !p.fb.Held? && !p.mem.Held? && !p.enc.Held? && !p.init.Held? && !p.pool.Held?
    && p.out == 0 && p.queued == 0 && p.bits == 0
  }

  /** Taking and giving back, resource by resource. */
  datatype Kind = InputBuffer | OutputFrame | Pool | Initialised | Encoder | Adapter | Framebuffer

  predicate Takes(e: Event, k: Kind) {
    match k
    case InputBuffer => e.GetInput? && e.ok
    case OutputFrame => e.GetOutput? && e.ok
    case Pool => e.AllocPool? && e.ok
    case Initialised => e.Init? && e.ok
    case Encoder => e.Create? && e.ok
    case Adapter => e.MemOpen? && e.ok
    case Framebuffer => e.FbOpen? && e.ok
  }

  predicate Gives(e: Event, k: Kind) {
    match k
    case InputBuffer => e.ReturnInput?
    case OutputFrame => e.FreeOutput?
    case Pool => e.ReleasePool?
    case Initialised => e.UnInit?
    case Encoder => e.Destroy?
    case Adapter => e.MemClose?
    case Framebuffer => e.FbClose?
  }

  function Taken(trace: seq<Event>, k: Kind): nat {
    if trace == [] then 0
    else Taken(trace[..|trace| - 1], k) + if Takes(trace[|trace| - 1], k) then 1 else 0
  }

  function Given(trace: seq<Event>, k: Kind): nat {
    if trace == [] then 0
    else Given(trace[..|trace| - 1], k) + if Gives(trace[|trace| - 1], k) then 1 else 0
  }

  /** How many of a kind a state still holds. */
  function Holding(p: Proto, k: Kind): nat {
    match k
    case InputBuffer => p.out
    case OutputFrame => p.bits
    case Pool => if p.pool.Held? then 1 else 0
    case Initialised => if p.init.Held? then 1 else 0
    case Encoder => if p.enc.Held? then 1 else 0
    case Adapter => if p.mem.Held? then 1 else 0
    case Framebuffer => if p.fb.Held? then 1 else 0
  }

  predicate Untouched(p: Proto, k: Kind) {
    match k
    case InputBuffer => false
    case OutputFrame => false
    case Pool => p.pool.Never?
    case Initialised => p.init.Never?
    case Encoder => p.enc.Never?
    case Adapter => p.mem.Never?
    case Framebuffer => p.fb.Never?
  }

  /** Each resource stands on the one below it. */
  predicate Nesting(p: Proto) {
    && (p.pool.Held? ==> p.init.Held?) && (p.init.Held? ==> p.enc.Held?)
    && (p.enc.Held? ==> p.mem.Held?) && (p.mem.Held? ==> p.fb.Held?)
    && (p.out > 0 || p.bits > 0 ==> p.pool.Held?)
    && p.queued <= p.out <= p.size && p.bits <= 1
  }

  lemma NestingStep(p: Proto, e: Event)
    requires Nesting(p) && Apply(p, e).Some?
    ensures Nesting(Apply(p, e).value)
  {
    match e {
      case FbOpen(_) =>
      case MemOpen(_) =>
      case Create(_) =>
      case Init(_) =>
      case AllocPool(_, _, _, _) =>
      case _ =>
    }
  }

  /** At every moment of a legal trace the nesting holds, so the resources can
      only have been released in reverse order. */
  lemma {:induction false} Nested(trace: seq<Event>)
    requires Replay(trace).Some?
    ensures Nesting(Replay(trace).value)
  {
    if trace != [] {
      Nested(trace[..|trace| - 1]);
      NestingStep(Replay(trace[..|trace| - 1]).value, trace[|trace| - 1]);
    }
  }

  lemma LedgerStep(p: Proto, e: Event, k: Kind)
    requires Apply(p, e).Some?
    ensures var q := Apply(p, e).value;
            && Holding(q, k) + (if Gives(e, k) then 1 else 0) == Holding(p, k) + (if Takes(e, k) then 1 else 0)
            && (Untouched(q, k) ==> Untouched(p, k) && !Takes(e, k))
            && (Takes(e, k) && !k.InputBuffer? && !k.OutputFrame? ==> Untouched(p, k))
  {
    match k {
      case InputBuffer =>
      case OutputFrame =>
      case _ =>
    }
  }

  /** The counts of takes and gives differ by exactly what is held, and every
      kind but the buffers is taken at most once. */
  lemma {:induction false} Ledger(trace: seq<Event>, k: Kind)
    requires Replay(trace).Some?
    ensures Taken(trace, k) == Given(trace, k) + Holding(Replay(trace).value, k)
    ensures Untouched(Replay(trace).value, k) ==> Taken(trace, k) == 0
    ensures k.InputBuffer? || k.OutputFrame? || Taken(trace, k) <= 1
  {
    if trace != [] {
      var t := trace[..|trace| - 1];
      Ledger(t, k);
      LedgerStep(Replay(t).value, trace[|trace| - 1], k);
    }
  }

  /** A closed legal trace is balanced: every input buffer taken went back,
      every output frame was freed, and each stage was taken at most once and
      given back as often as it was taken. */
  lemma ClosedIsBalanced(trace: seq<Event>, k: Kind)
    requires Replay(trace).Some? && Closed(Replay(trace).value)
    ensures Taken(trace, k) == Given(trace, k)
    ensures k.InputBuffer? || k.OutputFrame? || Taken(trace, k) <= 1
  {
    Ledger(trace, k);
  }

  // ------------------------------------------------------- what a trace shows

  /** Framebuffer contents read, in order. */
  function Shots(trace: seq<Event>): seq<seq<byte>> {
    if trace == [] then []
    else
      var e := trace[|trace| - 1];
      Shots(trace[..|trace| - 1]) + if e.FbRead? && e.ok then [e.pixels] else []
  }

  /** Frames submitted, in order. */
  function Inputs(trace: seq<Event>): seq<Input> {
    if trace == [] then []
    else
      var e := trace[|trace| - 1];
      Inputs(trace[..|trace| - 1]) + if e.AddInput? then [e.input] else []
  }

  /** Payloads of the output frames obtained, in order. */
  function Payloads(trace: seq<Event>): seq<seq<byte>> {
    if trace == [] then []
    else
      var e := trace[|trace| - 1];
      Payloads(trace[..|trace| - 1])
      + if e.GetOutput? && e.ok && Framing.Readable(e.out) then [Framing.Payload(e.out)] else []
  }

  /** Deadlines slept to, in order. */
  function Sleeps(trace: seq<Event>): seq<int> {
    if trace == [] then []
    else
      var e := trace[|trace| - 1];
      Sleeps(trace[..|trace| - 1]) + if e.Sleep? then [e.deadline] else []
  }

  predicate Failing(e: Event) {
    match e
    case FbOpen(ok) => !ok
    case Check(ok) => !ok
    case MemOpen(ok) => !ok
    case Create(ok) => !ok
    case Init(ok) => !ok
    case AllocPool(_, _, _, ok) => !ok
    case GetInput(ok) => !ok
    case FbRead(_, _, ok) => !ok
    case AddInput(_, ok) => !ok
    case Encode(ok) => !ok
    case Reclaim(got, mapped) => !got || !mapped
    case _ => false
  }

  /** Some call failed that the encoder treats as fatal. */
  predicate Failed(trace: seq<Event>) {
    exists e :: e in trace && Failing(e)
  }

  predicate Stopped(trace: seq<Event>) {
    Poll(true) in trace
  }

  /** No reclaim since the last accepted submission has returned zero. */
  predicate Unreclaimed(trace: seq<Event>) {
    trace != [] &&
    var e := trace[|trace| - 1];
    if e.AddInput? && e.ok then true
    else if e.Reclaim? && e.got then false
    else Unreclaimed(trace[..|trace| - 1])
  }

  // ------------------------------------------------- a buffer returned early

  /** What the cleanup may begin with. */
  predicate Releases(e: Event) {
    e.ReturnInput? || e.ReleasePool? || e.UnInit? || e.Destroy? || e.MemClose? || e.FbClose?
  }

  /** The call that comes after a call, as it turned out. */
  predicate Next(a: Event, b: Event) {
    match a
    case FbOpen(ok) => if ok then b.Check? else Releases(b)
    case Check(ok) => if ok then b.Check? || b.MemOpen? || b.GetInput? || b.Poll? else Releases(b)
    case MemOpen(ok) => if ok then b.Create? else Releases(b)
    case Create(ok) => if ok then b.Init? else Releases(b)
    case Init(ok) => if ok then b.AllocPool? else Releases(b)
    case AllocPool(_, _, _, ok) => if ok then b.Check? else Releases(b)
    case GetInput(ok) => if ok then b.Check? || b.Sleep? else Releases(b)
    case Poll(stop) => (!stop && b.FbRead?) || Releases(b)
    case FbRead(_, _, ok) => if ok then b.Flush? else Releases(b)
    case Flush => b.AddInput?
    case AddInput(_, ok) => if ok then b.Encode? else Releases(b)
    case Encode(ok) => if ok then b.Pending? else b.Reclaim?
    case Pending(n) => if n > 0 then b.GetOutput? else b.Reclaim?
    case GetOutput(_, ok) => if ok then b.FreeOutput? else b.Reclaim?
    case FreeOutput => b.Pending?
    case Reclaim(got, mapped) => if got && mapped then b.ReturnInput? else b.Reclaim? || b.ReturnInput?
    case ReturnInput => b.GetInput? || b.ReleasePool?
    case Sleep(_) => b.Poll?
    case ReleasePool => b.UnInit?
    case UnInit => b.Destroy?
    case Destroy => b.MemClose?
    case MemClose => b.FbClose?
    case FbClose => false
  }

  predicate May(last: Option<Event>, e: Event) { if last.None? then e.FbOpen? else Next(last.value, e) }

  function LastOf(t: seq<Event>): Option<Event> { if t == [] then None else Some(t[|t| - 1]) }

  predicate InOrder(t: seq<Event>, i: nat)
    requires i < |t|
  {
    if i == 0 then t[i].FbOpen? else Next(t[i - 1], t[i])
  }

  /** Each call of a trace comes after the one before it. */
  ghost predicate Ordered(t: seq<Event>) {
    forall i :: 0 <= i < |t| ==> InOrder(t, i)
  }

  lemma OrderedStep(t: seq<Event>, e: Event)
    ensures Ordered(t + [e]) <==> Ordered(t) && May(LastOf(t), e)
  {
    var u := t + [e];
    assert forall i :: 0 <= i < |t| ==> (InOrder(u, i) <==> InOrder(t, i));
    assert InOrder(u, |t|) <==> May(LastOf(t), e);
  }

  /** A legal trace, one event longer. */
  lemma Grow(t: seq<Event>, p: Proto, e: Event) returns (u: seq<Event>, q: Proto)
    requires Replay(t) == Some(p) && Apply(p, e).Some? && Ordered(t) && May(LastOf(t), e)
    ensures u == t + [e] && Some(q) == Apply(p, e) && Replay(u) == Some(q) && Ordered(u) && LastOf(u) == Some(e)
    ensures Unreclaimed(u)
       <==> if e.AddInput? && e.ok then true else if e.Reclaim? && e.got then false else Unreclaimed(t)
  {
    u, q := t + [e], Apply(p, e).value;
    assert u[..|t|] == t;
    OrderedStep(t, e);
  }

  /** The framebuffer, its memory, the libraries, their tables, the adapter. */
  const DEVICES := [FbOpen(true), Check(true), Check(true), Check(true), MemOpen(true)]

  /** The encoder and its pool of one buffer. */
  function Creation(sizeY: nat, sizeC: nat): seq<Event> {
    [Create(true), Init(true), AllocPool(1, sizeY, sizeC, true)]
  }

  /** The descriptors, the first buffer and its planes, and a stop flag that is
      down. */
  const BUFFERS := [Check(true), GetInput(true), Check(true), Poll(false)]

  /** A frame is captured and accepted... */
  function Accepted(fb: seq<byte>, input: Input): seq<Event> {
    [FbRead(|fb|, fb, true), Flush, AddInput(input, true)]
  }

  /** ...encoding it fails, and so does the cleanup's reclaim. */
  const ABANDONED := [Event.Encode(false), Event.Reclaim(false, false), ReturnInput]

  /** The rest of the cleanup. */
  const CLOSE_ENCODER := [ReleasePool, UnInit, Destroy]
  const CLOSE_DEVICES := [MemClose, FbClose]

  /** Every call and every check of `cedar_run` in such a run, in its order. */
  function DirtyTrace(sizeY: nat, sizeC: nat, fb: seq<byte>, input: Input): seq<Event> {
    DEVICES + Creation(sizeY, sizeC) + BUFFERS + Accepted(fb, input) + ABANDONED + CLOSE_ENCODER + CLOSE_DEVICES
  }

  lemma OpenDevices() returns (t: seq<Event>, p: Proto)
    ensures t == DEVICES && Replay(t) == Some(p) && p == FRESH.(fb := Held, mem := Held)
    ensures Ordered(t) && LastOf(t) == Some(MemOpen(true))
  {
    t, p := Grow([], FRESH, FbOpen(true));
    t, p := Grow(t, p, Check(true));
    t, p := Grow(t, p, Check(true));
    t, p := Grow(t, p, Check(true));
    t, p := Grow(t, p, MemOpen(true));
  }

  lemma OpenEncoder(t: seq<Event>, p: Proto, sizeY: nat, sizeC: nat) returns (u: seq<Event>, q: Proto)
    requires Replay(t) == Some(p) && p == FRESH.(fb := Held, mem := Held)
    requires Ordered(t) && LastOf(t) == Some(MemOpen(true))
    ensures u == t + Creation(sizeY, sizeC) && Replay(u) == Some(q)
    ensures q == Proto(Held, Held, Held, Held, Held, 1, 0, 0, 0, false, false)
    ensures Ordered(u) && LastOf(u) == Some(AllocPool(1, sizeY, sizeC, true))
  {
    u, q := Grow(t, p, Create(true));
    u, q := Grow(u, q, Init(true));
    u, q := Grow(u, q, AllocPool(1, sizeY, sizeC, true));
  }

  lemma OpenBuffers(t: seq<Event>, p: Proto) returns (u: seq<Event>, q: Proto)
    requires Replay(t) == Some(p) && p == Proto(Held, Held, Held, Held, Held, 1, 0, 0, 0, false, false)
    requires Ordered(t) && LastOf(t).Some? && LastOf(t).value.AllocPool? && LastOf(t).value.ok
    ensures u == t + BUFFERS && Replay(u) == Some(q) && q == p.(out := 1)
    ensures Ordered(u) && LastOf(u) == Some(Poll(false))
  {
    u, q := Grow(t, p, Check(true));
    u, q := Grow(u, q, Event.GetInput(true));
    u, q := Grow(u, q, Check(true));
    u, q := Grow(u, q, Poll(false));
  }

  lemma AcceptFrame(t: seq<Event>, p: Proto, fb: seq<byte>, input: Input) returns (u: seq<Event>, q: Proto)
    requires Replay(t) == Some(p) && p == Proto(Held, Held, Held, Held, Held, 1, 1, 0, 0, false, false)
    requires Ordered(t) && LastOf(t) == Some(Poll(false))
    ensures u == t + Accepted(fb, input) && Replay(u) == Some(q) && q == p.(queued := 1, flushed := true)
    ensures Unreclaimed(u)
    ensures Ordered(u) && LastOf(u) == Some(AddInput(input, true))
  {
    u, q := Grow(t, p, FbRead(|fb|, fb, true));
    u, q := Grow(u, q, Flush);
    u, q := Grow(u, q, AddInput(input, true));
  }

  lemma AbandonFrame(t: seq<Event>, p: Proto) returns (u: seq<Event>, q: Proto)
    requires Replay(t) == Some(p) && p == Proto(Held, Held, Held, Held, Held, 1, 1, 1, 0, true, false) && Unreclaimed(t)
    requires Ordered(t) && LastOf(t).Some? && LastOf(t).value.AddInput? && LastOf(t).value.ok
    ensures u == t + ABANDONED && Replay(u) == Some(q) && q == p.(out := 0, queued := 0, dirty := true)
    ensures Unreclaimed(u)
    ensures Ordered(u) && LastOf(u) == Some(ReturnInput)
  {
    u, q := Grow(t, p, Event.Encode(false));
    u, q := Grow(u, q, Event.Reclaim(false, false));
    u, q := Grow(u, q, ReturnInput);
  }

  lemma CloseEncoder(t: seq<Event>, p: Proto) returns (u: seq<Event>, q: Proto)
    requires Replay(t) == Some(p) && p == Proto(Held, Held, Held, Held, Held, 1, 0, 0, 0, true, true) && Unreclaimed(t)
    requires Ordered(t) && LastOf(t) == Some(ReturnInput)
    ensures u == t + CLOSE_ENCODER && Replay(u) == Some(q) && Unreclaimed(u)
    ensures q == p.(pool := Released, init := Released, enc := Released)
    ensures Ordered(u) && LastOf(u) == Some(Destroy)
  {
    u, q := Grow(t, p, ReleasePool);
    u, q := Grow(u, q, UnInit);
    u, q := Grow(u, q, Destroy);
  }

  lemma CloseDevices(t: seq<Event>, p: Proto) returns (u: seq<Event>, q: Proto)
    requires Replay(t) == Some(p) && Unreclaimed(t) && Ordered(t) && LastOf(t) == Some(Destroy)
    requires p == Proto(Held, Held, Released, Released, Released, 1, 0, 0, 0, true, true)
    ensures u == t + CLOSE_DEVICES && Replay(u) == Some(q) && Closed(q) && q.dirty && Unreclaimed(u) && Ordered(u)
  {
    u, q := Grow(t, p, MemClose);
    u, q := Grow(u, q, FbClose);
  }

  /** A buffer can go back while the encoder owns it, in the very first frame. */
  lemma DirtyReachable(sizeY: nat, sizeC: nat, fb: seq<byte>, input: Input)
    ensures var t := DirtyTrace(sizeY, sizeC, fb, input);
            Replay(t).Some? && Closed(Replay(t).value) && Replay(t).value.dirty && Unreclaimed(t) && Ordered(t)
  {
    var t, p := OpenDevices();
    t, p := OpenEncoder(t, p, sizeY, sizeC);
    t, p := OpenBuffers(t, p);
    t, p := AcceptFrame(t, p, fb, input);
    t, p := AbandonFrame(t, p);
    t, p := CloseEncoder(t, p);
    t, p := CloseDevices(t, p);
  }

  /** Everything above, for a trace that grows by one event at a time. */
  datatype View = View(proto: Option<Proto>, shots: seq<seq<byte>>, inputs: seq<Input>, payloads: seq<seq<byte>>,
                       sleeps: seq<int>, failed: bool, stopped: bool, owed: bool)

  function Step(v: View, e: Event): View {
    View(if v.proto.None? then None else Apply(v.proto.value, e),
         if e.FbRead? && e.ok then v.shots + [e.pixels] else v.shots,
         if e.AddInput? then v.inputs + [e.input] else v.inputs,
         if e.GetOutput? && e.ok && Framing.Readable(e.out) then v.payloads + [Framing.Payload(e.out)] else v.payloads,
         if e.Sleep? then v.sleeps + [e.deadline] else v.sleeps,
         v.failed || Failing(e), v.stopped || e == Poll(true),
         if e.AddInput? && e.ok then true else if e.Reclaim? && e.got then false else v.owed)
  }

  lemma FailedStep(t: seq<Event>, e: Event)
    ensures Failed(t + [e]) <==> Failed(t) || Failing(e)
    ensures Stopped(t + [e]) <==> Stopped(t) || e == Poll(true)
  {
    if Failing(e) { assert e in t + [e]; }
    if Failed(t) {
      var f :| f in t && Failing(f);
      assert f in t + [e];
    }
  }

  // ------------------------------------------------------- what follows what

  /** No output is left: the library has none, or does not give it. */
  predicate Dry(e: Event) { (e.Pending? && e.n <= 0) || (e.GetOutput? && !e.ok) }

  /** What the `i`-th call promises: an accepted frame is encoded, and then the
      library is asked for output; output that is ready is fetched; what was
      fetched is freed, and the question put again; a frame that was encoded is
      taken back only when no output is left. */
  predicate FetchedAt(t: seq<Event>, i: nat)
    requires i < |t|
  {
    && (t[i].AddInput? && t[i].ok ==> i + 1 < |t| && t[i + 1].Encode?)
    && (t[i] == Event.Encode(true) ==> i + 1 < |t| && t[i + 1].Pending?)
    && (t[i].Pending? && t[i].n > 0 ==> i + 1 < |t| && t[i + 1].GetOutput?)
    && (t[i].GetOutput? && t[i].ok ==> i + 2 < |t| && t[i + 1].FreeOutput? && t[i + 2].Pending?)
    && (t[i].Reclaim? ==>
          i > 0 && (Dry(t[i - 1]) || t[i - 1] == Event.Encode(false) || (t[i - 1].Reclaim? && Failing(t[i - 1]))))
  }

  ghost predicate Fetched(t: seq<Event>) {
    forall i :: 0 <= i < |t| ==> FetchedAt(t, i)
  }

  /** A frame is on its way. */
  predicate Midway(e: Event) {
    (e.AddInput? && e.ok) || e == Event.Encode(true) || e.Pending? || (e.GetOutput? && e.ok) || e.FreeOutput?
  }

  lemma MidwayOpen(p: Proto, e: Event)
    requires Apply(p, e).Some? && Midway(e) && Nesting(p)
    ensures !Closed(Apply(p, e).value)
  {
  }

  /** A closed trace does not end there. */
  lemma NotLast(t: seq<Event>, i: nat)
    requires Replay(t).Some? && Closed(Replay(t).value) && i < |t| && Midway(t[i])
    ensures i + 1 < |t|
  {
    var n := |t| - 1;
    Nested(t[..n]);
    if i == n { MidwayOpen(Replay(t[..n]).value, t[n]); }
  }

  lemma After(a: Event, b: Event)
    requires Next(a, b)
    ensures a.AddInput? && a.ok ==> b.Encode?
    ensures a == Event.Encode(true) ==> b.Pending?
    ensures a.Pending? && a.n > 0 ==> b.GetOutput?
    ensures a.GetOutput? && a.ok ==> b.FreeOutput?
    ensures a.FreeOutput? ==> b.Pending?
    ensures b.Reclaim? ==> Dry(a) || a == Event.Encode(false) || (a.Reclaim? && Failing(a))
  {
    match a {
      case Encode(_) =>
      case _ =>
    }
  }

  lemma FetchedHere(t: seq<Event>, i: nat)
    requires Replay(t).Some? && Closed(Replay(t).value) && i < |t|
    requires InOrder(t, i)
    requires i + 1 < |t| ==> Next(t[i], t[i + 1])
    requires i + 2 < |t| ==> Next(t[i + 1], t[i + 2])
    ensures FetchedAt(t, i)
  {
    if i > 0 { After(t[i - 1], t[i]); }
    if Midway(t[i]) {
      NotLast(t, i);
      After(t[i], t[i + 1]);
      if t[i].GetOutput? {
        NotLast(t, i + 1);
        After(t[i + 1], t[i + 2]);
      }
    }
  }

  /** A trace in that order that ends closed has fetched all there was. */
  lemma FetchedAll(t: seq<Event>)
    requires Ordered(t) && Replay(t).Some? && Closed(Replay(t).value)
    ensures Fetched(t)
  {
    forall i | 0 <= i < |t|
      ensures FetchedAt(t, i)
    {
      assert InOrder(t, i);
      if i + 1 < |t| { assert InOrder(t, i + 1); }
      if i + 2 < |t| { assert InOrder(t, i + 2); }
      FetchedHere(t, i);
    }
  }

  // --------------------------------------------------------------- the answers

  /** One answer of the outside world: a return code, framebuffer bytes, an
      output description, and whether a reclaimed buffer has a plane. */
  datatype Reply = Reply(code: int, pixels: seq<byte>, out: Framing.OutDesc, mapped: bool)

  /** The answer to question number `k`, if the schedule goes that far. */
  function Answer(script: seq<Reply>, k: nat): Option<Reply> {
    if k < |script| then Some(script[k]) else None
  }

  predicate Zero(r: Option<Reply>) { r.Some? && r.value.code == 0 }

  /** What the caller made of a call whose only answer is its return code. */
  function Plain(e: Event): Option<bool> {
    match e
    case FbOpen(ok) => Some(ok)
    case Check(ok) => Some(ok)
    case MemOpen(ok) => Some(ok)
    case Create(ok) => Some(ok)
    case Init(ok) => Some(ok)
    case AllocPool(_, _, _, ok) => Some(ok)
    case GetInput(ok) => Some(ok)
    case AddInput(_, ok) => Some(ok)
    case Encode(ok) => Some(ok)
    case _ => None
  }

  predicate Asks(e: Event) {
    Plain(e).Some? || e.Poll? || e.Pending? || e.FbRead? || e.GetOutput? || e.Reclaim?
  }

  /** The event is what the answer says. A plain call is good exactly when it
      returned zero. */
  predicate Agrees(e: Event, r: Option<Reply>) {
    match e
    case Poll(stop) => stop <==> r.None? || r.value.code != 0
    case Pending(n) => n == if r.Some? then r.value.code else 0
    case FbRead(size, pixels, ok) =>
      (ok <==> r.Some? && |r.value.pixels| == size) && (r.Some? ==> pixels == r.value.pixels)
    case GetOutput(out, ok) => (ok <==> Zero(r)) && (r.Some? ==> out == r.value.out)
    case Reclaim(got, mapped) => (got <==> Zero(r)) && (mapped <==> Zero(r) && r.value.mapped)
    case _ => Plain(e) == Some(Zero(r))
  }

  /** Questions in a trace. */
  function Asked(t: seq<Event>): nat {
    if t == [] then 0 else Asked(t[..|t| - 1]) + if Asks(t[|t| - 1]) then 1 else 0
  }

  /** Every question of the trace got the next answer of the schedule. */
  ghost predicate Told(script: seq<Reply>, t: seq<Event>) {
    forall i :: 0 <= i < |t| && Asks(t[i]) ==> Agrees(t[i], Answer(script, Asked(t[..i])))
  }

  /** Buffer pools asked for: how many buffers, of which two sizes. */
  function Pools(t: seq<Event>): seq<(nat, nat, nat)> {
    if t == [] then []
    else
      var e := t[|t| - 1];
      Pools(t[..|t| - 1]) + if e.AllocPool? then [(e.count, e.sizeY, e.sizeC)] else []
  }

  /** Framebuffer sizes asked for. */
  function Reads(t: seq<Event>): seq<nat> {
    if t == [] then []
    else
      var e := t[|t| - 1];
      Reads(t[..|t| - 1]) + if e.FbRead? then [e.size] else []
  }

  /** All of this for a trace that grows by one event at a time. */
  datatype Trail = Trail(last: Option<Event>, ordered: bool, asked: nat, told: bool,
                         pools: seq<(nat, nat, nat)>, sizes: seq<nat>)

  function Walk(script: seq<Reply>, v: Trail, e: Event): Trail {
    Trail(Some(e), v.ordered && May(v.last, e),
          v.asked + if Asks(e) then 1 else 0, v.told && (Asks(e) ==> Agrees(e, Answer(script, v.asked))),
          if e.AllocPool? then v.pools + [(e.count, e.sizeY, e.sizeC)] else v.pools,
          if e.FbRead? then v.sizes + [e.size] else v.sizes)
  }

  lemma ToldStep(script: seq<Reply>, t: seq<Event>, e: Event)
    ensures Told(script, t + [e]) <==> Told(script, t) && (Asks(e) ==> Agrees(e, Answer(script, Asked(t))))
  {
    var u := t + [e];
    forall i | 0 <= i < |t| ensures u[i] == t[i] && u[..i] == t[..i] {}
    assert u[|t|] == e && u[..|t|] == t;
    if Told(script, u) {
      forall i | 0 <= i < |t| && Asks(t[i]) ensures Agrees(t[i], Answer(script, Asked(t[..i]))) {
        assert Agrees(u[i], Answer(script, Asked(u[..i])));
      }
    }
  }

  const NO_VIEW: View := View(Some(FRESH), [], [], [], [], false, false, false)
  const NO_TRAIL: Trail := Trail(None, true, 0, true, [], [])

  /** What was seen after so many events. */
  datatype Record = Record(view: View, trail: Trail)

  predicate Link(script: seq<Reply>, t: seq<Event>, h: seq<Record>, i: nat)
    requires i < |t| && |h| == |t| + 1
  {
    h[i + 1] == Record(Step(h[i].view, t[i]), Walk(script, h[i].trail, t[i]))
  }

  /** What was seen after each event of a trace. */
  ghost predicate History(script: seq<Reply>, t: seq<Event>, h: seq<Record>) {
    |h| == |t| + 1 && h[0] == Record(NO_VIEW, NO_TRAIL) && forall i :: 0 <= i < |t| ==> Link(script, t, h, i)
  }

  lemma HistoryGrows(script: seq<Reply>, t: seq<Event>, h: seq<Record>, e: Event)
    requires History(script, t, h)
    ensures var last := h[|t|];
            History(script, t + [e], h + [Record(Step(last.view, e), Walk(script, last.trail, e))])
  {
    var last := h[|t|];
    var u, k := t + [e], h + [Record(Step(last.view, e), Walk(script, last.trail, e))];
    forall i | 0 <= i < |u|
      ensures Link(script, u, k, i)
    {
      if i < |t| { assert Link(script, t, h, i); }
    }
  }

  lemma {:induction false} ViewIs(script: seq<Reply>, t: seq<Event>, h: seq<Record>, n: nat)
    requires History(script, t, h) && n <= |t|
    ensures var b := t[..n];
            h[n].view
            == View(Replay(b), Shots(b), Inputs(b), Payloads(b), Sleeps(b), Failed(b), Stopped(b), Unreclaimed(b))
    decreases n
  {
    if n > 0 {
      var before, e := t[..n - 1], t[n - 1];
      assert t[..n] == before + [e];
      assert Link(script, t, h, n - 1);
      ViewIs(script, t, h, n - 1);
      FailedStep(before, e);
    }
  }

  /** The trail of a trace, told by the trace alone. */
  ghost function TrailOf(script: seq<Reply>, t: seq<Event>): Trail {
    Trail(LastOf(t), Ordered(t), Asked(t), Told(script, t), Pools(t), Reads(t))
  }

  lemma CountsStep(t: seq<Event>, e: Event)
    ensures Asked(t + [e]) == Asked(t) + if Asks(e) then 1 else 0
    ensures Pools(t + [e]) == if e.AllocPool? then Pools(t) + [(e.count, e.sizeY, e.sizeC)] else Pools(t)
    ensures Reads(t + [e]) == if e.FbRead? then Reads(t) + [e.size] else Reads(t)
  {
    assert (t + [e])[..|t|] == t;
  }

  lemma TrailStep(script: seq<Reply>, t: seq<Event>, e: Event)
    ensures TrailOf(script, t + [e]) == Walk(script, TrailOf(script, t), e)
  {
    CountsStep(t, e);
    OrderedStep(t, e);
    ToldStep(script, t, e);
  }

  lemma {:induction false} TrailIs(script: seq<Reply>, t: seq<Event>, h: seq<Record>, n: nat)
    requires History(script, t, h) && n <= |t|
    ensures h[n].trail == TrailOf(script, t[..n])
    decreases n
  {
    if n > 0 {
      assert t[..n] == t[..n - 1] + [t[n - 1]];
      assert Link(script, t, h, n - 1);
      TrailIs(script, t, h, n - 1);
      TrailStep(script, t[..n - 1], t[n - 1]);
    }
  }

  // --------------------------------------------------------------- the oracle

  /** The library, the framebuffer and the stop flag. Any schedule of answers
      is possible; when it has run dry every call fails, no output is pending
      and the stop flag is up, so every schedule is a finite run. */
  class Library {
    const script: seq<Reply>
    var pos: nat
    ghost var trace: seq<Event>
    ghost var view: View
    ghost var trail: Trail
    ghost var history: seq<Record>

    /** What the source takes for granted: output regions can be read. */
    ghost predicate Seen()
      reads this
    {
      && History(script, trace, history) && history[|trace|] == Record(view, trail) && trail.told
      && forall r :: r in script ==> Framing.Readable(r.out)
    }

    ghost predicate Valid()
      reads this
    {
      Seen() && pos == Min(trail.asked, |script|)
    }

    constructor (script: seq<Reply>)
      requires forall r :: r in script ==> Framing.Readable(r.out)
      ensures Valid() && trace == [] && this.script == script
    {
      this.script := script;
      pos := 0;
      trace := [];
      view, trail := NO_VIEW, NO_TRAIL;
      history := [Record(NO_VIEW, NO_TRAIL)];
    }

    /** What one event adds to the records. */
    ghost predicate Grown(v: View, w: Trail, e: Event)
      reads this
    {
      && view == Step(v, e)
      && trail.last == Some(e) && (trail.ordered <==> w.ordered && May(w.last, e))
      && trail.pools == (if e.AllocPool? then w.pools + [(e.count, e.sizeY, e.sizeC)] else w.pools)
      && trail.sizes == (if e.FbRead? then w.sizes + [e.size] else w.sizes)
    }

    ghost method Append(e: Event)
      requires Seen() && (Asks(e) ==> Agrees(e, Answer(script, trail.asked)))
      modifies this`trace, this`view, this`trail, this`history
      ensures Seen() && trace == old(trace) + [e] && Grown(old(view), old(trail), e)
      ensures trail.asked == old(trail.asked) + if Asks(e) then 1 else 0
    {
      HistoryGrows(script, trace, history, e);
      trace, view, trail := trace + [e], Step(view, e), Walk(script, trail, e);
      history := history + [Record(view, trail)];
    }

    /** A call without an answer. */
    ghost method Log(e: Event)
      requires Valid() && !Asks(e)
      modifies this`trace, this`view, this`trail, this`history
      ensures Valid() && trace == old(trace) + [e] && Grown(old(view), old(trail), e)
    {
      Append(e);
    }

    /** The next answer, if any. */
    method Next() returns (r: Option<Reply>)
      requires Valid()
      modifies this`pos
      ensures r == Answer(script, trail.asked) && pos == Min(trail.asked + 1, |script|) && pos >= old(pos)
      ensures r.Some? ==> old(pos) < |script| && r.value == script[old(pos)] && pos == old(pos) + 1
    {
      r := None;
      if pos < |script| {
        r := Some(script[pos]);
        pos := pos + 1;
      }
    }

    /** A call whose only answer is its return code, recorded as the event
        `good` or the event `bad`. */
    method Attempt(good: Event, bad: Event) returns (ok: bool)
      requires Valid() && Plain(good) == Some(true) && Plain(bad) == Some(false)
      modifies this
      ensures Valid() && pos >= old(pos)
      ensures trace == old(trace) + [if ok then good else bad]
      ensures Grown(old(view), old(trail), if ok then good else bad)
    {
      var r := Next();
      ok := r.Some? && r.value.code == 0;
      Append(if ok then good else bad);
    }

    /** `*stop_flag`. */
    method StopFlag() returns (stop: bool)
      requires Valid()
      modifies this
      ensures Valid() && Grown(old(view), old(trail), Poll(stop)) && trace == old(trace) + [Poll(stop)]
      ensures pos >= old(pos) && (!stop ==> pos > old(pos))
    {
      var r := Next();
      stop := r.None? || r.value.code != 0;
      Append(Poll(stop));
    }

    /** `ValidBitstreamFrameNum`. */
    method OutputPending() returns (n: int)
      requires Valid()
      modifies this
      ensures Valid() && Grown(old(view), old(trail), Pending(n)) && trace == old(trace) + [Pending(n)]
      ensures pos >= old(pos) && (n > 0 ==> pos > old(pos))
    {
      var r := Next();
      n := if r.Some? then r.value.code else 0;
      Append(Pending(n));
    }

    /** `pread` of `size` bytes; a short read is a failure. */
    method ReadFb(size: nat) returns (ok: bool, pixels: seq<byte>)
      requires Valid()
      modifies this
      ensures Valid() && pos >= old(pos) && (ok ==> |pixels| == size)
      ensures Grown(old(view), old(trail), FbRead(size, pixels, ok)) && trace == old(trace) + [FbRead(size, pixels, ok)]
    {
      var r := Next();
      pixels := if r.Some? then r.value.pixels else [];
      ok := |pixels| == size && r.Some?;
      Append(FbRead(size, pixels, ok));
    }

    /** The planes of an input buffer: of the sizes asked of the pool. */
    method Planes(sizeY: nat, sizeC: nat) returns (y: array<byte>, uv: array<byte>)
      ensures fresh(y) && fresh(uv) && y != uv && y.Length == sizeY && uv.Length == sizeC
    {
      y := new byte[sizeY];
      uv := new byte[sizeC];
    }

    /** `AlreadyUsedInputBuffer`. */
    method Reclaim() returns (ok: bool, got: bool)
      requires Valid()
      modifies this
      ensures Valid() && pos >= old(pos) && (ok ==> got)
      ensures Grown(old(view), old(trail), Event.Reclaim(got, ok)) && trace == old(trace) + [Event.Reclaim(got, ok)]
    {
      var r := Next();
      got := r.Some? && r.value.code == 0;
      ok := got && r.value.mapped;
      Append(Event.Reclaim(got, ok));
    }

    /** `GetOneBitstreamFrame`. */
    method GetOutput() returns (ok: bool, out: Framing.OutDesc)
      requires Valid()
      modifies this
      ensures Valid() && pos >= old(pos) && (ok ==> Framing.Readable(out))
      ensures Grown(old(view), old(trail), Event.GetOutput(out, ok)) && trace == old(trace) + [Event.GetOutput(out, ok)]
    {
      var r := Next();
      if r.Some? { assert r.value in script; }
      ok := r.Some? && r.value.code == 0;
      out := if r.Some? then r.value.out else Framing.OutDesc(0, None, 0, None, 0, None);
      Append(Event.GetOutput(out, ok));
    }
  }
}
