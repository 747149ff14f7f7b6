/** Streaming sessions as interleaved steps. Commands and the goroutines they
    spawn each move one lock region, one network call or one publication at a
    time, in any order. A start command, the context it creates, the goroutine
    it spawns and the server that goroutine starts share one number. */
module Lifecycle {
  import opened Bytes

  datatype CState = Idle | Streaming | Error

  /** The controller's fields that the lock protects. */
  datatype Ctl = Ctl(state: CState, streamSrv: Option<nat>, cancelFn: Option<nat>, started: bool)

  // The lock regions.
  function Taken(c: Ctl): Ctl { c.(streamSrv := None, cancelFn := None, started := false) }

  function Installed(c: Ctl, id: nat): Ctl { c.(cancelFn := Some(id)) }

  function Published(c: Ctl, id: nat): Ctl { c.(streamSrv := Some(id), started := true) }

  function InState(c: Ctl, st: CState): Ctl { c.(state := st) }

  // ------------------------------------------------------------ the system

  datatype CmdPc = AtTake | AtCancel | AtStopSrv | AtIdle | AtWifi | AtWifiErr | AtInstall | AtSpawn | CmdDone

  datatype RunPc = NotSpawned | AtEntry | AtListen | AtErr | AtPublish | AtStreaming | Waiting | RunDone

  datatype Ctx = NoCtx | Uncancelled | Cancelled

  /** `Draining`: stopped, but the accept loop has not let go of the port. */
  datatype Server = NoServer | Listening | Draining | Closed

  datatype Session = Session(isStart: bool, cmd: CmdPc, cancel: Option<nat>, srv: Option<nat>,
                             ctx: Ctx, run: RunPc, server: Server, stops: nat)

  datatype Sys = Sys(ctl: Ctl, port: Option<nat>, ss: map<nat, Session>, last: Option<nat>)

  const START: Sys := Sys(Ctl(Idle, None, None, false), None, map[], None)

  datatype Action =
    | Begin(i: nat, isStart: bool)
    | Take(i: nat) | Cancel(i: nat) | StopSrv(i: nat, drained: bool) | SetIdle(i: nat)
    | Wifi(i: nat, up: bool) | WifiErr(i: nat) | Install(i: nat) | Spawn(i: nat)
    | RunWifi(i: nat, up: bool) | Listen(i: nat, ok: bool) | RunErr(i: nat)
    | Publish(i: nat) | SetStreaming(i: nat) | RunEnd(i: nat)
    | Drain(i: nat)

  /** Spawned, and its last state update still to come. */
  predicate InFlight(r: RunPc) {
    r.AtEntry? || r.AtListen? || r.AtErr? || r.AtPublish? || r.AtStreaming?
  }

  predicate NoneInFlight(s: Sys) {
    forall i :: i in s.ss ==> !InFlight(s.ss[i].run)
  }

  function Put(s: Sys, i: nat, x: Session): Sys { s.(ss := s.ss[i := x]) }

  /** One step, or nothing when it is not enabled. */
  function Apply(s: Sys, a: Action): Option<Sys> {
    if a.Begin? then
      if a.i in s.ss then None
      else Some(Put(s, a.i, Session(a.isStart, AtTake, None, None, NoCtx, NotSpawned, NoServer, 0)).(last := Some(a.i)))
    else if a.i !in s.ss then None
    else
      var x := s.ss[a.i];
      match a
      case Take(i) =>
        if !x.cmd.AtTake? then None
        else Some(Put(s, i, x.(cmd := AtCancel, cancel := s.ctl.cancelFn, srv := s.ctl.streamSrv))
                  .(ctl := Taken(s.ctl)))
      case Cancel(i) =>
        if !x.cmd.AtCancel? then None
        else
          var t := if x.cancel.Some? && x.cancel.value in s.ss
                   then Put(s, x.cancel.value, s.ss[x.cancel.value].(ctx := Cancelled)) else s;
          Some(Put(t, i, t.ss[i].(cmd := AtStopSrv)))
      case StopSrv(i, drained) =>
        if !x.cmd.AtStopSrv? then None
        else if x.srv.None? || x.srv.value !in s.ss then Some(Put(s, i, x.(cmd := AtIdle)))
        else
          var k := x.srv.value;
          var y := s.ss[k];
          var t := Put(s, k, y.(server := if drained then Closed else Draining, stops := y.stops + 1))
                   .(port := if drained then None else s.port);
          Some(Put(t, i, t.ss[i].(cmd := AtIdle)))
      case SetIdle(i) =>
        if !x.cmd.AtIdle? then None
        else Some(Put(s, i, x.(cmd := if x.isStart then AtWifi else CmdDone)).(ctl := InState(s.ctl, Idle)))
      case Wifi(i, up) =>
        if !x.cmd.AtWifi? then None else Some(Put(s, i, x.(cmd := if up then AtInstall else AtWifiErr)))
      case WifiErr(i) =>
        if !x.cmd.AtWifiErr? then None else Some(Put(s, i, x.(cmd := CmdDone)).(ctl := InState(s.ctl, Error)))
      case Install(i) =>
        if !x.cmd.AtInstall? then None
        else Some(Put(s, i, x.(cmd := AtSpawn, ctx := Uncancelled)).(ctl := Installed(s.ctl, i)))
      case Spawn(i) =>
        if !x.cmd.AtSpawn? then None else Some(Put(s, i, x.(cmd := CmdDone, run := AtEntry)))
      case RunWifi(i, up) =>
        if !x.run.AtEntry? then None else Some(Put(s, i, x.(run := if up then AtListen else AtErr)))
      case Listen(i, ok) =>
        if !x.run.AtListen? || (ok && s.port.Some?) then None
        else if ok then Some(Put(s, i, x.(run := AtPublish, server := Listening)).(port := Some(i)))
        else Some(Put(s, i, x.(run := AtErr)))
      case RunErr(i) =>
        if !x.run.AtErr? then None else Some(Put(s, i, x.(run := RunDone)).(ctl := InState(s.ctl, Error)))
      case Publish(i) =>
        if !x.run.AtPublish? then None else Some(Put(s, i, x.(run := AtStreaming)).(ctl := Published(s.ctl, i)))
      case SetStreaming(i) =>
        if !x.run.AtStreaming? then None else Some(Put(s, i, x.(run := Waiting)).(ctl := InState(s.ctl, Streaming)))
      case RunEnd(i) =>
        if !x.run.Waiting? || !x.ctx.Cancelled? then None else Some(Put(s, i, x.(run := RunDone)))
      case Drain(i) =>
        if !x.server.Draining? then None else Some(Put(s, i, x.(server := Closed)).(port := None))
  }

  /** A whole run. */
  function Exec(s: Sys, acts: seq<Action>): Option<Sys>
    decreases |acts|
  {
    if acts == [] then Some(s)
    else
      match Exec(s, acts[..|acts| - 1])
      case None => None
      case Some(t) => Apply(t, acts[|acts| - 1])
  }

  // -------------------------------------------- no started server is lost

  /** Command `j` has taken server `i` out of the controller and not yet
      stopped it. */
  predicate Holds(s: Sys, j: nat, i: nat) {
    j in s.ss && (s.ss[j].cmd.AtCancel? || s.ss[j].cmd.AtStopSrv?) && s.ss[j].srv == Some(i)
  }

  /** A server that was started and not stopped, past its publication. */
  predicate Live(s: Sys, i: nat) {
    i in s.ss && s.ss[i].server.Listening? && s.ss[i].stops == 0
    && (s.ss[i].run.AtStreaming? || s.ss[i].run.Waiting? || s.ss[i].run.RunDone?)
  }

  /** The state of one session's own goroutine and server. */
  predicate SessionOk(s: Sys, i: nat)
    requires i in s.ss
  {
    var x := s.ss[i];
    && (x.server.Listening? || x.server.Draining? <==> s.port == Some(i))
    && (x.server.NoServer? <==> x.run.NotSpawned? || x.run.AtEntry? || x.run.AtListen? || x.run.AtErr?
                                || (x.run.RunDone? && x.server.NoServer?))
    && (!x.cmd.CmdDone? ==> x.run.NotSpawned?)
    && (x.run.AtPublish? ==> x.server.Listening?)
    && x.stops == (if x.server.Draining? || x.server.Closed? then 1 else 0)
  }

  /** A listening server is published, about to be published, or taken. */
  ghost predicate Owned(s: Sys, i: nat)
    requires i in s.ss
  {
    s.ctl.streamSrv == Some(i) || s.ss[i].run.AtPublish? || exists j: nat :: Holds(s, j, i)
  }

  ghost predicate Inv(s: Sys) {
    && (s.port.Some? ==> s.port.value in s.ss)
    && (forall i :: i in s.ss ==> SessionOk(s, i))
    && (forall i :: i in s.ss && s.ss[i].server.Listening? ==> Owned(s, i))
    && (s.ctl.streamSrv.Some? ==> Live(s, s.ctl.streamSrv.value))
    && (forall j: nat, i: nat :: Holds(s, j, i) ==> Live(s, i) && s.ctl.streamSrv != Some(i))
    && (forall j: nat, k: nat, i: nat :: Holds(s, j, i) && Holds(s, k, i) ==> j == k)
  }

  /** Ownership survives when nothing it speaks of changes. */
  lemma Kept(s: Sys, t: Sys)
    requires Inv(s)
    requires t.port == s.port && t.ctl.streamSrv == s.ctl.streamSrv && s.ss.Keys <= t.ss.Keys
    requires forall i :: i in t.ss ==> SessionOk(t, i)
    requires forall j: nat, i: nat :: Holds(t, j, i) <==> Holds(s, j, i)
    requires forall i: nat :: Live(t, i) <==> Live(s, i)
    requires forall i :: i in t.ss && t.ss[i].server.Listening? ==> i in s.ss && s.ss[i].server.Listening?
    requires forall i :: i in s.ss && s.ss[i].run.AtPublish? ==> t.ss[i].run.AtPublish?
    ensures Inv(t)
  {
    forall i | i in t.ss && t.ss[i].server.Listening?
      ensures Owned(t, i)
    {
      assert Owned(s, i);
      if j: nat :| Holds(s, j, i) { assert Holds(t, j, i); }
    }
  }

  lemma InvBegin(s: Sys, i: nat, isStart: bool)
    requires Inv(s) && i !in s.ss
    ensures Inv(Apply(s, Begin(i, isStart)).value)
  {
    var t := Apply(s, Begin(i, isStart)).value;
    forall j: nat, k: nat ensures Holds(t, j, k) <==> Holds(s, j, k) {}
    forall k: nat ensures Live(t, k) <==> Live(s, k) {}
    forall k | k in s.ss ensures SessionOk(t, k) { assert SessionOk(s, k); }
    Kept(s, t);
  }

  /** Session `i` moves to `y` without touching servers or ownership. */
  predicate Mild(x: Session, y: Session) {
    && y.server == x.server && y.stops == x.stops && y.srv == x.srv
    && (x.cmd.AtCancel? || x.cmd.AtStopSrv? <==> y.cmd.AtCancel? || y.cmd.AtStopSrv?)
    && (x.run.AtPublish? <==> y.run.AtPublish?)
    && (x.run.AtStreaming? || x.run.Waiting? || (x.run.RunDone? && !x.server.NoServer?)
        <==> y.run.AtStreaming? || y.run.Waiting? || (y.run.RunDone? && !y.server.NoServer?))
    && (!y.cmd.CmdDone? ==> y.run.NotSpawned?)
  }

  lemma InvMild(s: Sys, i: nat, y: Session, c: Ctl)
    requires Inv(s) && i in s.ss && Mild(s.ss[i], y) && c.streamSrv == s.ctl.streamSrv
    ensures Inv(Put(s, i, y).(ctl := c))
  {
    var t := Put(s, i, y).(ctl := c);
    assert SessionOk(s, i);
    forall j: nat, k: nat ensures Holds(t, j, k) <==> Holds(s, j, k) {}
    forall k: nat ensures Live(t, k) <==> Live(s, k) {}
    forall k | k in t.ss ensures SessionOk(t, k) { assert SessionOk(s, k); }
    Kept(s, t);
  }

  /** Steps that leave servers, the port and every taken server alone. */
  lemma InvOther(s: Sys, a: Action)
    requires Inv(s) && Apply(s, a).Some?
    requires !(a.Begin? || a.Take? || a.Cancel? || a.StopSrv? || a.Listen? || a.Publish? || a.Drain?)
    ensures Inv(Apply(s, a).value)
  {
    var t := Apply(s, a).value;
    assert SessionOk(s, a.i);
    assert t == Put(s, a.i, t.ss[a.i]).(ctl := t.ctl);
    InvMild(s, a.i, t.ss[a.i], t.ctl);
  }

  lemma InvTake(s: Sys, i: nat)
    requires Inv(s) && Apply(s, Take(i)).Some?
    ensures Inv(Apply(s, Take(i)).value)
  {
    var t := Apply(s, Take(i)).value;
    forall j: nat, k: nat ensures Holds(t, j, k) <==> Holds(s, j, k) || (j == i && s.ctl.streamSrv == Some(k)) {}
    forall k: nat ensures Live(t, k) <==> Live(s, k) {}
    forall k | k in t.ss && t.ss[k].server.Listening?
      ensures Owned(t, k)
    {
      assert Owned(s, k);
      if s.ctl.streamSrv == Some(k) {
        assert Holds(t, i, k);
      } else if j: nat :| Holds(s, j, k) { assert Holds(t, j, k); }
    }
  }

  lemma InvCancel(s: Sys, i: nat)
    requires Inv(s) && Apply(s, Cancel(i)).Some?
    ensures Inv(Apply(s, Cancel(i)).value)
  {
    var t := Apply(s, Cancel(i)).value;
    forall j: nat, k: nat ensures Holds(t, j, k) <==> Holds(s, j, k) {}
    forall k: nat ensures Live(t, k) <==> Live(s, k) {}
    Kept(s, t);
  }

  lemma LiveOwnsPort(s: Sys)
    requires Inv(s)
    ensures forall i: nat :: Live(s, i) ==> s.port == Some(i)
    ensures forall i :: i in s.ss && s.ss[i].server.Listening? ==> s.port == Some(i)
  {
    forall i: nat ensures Live(s, i) ==> s.port == Some(i) {
      if i in s.ss { assert SessionOk(s, i); }
    }
    forall i | i in s.ss && s.ss[i].server.Listening? ensures s.port == Some(i) { assert SessionOk(s, i); }
  }

  lemma InvStopSrv(s: Sys, i: nat, drained: bool)
    requires Inv(s) && Apply(s, StopSrv(i, drained)).Some?
    ensures Inv(Apply(s, StopSrv(i, drained)).value)
  {
    var t := Apply(s, StopSrv(i, drained)).value;
    forall j: nat, k: nat ensures Holds(t, j, k) <==> Holds(s, j, k) && j != i {}
    if s.ss[i].srv.Some? {
      var k := s.ss[i].srv.value;
      assert Holds(s, i, k) && s.port == Some(k);
      forall m | m in t.ss ensures SessionOk(t, m) && !t.ss[m].server.Listening? {
        assert SessionOk(s, m);
      }
      LiveOwnsPort(s);
      forall m: nat, n: nat ensures !Holds(t, m, n) {
        assert Holds(t, m, n) ==> Holds(s, m, n) && n == k && m == i;
      }
    } else {
      forall k: nat ensures Live(t, k) <==> Live(s, k) {}
      forall j: nat, k: nat ensures Holds(t, j, k) <==> Holds(s, j, k) {}
      Kept(s, t);
    }
  }

  lemma InvListen(s: Sys, i: nat, ok: bool)
    requires Inv(s) && Apply(s, Listen(i, ok)).Some?
    ensures Inv(Apply(s, Listen(i, ok)).value)
  {
    var t := Apply(s, Listen(i, ok)).value;
    forall j: nat, k: nat ensures Holds(t, j, k) <==> Holds(s, j, k) {}
    forall k: nat ensures Live(t, k) <==> Live(s, k) {}
    if ok {
      forall m | m in s.ss ensures !s.ss[m].server.Listening? && !s.ss[m].server.Draining? { assert SessionOk(s, m); }
    } else {
      Kept(s, t);
    }
  }

  /** The port is the publisher's, so nobody else is listening: publication
      finds the field empty. */
  lemma PublishFindsEmpty(s: Sys, i: nat)
    requires Inv(s) && i in s.ss && s.ss[i].run.AtPublish?
    ensures s.ctl.streamSrv == None
    ensures forall j: nat, k: nat :: !Holds(s, j, k)
  {
    LiveOwnsPort(s);
    assert SessionOk(s, i);
    forall j: nat, k: nat ensures !Holds(s, j, k) {
      assert Holds(s, j, k) ==> Live(s, k);
    }
  }

  lemma InvPublish(s: Sys, i: nat)
    requires Inv(s) && Apply(s, Publish(i)).Some?
    ensures Inv(Apply(s, Publish(i)).value)
  {
    var t := Apply(s, Publish(i)).value;
    PublishFindsEmpty(s, i);
    assert SessionOk(s, i);
    forall j: nat, k: nat ensures Holds(t, j, k) <==> Holds(s, j, k) {}
    forall k | k in t.ss ensures SessionOk(t, k) { assert SessionOk(s, k); }
  }

  lemma InvDrain(s: Sys, i: nat)
    requires Inv(s) && Apply(s, Drain(i)).Some?
    ensures Inv(Apply(s, Drain(i)).value)
  {
    var t := Apply(s, Drain(i)).value;
    LiveOwnsPort(s);
    assert SessionOk(s, i);
    forall j: nat, k: nat ensures !Holds(t, j, k) {
      assert Holds(t, j, k) ==> Holds(s, j, k) && Live(s, k);
    }
    forall k | k in t.ss ensures SessionOk(t, k) && !t.ss[k].server.Listening? { assert SessionOk(s, k); }
  }

  lemma InvStep(s: Sys, a: Action)
    requires Inv(s) && Apply(s, a).Some?
    ensures Inv(Apply(s, a).value)
  {
    var t := Apply(s, a).value;
    match a {
      case Begin(i, isStart) => InvBegin(s, i, isStart);
      case Take(i) => InvTake(s, i);
      case Cancel(i) => InvCancel(s, i);
      case StopSrv(i, drained) => InvStopSrv(s, i, drained);
      case Listen(i, ok) => InvListen(s, i, ok);
      case Publish(i) => InvPublish(s, i);
      case Drain(i) => InvDrain(s, i);
      case _ => InvOther(s, a);
    }
  }

  /** Safety over whole runs: the invariant holds after every interleaving. */
  lemma {:induction false} Safe(acts: seq<Action>)
    requires Exec(START, acts).Some?
    ensures Inv(Exec(START, acts).value)
    decreases |acts|
  {
    if acts != [] {
      var before := acts[..|acts| - 1];
      Safe(before);
      InvStep(Exec(START, before).value, acts[|acts| - 1]);
    }
  }

  /** The claims a reader cares about, after any interleaving whatsoever: at
      most one server is listening; it has an owner, and only one of the three
      kinds; no server was stopped twice; and a publication that is due finds
      the field empty, so it overwrites nothing. */
  lemma NoServerLost(acts: seq<Action>)
    requires Exec(START, acts).Some?
    ensures var s := Exec(START, acts).value;
            && (forall i, k :: i in s.ss && k in s.ss && s.ss[i].server.Listening? && s.ss[k].server.Listening?
                  ==> i == k)
            && (forall i :: i in s.ss && s.ss[i].server.Listening? ==> Owned(s, i))
            && (forall i :: i in s.ss && s.ctl.streamSrv == Some(i)
                  ==> !s.ss[i].run.AtPublish? && forall j: nat :: !Holds(s, j, i))
            && (forall i :: i in s.ss && s.ss[i].run.AtPublish?
                  ==> s.ctl.streamSrv == None && forall j: nat :: !Holds(s, j, i))
            && (forall i, j, k: nat :: i in s.ss && Holds(s, j, i) && Holds(s, k, i) ==> j == k)
            && (forall i :: i in s.ss ==> s.ss[i].stops <= 1)
  {
    var s := Exec(START, acts).value;
    Safe(acts);
    LiveOwnsPort(s);
    forall i | i in s.ss ensures s.ss[i].stops <= 1 { assert SessionOk(s, i); }
    forall i | i in s.ss && s.ss[i].run.AtPublish?
      ensures s.ctl.streamSrv == None && forall j: nat :: !Holds(s, j, i)
    {
      PublishFindsEmpty(s, i);
    }
  }

  // ------------------------------------ what the fields say after a whole run

  /** A report of the state to the clients. */
  predicate Reports(a: Action) { a.SetIdle? || a.WifiErr? || a.RunErr? || a.SetStreaming? }

  /** The state is the one reported last, idle when none was: streaming by a
      goroutine that has published its server, error by a missing network or
      port, idle by a stop. */
  lemma {:induction false} StateExact(acts: seq<Action>, k: int)
    requires Exec(START, acts).Some? && -1 <= k < |acts|
    requires k >= 0 ==> Reports(acts[k])
    requires forall j :: k < j < |acts| ==> !Reports(acts[j])
    ensures var st := Exec(START, acts).value.ctl.state;
            && (st == Streaming <==> k >= 0 && acts[k].SetStreaming?)
            && (st == Error <==> k >= 0 && (acts[k].RunErr? || acts[k].WifiErr?))
            && (st == Idle <==> k == -1 || acts[k].SetIdle?)
    decreases |acts|
  {
    if k < |acts| - 1 {
      StateExact(acts[..|acts| - 1], k);
    }
  }

  /** The server a client could stop is the one published last, and the session
      time runs, unless a command has taken it since. */
  lemma {:induction false} ServerExact(acts: seq<Action>, k: int)
    requires Exec(START, acts).Some? && -1 <= k < |acts|
    requires k >= 0 ==> acts[k].Publish? || acts[k].Take?
    requires forall j :: k < j < |acts| ==> !acts[j].Publish? && !acts[j].Take?
    ensures var c := Exec(START, acts).value.ctl;
            && c.streamSrv == (if k >= 0 && acts[k].Publish? then Some(acts[k].i) else None)
            && (c.started <==> k >= 0 && acts[k].Publish?)
    decreases |acts|
  {
    if k < |acts| - 1 {
      ServerExact(acts[..|acts| - 1], k);
    }
  }

  /** The context a command could cancel is the one installed last, unless a
      command has taken it since. */
  lemma {:induction false} CancelExact(acts: seq<Action>, k: int)
    requires Exec(START, acts).Some? && -1 <= k < |acts|
    requires k >= 0 ==> acts[k].Install? || acts[k].Take?
    requires forall j :: k < j < |acts| ==> !acts[j].Install? && !acts[j].Take?
    ensures Exec(START, acts).value.ctl.cancelFn == if k >= 0 && acts[k].Install? then Some(acts[k].i) else None
    decreases |acts|
  {
    if k < |acts| - 1 {
      CancelExact(acts[..|acts| - 1], k);
    }
  }

  predicate EndedOk(s: Sys) {
    forall i :: i in s.ss && s.ss[i].run.RunDone? && !s.ss[i].server.NoServer? ==> s.ss[i].ctx.Cancelled?
  }

  lemma EndedStep(s: Sys, a: Action)
    requires Inv(s) && EndedOk(s) && Apply(s, a).Some?
    ensures EndedOk(Apply(s, a).value)
  {
    var t := Apply(s, a).value;
    if a.StopSrv? && s.ss[a.i].srv.Some? { assert Holds(s, a.i, s.ss[a.i].srv.value); }
    forall i | i in t.ss && t.ss[i].run.RunDone? && !t.ss[i].server.NoServer?
      ensures t.ss[i].ctx.Cancelled?
    {
      if i in s.ss { assert SessionOk(s, i); }
    }
  }

  /** A goroutine that got its server started ends only after its context was
      cancelled. */
  lemma {:induction false} EndsCancelled(acts: seq<Action>)
    requires Exec(START, acts).Some?
    ensures var s := Exec(START, acts).value;
            forall i :: i in s.ss && s.ss[i].run.RunDone? && !s.ss[i].server.NoServer? ==> s.ss[i].ctx.Cancelled?
    decreases |acts|
  {
    if acts != [] {
      var before := acts[..|acts| - 1];
      EndsCancelled(before);
      Safe(before);
      EndedStep(Exec(START, before).value, acts[|acts| - 1]);
    }
  }

  // ------------------------------------------------------- session contexts

  /** Command `j` has taken the cancel function of context `k`, not called. */
  predicate HoldsCtx(s: Sys, j: nat, k: nat) {
    j in s.ss && s.ss[j].cmd.AtCancel? && s.ss[j].cancel == Some(k)
  }

  /** Nobody is left who could ever cancel context `k`. */
  ghost predicate Lost(s: Sys, k: nat) {
    && k in s.ss && s.ss[k].ctx.Uncancelled?
    && s.ctl.cancelFn != Some(k)
    && forall j: nat :: !HoldsCtx(s, j, k)
  }

  predicate BeforeInstall(pc: CmdPc) {
    !pc.AtSpawn? && !pc.CmdDone?
  }

  ghost predicate CtxInv(s: Sys) {
    && (forall i :: i in s.ss && BeforeInstall(s.ss[i].cmd) ==> s.ss[i].ctx.NoCtx?)
    && (s.ctl.cancelFn.Some? ==> s.ctl.cancelFn.value in s.ss && s.ss[s.ctl.cancelFn.value].ctx.Uncancelled?)
    && (forall j: nat, k: nat :: HoldsCtx(s, j, k)
          ==> k in s.ss && s.ss[k].ctx.Uncancelled? && s.ctl.cancelFn != Some(k))
    && (forall j: nat, l: nat, k: nat :: HoldsCtx(s, j, k) && HoldsCtx(s, l, k) ==> j == l)
  }

  lemma CtxTake(s: Sys, i: nat)
    requires CtxInv(s) && Apply(s, Take(i)).Some?
    ensures CtxInv(Apply(s, Take(i)).value)
  {
    var t := Apply(s, Take(i)).value;
    forall j: nat, k: nat ensures HoldsCtx(t, j, k) <==> HoldsCtx(s, j, k) || (j == i && s.ctl.cancelFn == Some(k)) {}
  }

  lemma CtxCancel(s: Sys, i: nat)
    requires CtxInv(s) && Apply(s, Cancel(i)).Some?
    ensures CtxInv(Apply(s, Cancel(i)).value)
  {
    var t := Apply(s, Cancel(i)).value;
    forall j: nat, k: nat ensures HoldsCtx(t, j, k) <==> HoldsCtx(s, j, k) && j != i {}
    if s.ss[i].cancel.Some? { assert HoldsCtx(s, i, s.ss[i].cancel.value); }
  }

  lemma CtxInstall(s: Sys, i: nat)
    requires CtxInv(s) && Apply(s, Install(i)).Some?
    ensures CtxInv(Apply(s, Install(i)).value)
  {
    var t := Apply(s, Install(i)).value;
    forall j: nat, k: nat ensures HoldsCtx(t, j, k) <==> HoldsCtx(s, j, k) {}
  }

  /** Steps that leave contexts and cancel functions alone. */
  lemma CtxKept(s: Sys, t: Sys)
    requires CtxInv(s) && t.ctl.cancelFn == s.ctl.cancelFn && s.ss.Keys <= t.ss.Keys
    requires forall i :: i in s.ss ==> t.ss[i].ctx == s.ss[i].ctx && (t.ss[i].cmd.AtCancel? <==> s.ss[i].cmd.AtCancel?)
    requires forall i :: i in s.ss ==> t.ss[i].cancel == s.ss[i].cancel
    requires forall i :: i in s.ss ==> (BeforeInstall(t.ss[i].cmd) ==> BeforeInstall(s.ss[i].cmd))
    requires forall i :: i in t.ss && i !in s.ss ==> t.ss[i].ctx.NoCtx? && !t.ss[i].cmd.AtCancel?
    ensures CtxInv(t)
  {
    forall j: nat, k: nat ensures HoldsCtx(t, j, k) <==> HoldsCtx(s, j, k) {}
  }

  lemma CtxBegin(s: Sys, i: nat, isStart: bool)
    requires CtxInv(s) && i !in s.ss
    ensures CtxInv(Apply(s, Begin(i, isStart)).value)
  {
    CtxKept(s, Apply(s, Begin(i, isStart)).value);
  }

  lemma CtxStopSrv(s: Sys, i: nat, drained: bool)
    requires CtxInv(s) && Apply(s, StopSrv(i, drained)).Some?
    ensures CtxInv(Apply(s, StopSrv(i, drained)).value)
  {
    CtxKept(s, Apply(s, StopSrv(i, drained)).value);
  }

  lemma CtxOther(s: Sys, a: Action)
    requires CtxInv(s) && Apply(s, a).Some?
    requires !(a.Begin? || a.Take? || a.Cancel? || a.StopSrv? || a.Install?)
    ensures CtxInv(Apply(s, a).value)
  {
    var t := Apply(s, a).value;
    assert t.ss == s.ss[a.i := t.ss[a.i]];
    CtxKept(s, t);
  }

  lemma CtxStep(s: Sys, a: Action)
    requires CtxInv(s) && Apply(s, a).Some?
    ensures CtxInv(Apply(s, a).value)
  {
    match a {
      case Begin(i, isStart) => CtxBegin(s, i, isStart);
      case Take(i) => CtxTake(s, i);
      case Cancel(i) => CtxCancel(s, i);
      case StopSrv(i, drained) => CtxStopSrv(s, i, drained);
      case Install(i) => CtxInstall(s, i);
      case _ => CtxOther(s, a);
    }
  }

  lemma LossTake(s: Sys, i: nat, k: nat)
    requires CtxInv(s) && Apply(s, Take(i)).Some?
    ensures Lost(Apply(s, Take(i)).value, k) <==> Lost(s, k)
  {
    var t := Apply(s, Take(i)).value;
    forall j: nat ensures HoldsCtx(t, j, k) <==> HoldsCtx(s, j, k) || (j == i && s.ctl.cancelFn == Some(k)) {}
    if s.ctl.cancelFn == Some(k) { assert HoldsCtx(t, i, k); }
  }

  lemma LossCancel(s: Sys, i: nat, k: nat)
    requires CtxInv(s) && Apply(s, Cancel(i)).Some?
    ensures Lost(Apply(s, Cancel(i)).value, k) <==> Lost(s, k)
  {
    var t := Apply(s, Cancel(i)).value;
    forall j: nat ensures HoldsCtx(t, j, k) <==> HoldsCtx(s, j, k) && j != i {}
    if s.ss[i].cancel.Some? { assert HoldsCtx(s, i, s.ss[i].cancel.value); }
  }

  lemma LossInstall(s: Sys, i: nat, k: nat)
    requires CtxInv(s) && Apply(s, Install(i)).Some?
    ensures Lost(Apply(s, Install(i)).value, k) <==> Lost(s, k) || s.ctl.cancelFn == Some(k)
  {
    var t := Apply(s, Install(i)).value;
    forall j: nat ensures HoldsCtx(t, j, k) <==> HoldsCtx(s, j, k) {}
  }

  lemma LossKept(s: Sys, t: Sys, k: nat)
    requires t.ctl.cancelFn == s.ctl.cancelFn && s.ss.Keys <= t.ss.Keys
    requires forall i :: i in s.ss ==> t.ss[i].ctx == s.ss[i].ctx && t.ss[i].cancel == s.ss[i].cancel
    requires forall i :: i in s.ss ==> (t.ss[i].cmd.AtCancel? <==> s.ss[i].cmd.AtCancel?)
    requires forall i :: i in t.ss && i !in s.ss ==> t.ss[i].ctx.NoCtx? && !t.ss[i].cmd.AtCancel?
    ensures Lost(t, k) <==> Lost(s, k)
  {
    forall j: nat ensures HoldsCtx(t, j, k) <==> HoldsCtx(s, j, k) {}
  }

  lemma LossStopSrv(s: Sys, i: nat, drained: bool, k: nat)
    requires Apply(s, StopSrv(i, drained)).Some?
    ensures Lost(Apply(s, StopSrv(i, drained)).value, k) <==> Lost(s, k)
  {
    LossKept(s, Apply(s, StopSrv(i, drained)).value, k);
  }

  lemma LossBegin(s: Sys, i: nat, isStart: bool, k: nat)
    requires Apply(s, Begin(i, isStart)).Some?
    ensures Lost(Apply(s, Begin(i, isStart)).value, k) <==> Lost(s, k)
  {
    LossKept(s, Apply(s, Begin(i, isStart)).value, k);
  }

  lemma LossOther(s: Sys, a: Action, k: nat)
    requires CtxInv(s) && Apply(s, a).Some?
    requires !(a.Begin? || a.Take? || a.Cancel? || a.StopSrv? || a.Install?)
    ensures Lost(Apply(s, a).value, k) <==> Lost(s, k)
  {
    var t := Apply(s, a).value;
    assert t.ss == s.ss[a.i := t.ss[a.i]];
    LossKept(s, t, k);
  }

  /** What one step does to a context: only an installation that finds its
      cancel function still in place loses it. Once lost it stays lost. */
  lemma LossStep(s: Sys, a: Action, k: nat)
    requires CtxInv(s) && Apply(s, a).Some?
    ensures Lost(Apply(s, a).value, k) <==> Lost(s, k) || (a.Install? && s.ctl.cancelFn == Some(k))
  {
    match a {
      case Take(i) => LossTake(s, i, k);
      case Cancel(i) => LossCancel(s, i, k);
      case Install(i) => LossInstall(s, i, k);
      case StopSrv(i, drained) => LossStopSrv(s, i, drained, k);
      case Begin(i, isStart) => LossBegin(s, i, isStart, k);
      case _ => LossOther(s, a, k);
    }
  }

  lemma {:induction false} CtxSafe(acts: seq<Action>)
    requires Exec(START, acts).Some?
    ensures CtxInv(Exec(START, acts).value)
    decreases |acts|
  {
    if acts != [] {
      var before := acts[..|acts| - 1];
      CtxSafe(before);
      CtxStep(Exec(START, before).value, acts[|acts| - 1]);
    }
  }

  /** Step `j` of a run installs a cancel function over the one of context `k`. */
  predicate Overwrites(acts: seq<Action>, j: nat, k: nat) {
    && j < |acts| && acts[j].Install?
    && Exec(START, acts[..j]).Some? && Exec(START, acts[..j]).value.ctl.cancelFn == Some(k)
  }

  /** Exactly when a whole run, interleaved in any way, has lost a context: when
      some installation in it found that context's cancel function in place. */
  lemma {:induction false} LossExact(acts: seq<Action>, k: nat)
    requires Exec(START, acts).Some?
    ensures Lost(Exec(START, acts).value, k) <==> exists j: nat :: Overwrites(acts, j, k)
    decreases |acts|
  {
    if acts != [] {
      var n := |acts| - 1;
      var before := acts[..n];
      LossExact(before, k);
      CtxSafe(before);
      LossStep(Exec(START, before).value, acts[n], k);
      forall j: nat | j < n ensures Overwrites(acts, j, k) <==> Overwrites(before, j, k) {
        assert before[..j] == acts[..j];
      }
      assert Overwrites(acts, n, k) <==> acts[n].Install? && Exec(START, before).value.ctl.cancelFn == Some(k);
    }
  }

  /** One more step at the end of a run. */
  lemma Extend(acts: seq<Action>, s: Sys, a: Action) returns (more: seq<Action>, t: Sys)
    requires Exec(START, acts) == Some(s) && Apply(s, a).Some?
    ensures more == acts + [a] && t == Apply(s, a).value && Exec(START, more) == Some(t)
  {
    more, t := acts + [a], Apply(s, a).value;
    assert more[..|more| - 1] == acts;
  }

  /** A start command, alone for a while, finds nothing to stop... */
  lemma UpToStop(acts: seq<Action>, s: Sys, i: nat) returns (more: seq<Action>, t: Sys)
    requires Exec(START, acts) == Some(s) && i !in s.ss && s.ctl.cancelFn == None && s.ctl.streamSrv == None
    ensures Exec(START, more) == Some(t)
    ensures t.ctl.cancelFn == None && t.ctl.streamSrv == None && i in t.ss && t.ss == s.ss[i := t.ss[i]]
    ensures t.ss[i].cmd.AtStopSrv? && t.ss[i].srv == None && t.ss[i].isStart
  {
    more, t := Extend(acts, s, Begin(i, true));
    more, t := Extend(more, t, Take(i));
    more, t := Extend(more, t, Cancel(i));
  }

  /** ...and gets as far as its installation. */
  lemma UpToInstall(acts: seq<Action>, s: Sys, i: nat) returns (more: seq<Action>, t: Sys)
    requires Exec(START, acts) == Some(s) && i !in s.ss && s.ctl.cancelFn == None && s.ctl.streamSrv == None
    ensures Exec(START, more) == Some(t)
    ensures t.ctl.cancelFn == None && t.ctl.streamSrv == None
    ensures i in t.ss && t.ss[i].cmd.AtInstall? && t.ss == s.ss[i := t.ss[i]]
  {
    more, t := UpToStop(acts, s, i);
    more, t := Extend(more, t, StopSrv(i, true));
    more, t := Extend(more, t, SetIdle(i));
    more, t := Extend(more, t, Wifi(i, true));
  }

  lemma OverlapRun() returns (acts: seq<Action>, s: Sys)
    ensures Exec(START, acts) == Some(s)
    ensures Lost(s, 0) && s.ctl.cancelFn == Some(1)
  {
    acts, s := UpToInstall([], START, 0);
    acts, s := UpToInstall(acts, s, 1);
    acts, s := Extend(acts, s, Install(0));
    acts, s := Extend(acts, s, Install(1));
  }

  /** Two start commands that overlap do lose a context: the second installs
      over the first, whose goroutine then waits for ever. */
  lemma OverlappingStarts()
    ensures exists acts :: Exec(START, acts).Some? && Lost(Exec(START, acts).value, 0)
                           && Exec(START, acts).value.ctl.cancelFn == Some(1)
  {
    var acts, s := OverlapRun();
  }

  // ------------------------------------------------------ serialised commands

  predicate AllDone(s: Sys) {
    forall i :: i in s.ss ==> s.ss[i].cmd.CmdDone?
  }

  /** A run in which a command begins only when every earlier one is done;
      the spawned goroutines still interleave freely. */
  function ExecSerial(s: Sys, acts: seq<Action>): Option<Sys>
    decreases |acts|
  {
    if acts == [] then Some(s)
    else
      match ExecSerial(s, acts[..|acts| - 1])
      case None => None
      case Some(t) => if acts[|acts| - 1].Begin? && !AllDone(t) then None else Apply(t, acts[|acts| - 1])
  }

  predicate OneAtATime(s: Sys) {
    && (forall i :: i in s.ss && !s.ss[i].cmd.CmdDone? ==> s.last == Some(i))
    && (forall i :: i in s.ss && BeforeInstall(s.ss[i].cmd) && !s.ss[i].cmd.AtTake? ==> s.ctl.cancelFn == None)
  }

  /** The command under way is the last one begun; from its take until its
      installation the cancel function is absent; nothing is ever lost. */
  ghost predicate SerialInv(s: Sys) {
    CtxInv(s) && OneAtATime(s) && forall k: nat :: !Lost(s, k)
  }

  lemma OrderStep(s: Sys, a: Action)
    requires OneAtATime(s) && Apply(s, a).Some? && (a.Begin? ==> AllDone(s))
    ensures OneAtATime(Apply(s, a).value)
    ensures a.Install? ==> s.ctl.cancelFn == None
  {
    var t := Apply(s, a).value;
    match a {
      case Cancel(i) =>
        forall k | k in s.ss && k != i ensures t.ss[k].cmd == s.ss[k].cmd {}
      case StopSrv(i, _) =>
        forall k | k in s.ss && k != i ensures t.ss[k].cmd == s.ss[k].cmd {}
      case _ =>
        assert t.ss == s.ss[a.i := t.ss[a.i]];
    }
  }

  lemma SerialStep(s: Sys, a: Action)
    requires SerialInv(s) && Apply(s, a).Some? && (a.Begin? ==> AllDone(s))
    ensures SerialInv(Apply(s, a).value)
  {
    CtxStep(s, a);
    OrderStep(s, a);
    forall k: nat ensures !Lost(Apply(s, a).value, k) { LossStep(s, a, k); }
  }

  lemma {:induction false} SerialSafe(acts: seq<Action>)
    requires ExecSerial(START, acts).Some?
    ensures SerialInv(ExecSerial(START, acts).value) && Inv(ExecSerial(START, acts).value)
    decreases |acts|
  {
    if acts != [] {
      var before := acts[..|acts| - 1];
      SerialSafe(before);
      SerialStep(ExecSerial(START, before).value, acts[|acts| - 1]);
      InvStep(ExecSerial(START, before).value, acts[|acts| - 1]);
    }
  }

  /** Between serialised commands, the uncancelled context, if there is one,
      is the one the controller can cancel, and nothing else is uncancelled. */
  lemma ContextBetweenCommands(acts: seq<Action>)
    requires ExecSerial(START, acts).Some? && AllDone(ExecSerial(START, acts).value)
    ensures var s := ExecSerial(START, acts).value;
            forall k :: k in s.ss ==> (s.ss[k].ctx.Uncancelled? <==> s.ctl.cancelFn == Some(k))
  {
    SerialSafe(acts);
    var s := ExecSerial(START, acts).value;
    forall k | k in s.ss && s.ss[k].ctx.Uncancelled?
      ensures s.ctl.cancelFn == Some(k)
    {
      assert !Lost(s, k);
    }
  }

  // ------------------------------------------------------- what a stop ends

  /** What a stop is for. */
  predicate Ended(s: Sys) {
    s.ctl.state.Idle? && !s.ctl.started && forall i :: i in s.ss ==> !s.ss[i].server.Listening?
  }

  predicate NoBegin(acts: seq<Action>) {
    forall a :: a in acts ==> !a.Begin?
  }

  /** From `s` on, whatever the goroutines do, once stop `j` is done and until
      another command begins the session has ended. */
  ghost predicate Conclusive(s: Sys, j: nat) {
    forall acts: seq<Action> :: NoBegin(acts) && Exec(s, acts).Some?
      ==> var t := Exec(s, acts).value; j in t.ss && t.ss[j].cmd.CmdDone? ==> Ended(t)
  }

  /** A serialised stop that is about to take the session. */
  ghost predicate AboutToStop(s: Sys, j: nat) {
    && Inv(s) && j in s.ss && s.ss[j].cmd.AtTake? && !s.ss[j].isStart
    && forall i :: i in s.ss && i != j ==> s.ss[i].cmd.CmdDone?
  }

  /** Stop `j` is the only command under way and no goroutine is in flight. */
  predicate QuietSoFar(s: Sys, j: nat) {
    && j in s.ss && !s.ss[j].isStart && NoneInFlight(s)
    && (forall i :: i in s.ss && i != j ==> s.ss[i].cmd.CmdDone?)
    && (|| s.ss[j].cmd.AtTake? || s.ss[j].cmd.AtCancel? || s.ss[j].cmd.AtStopSrv?
        || s.ss[j].cmd.AtIdle? || s.ss[j].cmd.CmdDone?)
    && (!s.ss[j].cmd.AtTake? ==> s.ctl.streamSrv == None && !s.ctl.started)
    && (s.ss[j].cmd.CmdDone? ==> s.ctl.state.Idle?)
  }

  ghost predicate QuietStop(s: Sys, j: nat) {
    Inv(s) && QuietSoFar(s, j)
  }

  lemma QuietLocal(s: Sys, j: nat, a: Action)
    requires QuietSoFar(s, j) && Apply(s, a).Some? && !a.Begin?
    requires !s.ss[j].cmd.CmdDone? ==> s.ss[j].run.NotSpawned?
    ensures QuietSoFar(Apply(s, a).value, j)
  {
    var t := Apply(s, a).value;
    if a.Cancel? || a.StopSrv? {
      forall i | i in s.ss ensures t.ss[i].run == s.ss[i].run && (i != a.i ==> t.ss[i].cmd == s.ss[i].cmd) {}
    } else {
      assert t.ss == s.ss[a.i := t.ss[a.i]];
    }
  }

  lemma QuietStep(s: Sys, j: nat, a: Action)
    requires QuietStop(s, j) && Apply(s, a).Some? && !a.Begin?
    ensures QuietStop(Apply(s, a).value, j)
  {
    InvStep(s, a);
    assert SessionOk(s, j);
    QuietLocal(s, j, a);
  }

  lemma {:induction false} QuietRun(s: Sys, j: nat, acts: seq<Action>)
    requires QuietStop(s, j) && Exec(s, acts).Some?
    requires NoBegin(acts)
    ensures QuietStop(Exec(s, acts).value, j)
    decreases |acts|
  {
    if acts != [] {
      var before, a := acts[..|acts| - 1], acts[|acts| - 1];
      QuietRun(s, j, before);
      QuietStep(Exec(s, before).value, j, a);
    }
  }

  lemma QuietEnds(s: Sys, j: nat)
    requires QuietStop(s, j) && s.ss[j].cmd.CmdDone?
    ensures Ended(s)
  {
    forall i | i in s.ss ensures !s.ss[i].server.Listening? {
      assert s.ss[i].server.Listening? ==> Owned(s, i);
      assert forall k: nat :: !Holds(s, k, i);
    }
  }

  /** The same goroutines stand at the same points. */
  predicate SameRuns(s: Sys, t: Sys) {
    s.ss.Keys <= t.ss.Keys && forall i :: i in s.ss ==> t.ss[i].run == s.ss[i].run
  }

  lemma StopActs(s: Sys, a: Action)
    requires Apply(s, a).Some? && (a.Take? || a.Cancel? || a.StopSrv? || a.SetIdle?)
    ensures var t := Apply(s, a).value;
            && SameRuns(s, t) && t.ss[a.i].isStart == s.ss[a.i].isStart
            && t.ss[a.i].cmd == (if a.Take? then AtCancel
                                 else if a.Cancel? then AtStopSrv
                                 else if a.StopSrv? then AtIdle
                                 else if s.ss[a.i].isStart then AtWifi else CmdDone)
  {
  }

  lemma More(s: Sys, acts: seq<Action>, t: Sys, a: Action) returns (more: seq<Action>, u: Sys)
    requires Exec(s, acts) == Some(t) && Apply(t, a).Some? && !a.Begin?
    requires NoBegin(acts)
    ensures u == Apply(t, a).value && Exec(s, more) == Some(u) && NoBegin(more)
  {
    more, u := acts + [a], Apply(t, a).value;
    assert more[..|more| - 1] == acts;
  }

  /** The stop runs to its end undisturbed. */
  lemma StopRuns(s: Sys, j: nat) returns (acts: seq<Action>, t: Sys)
    requires AboutToStop(s, j)
    ensures Exec(s, acts) == Some(t) && NoBegin(acts)
    ensures j in t.ss && t.ss[j].cmd.CmdDone? && SameRuns(s, t)
  {
    StopActs(s, Take(j));
    var a1, s1 := More(s, [], s, Take(j));
    StopActs(s1, Cancel(j));
    var a2, s2 := More(s, a1, s1, Cancel(j));
    StopActs(s2, StopSrv(j, true));
    var a3, s3 := More(s, a2, s2, StopSrv(j, true));
    StopActs(s3, SetIdle(j));
    acts, t := More(s, a3, s3, SetIdle(j));
  }

  function LastAction(s: Sys, r: nat): Action
    requires r in s.ss
  {
    if s.ss[r].run.AtErr? then RunErr(r) else if s.ss[r].run.AtPublish? then Publish(r) else SetStreaming(r)
  }

  /** The last update of a goroutine always leaves a session visible. */
  lemma LastUpdate(s: Sys, r: nat)
    requires r in s.ss && (s.ss[r].run.AtErr? || s.ss[r].run.AtPublish? || s.ss[r].run.AtStreaming?)
    ensures Apply(s, LastAction(s, r)).Some?
    ensures var t := Apply(s, LastAction(s, r)).value;
            && t.ss.Keys == s.ss.Keys && (forall i :: i in s.ss ==> t.ss[i].cmd == s.ss[i].cmd)
            && !Ended(t)
            && (s.ss[r].run.AtPublish? ==> t.ctl.streamSrv == Some(r) && t.ctl.started)
  {
  }

  /** A goroutine whose network or listener fails reaches its last update. */
  lemma ToLastUpdate(s: Sys, acts: seq<Action>, t: Sys, r: nat) returns (more: seq<Action>, u: Sys)
    requires Exec(s, acts) == Some(t) && NoBegin(acts) && r in t.ss && InFlight(t.ss[r].run)
    ensures Exec(s, more) == Some(u) && NoBegin(more)
    ensures u.ss.Keys == t.ss.Keys && forall i :: i in t.ss ==> u.ss[i].cmd == t.ss[i].cmd
    ensures u.ss[r].run.AtErr? || u.ss[r].run.AtPublish? || u.ss[r].run.AtStreaming?
    ensures t.ss[r].run.AtPublish? ==> u.ss[r].run.AtPublish?
  {
    more, u := acts, t;
    if u.ss[r].run.AtEntry? { more, u := More(s, more, u, RunWifi(r, false)); }
    if u.ss[r].run.AtListen? { more, u := More(s, more, u, Listen(r, false)); }
  }

  /** A goroutine in flight can still undo the stop afterwards. */
  lemma OvertakenStop(s: Sys, j: nat, r: nat) returns (acts: seq<Action>, t: Sys)
    requires AboutToStop(s, j) && r in s.ss && InFlight(s.ss[r].run)
    ensures Exec(s, acts) == Some(t) && NoBegin(acts)
    ensures j in t.ss && t.ss[j].cmd.CmdDone? && !Ended(t)
    ensures s.ss[r].run.AtPublish? ==> t.ctl.streamSrv == Some(r) && t.ctl.started
  {
    assert SessionOk(s, r) && SessionOk(s, j);
    var stop, u := StopRuns(s, j);
    var from, v := ToLastUpdate(s, stop, u, r);
    LastUpdate(v, r);
    acts, t := More(s, from, v, LastAction(v, r));
  }

  /** Exactly when a stop can be relied on: no goroutine is between its entry
      and its last state update at the moment the stop takes the session. */
  lemma StopExact(s: Sys, j: nat)
    requires AboutToStop(s, j)
    ensures Conclusive(s, j) <==> NoneInFlight(s)
  {
    if NoneInFlight(s) {
      forall acts | NoBegin(acts) && Exec(s, acts).Some?
        ensures var t := Exec(s, acts).value; j in t.ss && t.ss[j].cmd.CmdDone? ==> Ended(t)
      {
        QuietRun(s, j, acts);
        var t := Exec(s, acts).value;
        if t.ss[j].cmd.CmdDone? { QuietEnds(t, j); }
      }
    } else {
      var r :| r in s.ss && InFlight(s.ss[r].run);
      var acts, t := OvertakenStop(s, j, r);
      assert !Conclusive(s, j);
    }
  }

  /** A stop that cannot be relied on does occur: one that begins as soon as the
      start command before it has returned. */
  lemma UnreliableStop()
    ensures exists acts :: Exec(START, acts).Some? && AboutToStop(Exec(START, acts).value, 1)
                           && !Conclusive(Exec(START, acts).value, 1)
  {
    var acts, s := UpToInstall([], START, 0);
    acts, s := Extend(acts, s, Install(0));
    acts, s := Extend(acts, s, Spawn(0));
    assert InFlight(s.ss[0].run) && s.ss.Keys == {0};
    var more, t := Extend(acts, s, Begin(1, false));
    Safe(more);
    assert t.ss[0] == s.ss[0];
    StopExact(t, 1);
  }
}
