/** HTTP handlers that share one encoder slot. Every lock acquisition, Stop,
    Wait, Start and lock release is a step of its own, in any order. Handler
    and encoder share one number, since every handler gets a fresh encoder. */
module Handlers {
  import opened Bytes

  /** `Stopping`: asked to stop and still running. `Hung`: a Cedar encoder whose
      start failed; its done channel is open and nobody will ever close it. */
  datatype Enc = Unstarted | Running | Stopping | Exited | Hung

  datatype Pc =
    | Resolved                  // encoder in hand, slot lock wanted
    | Inspecting                // holds the lock
    | WaitingFor(prev: nat)     // holds the lock, previous encoder told to stop
    | Installing                // holds the lock, slot empty
    | Registered                // slot taken, lock free
    | StartFailed
    | Serving                   // started, waiting for the client or the encoder
    | Draining                  // client gone, encoder told to stop
    | Cleaning
    | Returned

  datatype Handler = Handler(sdp: bool, pc: Pc, enc: Enc)

  datatype Holder = ByHandler(h: nat) | ByServer

  /** The server's own `Stop`, between runs of it, or while holding the lock. */
  datatype ServerPc = Off | Stopped(prev: nat)

  datatype Sys = Sys(active: Option<nat>, mu: Option<Holder>, server: ServerPc, hs: map<nat, Handler>)

  const START: Sys := Sys(None, None, Off, map[])

  datatype Action =
    | Arrive(h: nat, sdp: bool)
    | Lock(h: nat) | Inspect(h: nat) | Waited(h: nat) | Install(h: nat)
    | StartOk(h: nat) | StartFail(h: nat, hangs: bool) | Unregister(h: nat)
    | ClientGone(h: nat) | EncoderDone(h: nat) | Drained(h: nat) | Cleanup(h: nat)
    | Exit(h: nat)
    | ServerLock | ServerWaited

  /** `encoder.Stop()`: no effect on an encoder that does not run. */
  function StopEnc(e: Enc): Enc { if e.Running? then Stopping else e }

  /** `encoder.Wait()` returns: it was never started, or it has exited. */
  predicate Quiet(e: Enc) { e.Unstarted? || e.Exited? }

  /** The slot after an encoder gives it up; another's registration stays. */
  function Emptied(active: Option<nat>, h: nat): Option<nat> { if active == Some(h) then None else active }

  function Put(s: Sys, h: nat, x: Handler): Sys { s.(hs := s.hs[h := x]) }

  function Apply(s: Sys, a: Action): Option<Sys> {
    if a.ServerLock? then
      if s.mu.Some? || !s.server.Off? then None
      else if s.active.None? || s.active.value !in s.hs then Some(s.(active := None))
      else
        var p := s.active.value;
        Some(Put(s, p, s.hs[p].(enc := StopEnc(s.hs[p].enc))).(mu := Some(ByServer), server := Stopped(p)))
    else if a.ServerWaited? then
      if !s.server.Stopped? || s.server.prev !in s.hs || !Quiet(s.hs[s.server.prev].enc) then None
      else Some(s.(active := None, mu := None, server := Off))
    else if a.Arrive? then
      if a.h in s.hs then None else Some(Put(s, a.h, Handler(a.sdp, Resolved, Unstarted)))
    else if a.h !in s.hs then None
    else
      var x := s.hs[a.h];
      match a
      case Lock(h) =>
        if !x.pc.Resolved? || s.mu.Some? then None
        else Some(Put(s, h, x.(pc := Inspecting)).(mu := Some(ByHandler(h))))
      case Inspect(h) =>
        if !x.pc.Inspecting? then None
        else if s.active.None? || s.active.value !in s.hs || s.active.value == h
        then Some(Put(s, h, x.(pc := Installing)).(active := None))
        else
          var p := s.active.value;
          Some(Put(Put(s, p, s.hs[p].(enc := StopEnc(s.hs[p].enc))), h, x.(pc := WaitingFor(p))))
      case Waited(h) =>
        if !x.pc.WaitingFor? || x.pc.prev !in s.hs || !Quiet(s.hs[x.pc.prev].enc) then None
        else Some(Put(s, h, x.(pc := Installing)).(active := None))
      case Install(h) =>
        if !x.pc.Installing? then None
        else Some(Put(s, h, x.(pc := Registered)).(active := Some(h), mu := None))
      case StartOk(h) =>
        if !x.pc.Registered? then None
        else Some(Put(s, h, x.(pc := if x.sdp then Returned else Serving, enc := Running)))
      case StartFail(h, hangs) =>
        if !x.pc.Registered? then None
        else Some(Put(s, h, x.(pc := StartFailed, enc := if hangs then Hung else x.enc)))
      case Unregister(h) =>
        if !x.pc.StartFailed? || s.mu.Some? then None
        else Some(Put(s, h, x.(pc := Returned)).(active := Emptied(s.active, h)))
      case ClientGone(h) =>
        if !x.pc.Serving? then None else Some(Put(s, h, x.(pc := Draining, enc := StopEnc(x.enc))))
      case EncoderDone(h) =>
        if !x.pc.Serving? || !Quiet(x.enc) then None else Some(Put(s, h, x.(pc := Cleaning)))
      case Drained(h) =>
        if !x.pc.Draining? || !Quiet(x.enc) then None else Some(Put(s, h, x.(pc := Cleaning)))
      case Cleanup(h) =>
        if !x.pc.Cleaning? || s.mu.Some? then None
        else Some(Put(s, h, x.(pc := Returned, enc := if s.active == Some(h) then StopEnc(x.enc) else x.enc))
                  .(active := Emptied(s.active, h)))
      case Exit(h) =>
        if !x.enc.Running? && !x.enc.Stopping? then None else Some(Put(s, h, x.(enc := Exited)))
  }

  function Exec(s: Sys, acts: seq<Action>): Option<Sys>
    decreases |acts|
  {
    if acts == [] then Some(s)
    else
      match Exec(s, acts[..|acts| - 1])
      case None => None
      case Some(t) => Apply(t, acts[|acts| - 1])
  }

  // ------------------------------------------------------------ the invariant

  predicate HoldsLock(pc: Pc) { pc.Inspecting? || pc.WaitingFor? || pc.Installing? }

  predicate Alive(e: Enc) { e.Running? || e.Stopping? }

  predicate Started(e: Enc) { Alive(e) || e.Exited? }

  predicate Early(pc: Pc) { pc.Resolved? || HoldsLock(pc) }

  /** One handler's own facts. */
  predicate HandlerOk(s: Sys, h: nat)
    requires h in s.hs
  {
    var x := s.hs[h];
    && (HoldsLock(x.pc) <==> s.mu == Some(ByHandler(h)))
    && (x.pc.WaitingFor? ==> s.active == Some(x.pc.prev) && x.pc.prev in s.hs && x.pc.prev != h)
    && (x.pc.Installing? ==> s.active == None)
    && (Early(x.pc) || x.pc.Registered? ==> x.enc.Unstarted?)
    && (x.pc.StartFailed? ==> x.enc.Unstarted? || x.enc.Hung?)
    && (x.pc.Serving? || x.pc.Draining? || x.pc.Cleaning? ==> !x.sdp && Started(x.enc))
    && (x.pc.Draining? ==> !x.enc.Running?)
    && (x.pc.Cleaning? ==> x.enc.Exited?)
    && (x.pc.Returned? && !x.sdp ==> !Alive(x.enc))
    && (s.active == Some(h) ==> !Early(x.pc) && (x.pc.Returned? ==> x.sdp && Started(x.enc)))
  }

  ghost predicate Inv(s: Sys) {
    && (forall h :: h in s.hs ==> HandlerOk(s, h))
    && (s.active.Some? ==> s.active.value in s.hs)
    && (s.mu == Some(ByServer) <==> s.server.Stopped?)
    && (s.server.Stopped? ==> s.active == Some(s.server.prev) && s.server.prev in s.hs)
    && (s.mu.Some? && s.mu.value.ByHandler? ==> s.mu.value.h in s.hs)
  }

  /** Steps of handler `h` that touch neither lock, slot nor other handlers. */
  lemma InvLocal(s: Sys, h: nat, y: Handler)
    requires Inv(s) && h in s.hs
    requires var x := s.hs[h];
             && (HoldsLock(y.pc) <==> HoldsLock(x.pc)) && !y.pc.WaitingFor? && !y.pc.Installing?
             && HandlerOk(Put(s, h, y), h)
    ensures Inv(Put(s, h, y))
  {
    var t := Put(s, h, y);
    forall k | k in t.hs ensures HandlerOk(t, k) { assert HandlerOk(s, k); }
  }

  lemma InvArrive(s: Sys, h: nat, sdp: bool)
    requires Inv(s) && h !in s.hs
    ensures Inv(Apply(s, Arrive(h, sdp)).value)
  {
    var t := Apply(s, Arrive(h, sdp)).value;
    forall k | k in t.hs ensures HandlerOk(t, k) {
      if k in s.hs { assert HandlerOk(s, k); }
    }
  }

  /** Steps inside the lock, by the handler that holds it or takes it. */
  lemma InvLocked(s: Sys, a: Action)
    requires Inv(s) && Apply(s, a).Some?
    requires a.Lock? || a.Waited? || a.Install?
    ensures Inv(Apply(s, a).value)
  {
    var t := Apply(s, a).value;
    assert HandlerOk(s, a.h);
    if a.Waited? { assert HandlerOk(s, s.hs[a.h].pc.prev); }
    forall k | k in t.hs ensures HandlerOk(t, k) { assert HandlerOk(s, k); }
  }

  lemma InvInspect(s: Sys, h: nat)
    requires Inv(s) && Apply(s, Inspect(h)).Some?
    ensures Inv(Apply(s, Inspect(h)).value)
  {
    var t := Apply(s, Inspect(h)).value;
    assert HandlerOk(s, h);
    forall k | k in t.hs ensures HandlerOk(t, k) { assert HandlerOk(s, k); }
  }

  /** Short lock regions: give the slot up if it is one's own. */
  lemma InvRelease(s: Sys, a: Action)
    requires Inv(s) && Apply(s, a).Some?
    requires a.Unregister? || a.Cleanup?
    ensures Inv(Apply(s, a).value)
  {
    var t := Apply(s, a).value;
    forall k | k in t.hs ensures HandlerOk(t, k) { assert HandlerOk(s, k); }
  }

  lemma InvServer(s: Sys, a: Action)
    requires Inv(s) && Apply(s, a).Some?
    requires a.ServerLock? || a.ServerWaited?
    ensures Inv(Apply(s, a).value)
  {
    var t := Apply(s, a).value;
    forall k | k in t.hs ensures HandlerOk(t, k) { assert HandlerOk(s, k); }
  }

  lemma InvStep(s: Sys, a: Action)
    requires Inv(s) && Apply(s, a).Some?
    ensures Inv(Apply(s, a).value)
  {
    match a {
      case Arrive(h, sdp) => InvArrive(s, h, sdp);
      case Inspect(h) => InvInspect(s, h);
      case Lock(_) => InvLocked(s, a);
      case Waited(_) => InvLocked(s, a);
      case Install(_) => InvLocked(s, a);
      case Unregister(_) => InvRelease(s, a);
      case Cleanup(_) => InvRelease(s, a);
      case ServerLock => InvServer(s, a);
      case ServerWaited => InvServer(s, a);
      case _ =>
        assert HandlerOk(s, a.h);
        InvLocal(s, a.h, Apply(s, a).value.hs[a.h]);
    }
  }

  lemma {:induction false} Safe(acts: seq<Action>)
    requires Exec(START, acts).Some?
    ensures Inv(Exec(START, acts).value)
    decreases |acts|
  {
    if acts != [] {
      Safe(acts[..|acts| - 1]);
      InvStep(Exec(START, acts[..|acts| - 1]).value, acts[|acts| - 1]);
    }
  }

  // -------------------------------------------------------------- guarantees

  /** A streaming handler that has returned left nothing behind, after every
      interleaving with other handlers and with the server's own stop. */
  lemma NothingLeftBehind(acts: seq<Action>, h: nat)
    requires Exec(START, acts).Some?
    requires h in Exec(START, acts).value.hs
    requires var x := Exec(START, acts).value.hs[h]; x.pc.Returned? && !x.sdp
    ensures var s := Exec(START, acts).value; !Alive(s.hs[h].enc) && s.active != Some(h)
  {
    Safe(acts);
    assert HandlerOk(Exec(START, acts).value, h);
  }

  /** Whose step an action is; the server's are nobody's. */
  predicate By(a: Action, h: nat) {
    !a.ServerLock? && !a.ServerWaited? && a.h == h
  }

  /** What `h` may do to another handler `k`: only while installing its own
      encoder, and only to the one registered at that moment. Its clean-up
      neither stops nor unregisters anybody else. */
  lemma OthersUntouched(s: Sys, a: Action, h: nat, k: nat)
    requires Inv(s) && Apply(s, a).Some? && By(a, h) && k in s.hs && k != h
    ensures var t := Apply(s, a).value;
            && k in t.hs
            && (t.hs[k] != s.hs[k] ==> a.Inspect? && s.active == Some(k))
            && (s.active == Some(k) ==>
                  t.active == Some(k) || (a.Waited? && s.hs[h].pc == WaitingFor(k) && Quiet(s.hs[k].enc)))
            && (a.Cleanup? || a.Unregister? ==> t.hs[k] == s.hs[k] && (s.active == Some(k) ==> t.active == Some(k)))
  {
    assert h in s.hs ==> HandlerOk(s, h);
  }

  /** `h` has been started and, while its encoder is alive, is in the slot
      exactly when `mine`. */
  predicate Settled(s: Sys, h: nat, mine: bool) {
    h in s.hs && Started(s.hs[h].enc) && (Alive(s.hs[h].enc) ==> (s.active == Some(h) <==> mine))
  }

  lemma SettledStep(s: Sys, a: Action, h: nat, mine: bool)
    requires Inv(s) && Settled(s, h, mine) && Apply(s, a).Some?
    ensures Settled(Apply(s, a).value, h, mine)
  {
    assert HandlerOk(s, h);
    if !a.ServerLock? && !a.ServerWaited? && a.h in s.hs { assert HandlerOk(s, a.h); }
  }

  /** Whether an encoder that started is in the slot never changes while it
      is alive. */
  lemma {:induction false} SettledAfter(acts: seq<Action>, k: nat, h: nat)
    requires Exec(START, acts).Some? && k < |acts| && acts[k] == StartOk(h)
    ensures Exec(START, acts[..k]).Some?
    ensures Settled(Exec(START, acts).value, h, Exec(START, acts[..k]).value.active == Some(h))
    decreases |acts|
  {
    var n := |acts| - 1;
    Safe(acts[..n]);
    if k < n {
      SettledAfter(acts[..n], k, h);
      assert acts[..n][..k] == acts[..k];
      SettledStep(Exec(START, acts[..n]).value, acts[n], h, Exec(START, acts[..k]).value.active == Some(h));
    }
  }

  /** An encoder that is alive was started by a step of the run. */
  lemma {:induction false} StartedOnce(acts: seq<Action>, h: nat)
    requires Exec(START, acts).Some? && h in Exec(START, acts).value.hs
    requires Alive(Exec(START, acts).value.hs[h].enc)
    ensures StartOk(h) in acts
    decreases |acts|
  {
    if acts != [] {
      var n := |acts| - 1;
      var s, a := Exec(START, acts[..n]).value, acts[n];
      if a != StartOk(h) {
        assert h in s.hs && Alive(s.hs[h].enc);
        StartedOnce(acts[..n], h);
      }
    }
  }

  /** A handler that has returned from an encoder still alive served SDP. That
      encoder is out of everybody's reach exactly when another handler, or the
      server's stop, had emptied its place in the slot before it was started:
      at that step of the run, which there always is. */
  lemma OrphanExact(acts: seq<Action>, h: nat)
    requires Exec(START, acts).Some?
    requires h in Exec(START, acts).value.hs && Alive(Exec(START, acts).value.hs[h].enc)
    ensures StartOk(h) in acts
    ensures forall k :: 0 <= k < |acts| && acts[k] == StartOk(h)
              ==> Exec(START, acts[..k]).Some?
                  && (Exec(START, acts).value.active != Some(h) <==> Exec(START, acts[..k]).value.active != Some(h))
    ensures Exec(START, acts).value.hs[h].pc.Returned? ==> Exec(START, acts).value.hs[h].sdp
  {
    Safe(acts);
    assert HandlerOk(Exec(START, acts).value, h);
    StartedOnce(acts, h);
    forall k | 0 <= k < |acts| && acts[k] == StartOk(h)
      ensures Exec(START, acts[..k]).Some?
              && (Exec(START, acts).value.active != Some(h) <==> Exec(START, acts[..k]).value.active != Some(h))
    {
      SettledAfter(acts, k, h);
    }
  }

  lemma Extend(acts: seq<Action>, s: Sys, a: Action) returns (more: seq<Action>, t: Sys)
    requires Exec(START, acts) == Some(s) && Apply(s, a).Some?
    ensures more == acts + [a] && t == Apply(s, a).value && Exec(START, more) == Some(t)
  {
    more, t := acts + [a], Apply(s, a).value;
    assert more[..|more| - 1] == acts;
  }

  /** A handler registers. */
  lemma OneHandler(sdp: bool) returns (acts: seq<Action>, s: Sys)
    ensures Exec(START, acts) == Some(s)
    ensures s == Sys(Some(0), None, Off, map[0 := Handler(sdp, Registered, Unstarted)])
  {
    acts, s := Extend([], START, Arrive(0, sdp));
    acts, s := Extend(acts, s, Lock(0));
    acts, s := Extend(acts, s, Inspect(0));
    acts, s := Extend(acts, s, Install(0));
    assert s.hs == map[0 := Handler(sdp, Registered, Unstarted)];
  }

  /** A second handler arrives and looks. */
  lemma TwoHandlers(sdp: bool) returns (acts: seq<Action>, s: Sys)
    ensures Exec(START, acts) == Some(s)
    ensures s == Sys(Some(0), Some(ByHandler(1)), Off,
                     map[0 := Handler(sdp, Registered, Unstarted), 1 := Handler(false, WaitingFor(0), Unstarted)])
  {
    acts, s := OneHandler(sdp);
    acts, s := Extend(acts, s, Arrive(1, false));
    acts, s := Extend(acts, s, Lock(1));
    acts, s := Extend(acts, s, Inspect(1));
    assert s.hs == map[0 := Handler(sdp, Registered, Unstarted), 1 := Handler(false, WaitingFor(0), Unstarted)];
  }

  predicate Orphaned(s: Sys, h: nat) {
    h in s.hs && s.hs[h].pc.Returned? && s.hs[h].enc.Running? && s.active != Some(h)
  }

  /** Orphans do occur: the second handler installs before the first starts. */
  lemma OrphanReachable()
    ensures exists acts :: Exec(START, acts).Some? && Orphaned(Exec(START, acts).value, 0)
  {
    var acts, s := TwoHandlers(true);
    acts, s := Extend(acts, s, Waited(1));
    acts, s := Extend(acts, s, Install(1));
    acts, s := Extend(acts, s, StartOk(0));
  }

  // --------------------------------------------------- waiting under the lock

  /** Runs in which an encoder exits only after it was told to stop. */
  function ExecObedient(s: Sys, acts: seq<Action>): Option<Sys>
    decreases |acts|
  {
    if acts == [] then Some(s)
    else
      match ExecObedient(s, acts[..|acts| - 1])
      case None => None
      case Some(t) =>
        var a := acts[|acts| - 1];
        if a.Exit? && a.h in t.hs && t.hs[a.h].enc.Running? then None else Apply(t, a)
  }

  /** The encoder that the holder of the lock is waiting for, if it waits. */
  function Awaited(s: Sys, w: Holder): Option<nat> {
    match w
    case ByHandler(h) => if h in s.hs && s.hs[h].pc.WaitingFor? then Some(s.hs[h].pc.prev) else None
    case ByServer => if s.server.Stopped? then Some(s.server.prev) else None
  }

  /** Nobody will close this encoder's done channel: its start failed, or it
      runs, its handler has returned and only the lock's holder could stop it. */
  predicate Blocked(s: Sys, p: nat) {
    p in s.hs && (s.hs[p].enc.Hung? || (s.hs[p].enc.Running? && s.hs[p].pc.Returned?))
  }

  predicate Stuck(s: Sys, w: Holder) {
    Awaited(s, w).Some? && Blocked(s, Awaited(s, w).value)
  }

  lemma StuckStep(s: Sys, w: Holder, a: Action)
    requires Inv(s) && Stuck(s, w) && Apply(s, a).Some?
    requires a.Exit? ==> !(a.h in s.hs && s.hs[a.h].enc.Running?)
    ensures Stuck(Apply(s, a).value, w) && s.mu == Apply(s, a).value.mu == Some(w)
  {
    var p := Awaited(s, w).value;
    assert HandlerOk(s, p);
    if w.ByHandler? { assert HandlerOk(s, w.h); }
    if !a.ServerLock? && !a.ServerWaited? && a.h in s.hs { assert HandlerOk(s, a.h); }
  }

  /** Once stuck, for ever stuck, with the lock in hand, unless an encoder
      exits unasked: no handler registers, unregisters or cleans up any more,
      and the server never stops. */
  lemma {:induction false} StuckForever(s: Sys, w: Holder, acts: seq<Action>)
    requires Inv(s) && Stuck(s, w) && ExecObedient(s, acts).Some?
    ensures var t := ExecObedient(s, acts).value; Inv(t) && Stuck(t, w) && t.mu == Some(w)
    decreases |acts|
  {
    if acts == [] {
      if w.ByHandler? { assert HandlerOk(s, w.h); }
    } else {
      StuckForever(s, w, acts[..|acts| - 1]);
      var t := ExecObedient(s, acts[..|acts| - 1]).value;
      StuckStep(t, w, acts[|acts| - 1]);
      InvStep(t, acts[|acts| - 1]);
    }
  }

  /** The wait is over. */
  predicate Through(s: Sys, w: Holder) {
    match w
    case ByHandler(h) => h in s.hs && s.hs[h].pc.Installing?
    case ByServer => s.server.Off?
  }

  /** The waiting handler can still empty the slot, the server still stop. */
  ghost predicate CanProceed(s: Sys, w: Holder) {
    exists acts :: ExecObedient(s, acts).Some? && Through(ExecObedient(s, acts).value, w)
  }

  lemma More(s: Sys, acts: seq<Action>, t: Sys, a: Action) returns (more: seq<Action>, u: Sys)
    requires ExecObedient(s, acts) == Some(t) && Apply(t, a).Some?
    requires a.Exit? ==> !(a.h in t.hs && t.hs[a.h].enc.Running?)
    ensures u == Apply(t, a).value && ExecObedient(s, more) == Some(u) && more == acts + [a]
  {
    more, u := acts + [a], Apply(t, a).value;
    assert more[..|more| - 1] == acts;
  }

  /** An encoder that is waited for and not blocked comes to rest: a streaming
      one stops when its client leaves, and a stopping one exits. */
  lemma ComesToRest(s: Sys, p: nat) returns (acts: seq<Action>, t: Sys)
    requires p in s.hs && HandlerOk(s, p) && !Blocked(s, p)
    ensures ExecObedient(s, acts) == Some(t) && p in t.hs && Quiet(t.hs[p].enc)
    ensures t == Put(s, p, t.hs[p]) && (t.hs[p].pc == s.hs[p].pc || s.hs[p].pc.Serving?)
  {
    acts, t := [], s;
    if t.hs[p].enc.Running? { acts, t := More(s, acts, t, ClientGone(p)); }
    if t.hs[p].enc.Stopping? { acts, t := More(s, acts, t, Exit(p)); }
  }

  /** The step that ends the wait. */
  function Proceed(w: Holder): Action { if w.ByHandler? then Waited(w.h) else ServerWaited }

  /** Unless it is stuck, the waiter proceeds. */
  lemma WaitEnds(s: Sys, w: Holder)
    requires Inv(s) && Awaited(s, w).Some? && !Stuck(s, w)
    ensures CanProceed(s, w)
  {
    var p := Awaited(s, w).value;
    if w.ByHandler? { assert HandlerOk(s, w.h); }
    var acts, t := ComesToRest(s, p);
    acts, t := More(s, acts, t, Proceed(w));
  }

  /** Exactly when an installation, or the server's stop, cannot get through at
      all: when the encoder waited for failed to start, or was started after it
      was told to stop by a handler that has returned. */
  lemma WaitExact(s: Sys, w: Holder)
    requires Inv(s) && Awaited(s, w).Some?
    ensures CanProceed(s, w) <==> !Stuck(s, w)
  {
    if Stuck(s, w) {
      forall acts | ExecObedient(s, acts).Some?
        ensures !Through(ExecObedient(s, acts).value, w)
      {
        StuckForever(s, w, acts);
      }
    } else {
      WaitEnds(s, w);
    }
  }

  // ------------------------------------------------- what a wait begins with

  /** Everything that ever happens to an encoder: it is started by its handler,
      told to stop by its own client's leaving or by whoever finds it in the
      slot, and exits by itself. */
  lemma EncoderExact(s: Sys, a: Action, p: nat)
    requires Inv(s) && Apply(s, a).Some? && p in s.hs
    ensures p in Apply(s, a).value.hs
    ensures var e, f := s.hs[p].enc, Apply(s, a).value.hs[p].enc;
            f == if a == StartOk(p) then Running
                 else if a == StartFail(p, true) then Hung
                 else if a == Exit(p) then Exited
                 else if e == Running && (a == ClientGone(p) || ((a.Inspect? || a.ServerLock?) && s.active == Some(p)))
                 then Stopping
                 else e
  {
    assert HandlerOk(s, p);
    if !a.ServerLock? && !a.ServerWaited? && a.h in s.hs { assert HandlerOk(s, a.h); }
  }

  /** Whoever begins to wait has just told the registered encoder to stop. */
  lemma WaitBegins(s: Sys, w: Holder, a: Action)
    requires Inv(s) && Apply(s, a).Some?
    requires Awaited(s, w).None? && Awaited(Apply(s, a).value, w).Some?
    ensures var t, p := Apply(s, a).value, Awaited(Apply(s, a).value, w).value;
            && (a == if w.ByHandler? then Inspect(w.h) else ServerLock)
            && s.active == Some(p) && p in s.hs && p in t.hs
            && t.hs[p] == s.hs[p].(enc := if s.hs[p].enc.Running? then Stopping else s.hs[p].enc)
  {
    if w.ByHandler? && w.h in s.hs { assert HandlerOk(s, w.h); }
    if !a.ServerLock? && !a.ServerWaited? && a.h in s.hs { assert HandlerOk(s, a.h); }
  }

  /** Handler `p` was started in `acts`, and nothing has ended its encoder. */
  predicate StartedIn(acts: seq<Action>, p: nat) {
    StartOk(p) in acts && ClientGone(p) !in acts && Exit(p) !in acts
  }

  /** How `p` stands when `acts` have happened during a wait for it. */
  predicate Since(t: Sys, w: Holder, p: nat, acts: seq<Action>) {
    && Awaited(t, w) == Some(p) && p in t.hs
    && (t.hs[p].enc.Running? <==> StartedIn(acts, p))
    && (StartOk(p) in acts || ClientGone(p) in acts || Exit(p) in acts ==> !t.hs[p].pc.Registered?)
  }

  /** Only its own step ends a wait. */
  lemma AwaitedKept(t: Sys, w: Holder, a: Action)
    requires Inv(t) && Awaited(t, w).Some? && Apply(t, a).Some? && a != Proceed(w)
    ensures Awaited(Apply(t, a).value, w) == Awaited(t, w)
    ensures var p := Awaited(t, w).value; t.active == Some(p) && t.mu == Some(w) && p in t.hs
  {
    if w.ByHandler? { assert HandlerOk(t, w.h); }
    if !a.ServerLock? && !a.ServerWaited? && a.h in t.hs { assert HandlerOk(t, a.h); }
  }

  /** While somebody waits nobody registers, and who has started stays so. */
  lemma NotAgain(t: Sys, p: nat, a: Action)
    requires Inv(t) && p in t.hs && t.active == Some(p) && t.mu.Some? && Apply(t, a).Some?
    ensures p in Apply(t, a).value.hs
    ensures Apply(t, a).value.hs[p].pc.Registered? ==> t.hs[p].pc.Registered? && a != StartOk(p)
    ensures a == ClientGone(p) || a == Exit(p) ==> !t.hs[p].pc.Registered?
    ensures a == StartOk(p) ==> t.hs[p].pc.Registered?
  {
    assert HandlerOk(t, p);
    if !a.ServerLock? && !a.ServerWaited? && a.h in t.hs { assert HandlerOk(t, a.h); }
  }

  lemma Grown(acts: seq<Action>, a: Action, b: Action)
    ensures b in acts + [a] <==> b in acts || b == a
  {
  }

  lemma SinceStep(t: Sys, w: Holder, p: nat, acts: seq<Action>, a: Action)
    requires Inv(t) && Since(t, w, p, acts) && Apply(t, a).Some? && a != Proceed(w)
    ensures Since(Apply(t, a).value, w, p, acts + [a])
  {
    AwaitedKept(t, w, a);
    NotAgain(t, p, a);
    EncoderExact(t, a, p);
    Grown(acts, a, StartOk(p));
    Grown(acts, a, ClientGone(p));
    Grown(acts, a, Exit(p));
    if w.ByHandler? { assert HandlerOk(t, w.h); }
  }

  lemma {:induction false} Prefix(acts: seq<Action>, k: nat)
    requires Exec(START, acts).Some? && k <= |acts|
    ensures Exec(START, acts[..k]).Some?
    decreases |acts|
  {
    if k < |acts| {
      Prefix(acts[..|acts| - 1], k);
      assert acts[..|acts| - 1][..k] == acts[..k];
    } else {
      assert acts[..k] == acts;
    }
  }

  /** The `b`-th step of a run began a wait of `w` for `p` that still lasts. */
  predicate WaitsSince(acts: seq<Action>, b: nat, w: Holder, p: nat) {
    && b < |acts| && Exec(START, acts[..b]).Some? && Exec(START, acts[..b + 1]).Some?
    && Awaited(Exec(START, acts[..b]).value, w).None? && Awaited(Exec(START, acts[..b + 1]).value, w) == Some(p)
    && Proceed(w) !in acts[b + 1..]
  }

  lemma {:induction false} SinceBegin(acts: seq<Action>, b: nat, w: Holder, p: nat)
    requires Exec(START, acts).Some? && WaitsSince(acts, b, w, p)
    ensures Since(Exec(START, acts).value, w, p, acts[b + 1..])
    decreases |acts|
  {
    var n := |acts| - 1;
    if b == n {
      assert acts[..b + 1] == acts && acts[b + 1..] == [];
      Safe(acts[..b]);
      WaitBegins(Exec(START, acts[..b]).value, w, acts[b]);
    } else {
      var before := acts[..n];
      assert before[..b] == acts[..b] && before[..b + 1] == acts[..b + 1];
      assert acts[b + 1..] == before[b + 1..] + [acts[n]];
      SinceBegin(before, b, w, p);
      Safe(before);
      SinceStep(Exec(START, before).value, w, p, before[b + 1..], acts[n]);
    }
  }

  /** Over whole runs: a wait finds its encoder running exactly when that was
      started after the step that told it to stop, and has neither exited nor
      lost its client since. */
  lemma RunningExact(acts: seq<Action>, b: nat, w: Holder, p: nat)
    requires Exec(START, acts).Some? && WaitsSince(acts, b, w, p)
    ensures var s := Exec(START, acts).value;
            && Awaited(s, w) == Some(p) && p in s.hs
            && (s.hs[p].enc.Running? <==> StartedIn(acts[b + 1..], p))
  {
    SinceBegin(acts, b, w, p);
  }

  // ---------------------------------------------- what the slot and lock say

  /** A step after which `h` is not in the slot. */
  predicate Empties(a: Action, h: nat) {
    a.Waited? || a.ServerWaited? || a == Unregister(h) || a == Cleanup(h) || (a.Install? && a.h != h)
  }

  predicate InstalledAt(acts: seq<Action>, k: nat, h: nat) {
    k < |acts| && acts[k] == Install(h) && forall j :: k < j < |acts| ==> !Empties(acts[j], h)
  }

  lemma SlotStep(s: Sys, a: Action, h: nat)
    requires Inv(s) && Apply(s, a).Some?
    ensures Apply(s, a).value.active == Some(h) <==> a == Install(h) || (s.active == Some(h) && !Empties(a, h))
  {
    if !a.ServerLock? && !a.ServerWaited? && a.h in s.hs { assert HandlerOk(s, a.h); }
  }

  /** After any run an encoder is in the slot exactly when its handler installed
      it and nobody has emptied the slot, or given it up, since. */
  lemma {:induction false} SlotExact(acts: seq<Action>, h: nat)
    requires Exec(START, acts).Some?
    ensures Exec(START, acts).value.active == Some(h) <==> exists k: nat :: InstalledAt(acts, k, h)
    decreases |acts|
  {
    if acts != [] {
      var n := |acts| - 1;
      var before := acts[..n];
      SlotExact(before, h);
      Safe(before);
      SlotStep(Exec(START, before).value, acts[n], h);
      if k: nat :| InstalledAt(before, k, h) {
        if !Empties(acts[n], h) {
          forall j | k < j < |acts| ensures !Empties(acts[j], h) { if j < n { assert acts[j] == before[j]; } }
          assert InstalledAt(acts, k, h);
        }
      }
      if k: nat :| InstalledAt(acts, k, h) {
        if k < n {
          forall j | k < j < n ensures !Empties(before[j], h) { assert acts[j] == before[j]; }
          assert InstalledAt(before, k, h);
        }
      }
      if acts[n] == Install(h) { assert InstalledAt(acts, n, h); }
    }
  }

  // ------------------------------------------- waiting for a client to leave

  /** The encoder waited for was started after it was told to stop, or failed
      to start, whatever its handler does meanwhile. */
  predicate Held(s: Sys, w: Holder) {
    && Awaited(s, w).Some? && Awaited(s, w).value in s.hs
    && var e := s.hs[Awaited(s, w).value].enc; e.Running? || e.Hung?
  }

  lemma HeldStep(s: Sys, w: Holder, a: Action)
    requires Inv(s) && Held(s, w) && Apply(s, a).Some? && a != ClientGone(Awaited(s, w).value)
    requires a.Exit? ==> !(a.h in s.hs && s.hs[a.h].enc.Running?)
    ensures Held(Apply(s, a).value, w) && Awaited(Apply(s, a).value, w) == Awaited(s, w)
  {
    assert HandlerOk(s, Awaited(s, w).value);
    if w.ByHandler? { assert HandlerOk(s, w.h); }
    if !a.ServerLock? && !a.ServerWaited? && a.h in s.hs { assert HandlerOk(s, a.h); }
  }

  lemma HolderHasLock(s: Sys, w: Holder)
    requires Inv(s) && Awaited(s, w).Some?
    ensures s.mu == Some(w)
  {
    if w.ByHandler? { assert HandlerOk(s, w.h); }
  }

  /** While the client of that encoder stays, and no encoder exits unasked, the
      lock stays where it is. */
  lemma {:induction false} HeldWhileClientStays(s: Sys, w: Holder, acts: seq<Action>)
    requires Inv(s) && Held(s, w) && ExecObedient(s, acts).Some?
    requires ClientGone(Awaited(s, w).value) !in acts
    ensures var t := ExecObedient(s, acts).value;
            Inv(t) && Held(t, w) && Awaited(t, w) == Awaited(s, w) && t.mu == Some(w)
    decreases |acts|
  {
    if acts == [] {
      HolderHasLock(s, w);
    } else {
      var before := acts[..|acts| - 1];
      HeldWhileClientStays(s, w, before);
      var t := ExecObedient(s, before).value;
      HeldStep(t, w, acts[|acts| - 1]);
      InvStep(t, acts[|acts| - 1]);
      HolderHasLock(Apply(t, acts[|acts| - 1]).value, w);
    }
  }

  /** The wait can end without the client of the encoder waited for leaving. */
  ghost predicate CanProceedAlone(s: Sys, w: Holder)
    requires Awaited(s, w).Some?
  {
    exists acts :: && ExecObedient(s, acts).Some? && ClientGone(Awaited(s, w).value) !in acts
                   && Through(ExecObedient(s, acts).value, w)
  }

  lemma ProceedEnds(s: Sys, w: Holder)
    requires Inv(s) && Awaited(s, w).Some?
    ensures Awaited(s, w).value in s.hs
    ensures Quiet(s.hs[Awaited(s, w).value].enc) ==>
              Apply(s, Proceed(w)).Some? && Through(Apply(s, Proceed(w)).value, w)
  {
    if w.ByHandler? { assert HandlerOk(s, w.h); }
  }

  lemma AskedToExit(s: Sys, p: nat) returns (acts: seq<Action>, t: Sys)
    requires Inv(s) && p in s.hs && !s.hs[p].enc.Running? && !s.hs[p].enc.Hung?
    ensures ExecObedient(s, acts) == Some(t) && Inv(t) && ClientGone(p) !in acts
    ensures p in t.hs && t == Put(s, p, t.hs[p]) && t.hs[p].pc == s.hs[p].pc && Quiet(t.hs[p].enc)
  {
    acts, t := [], s;
    if t.hs[p].enc.Stopping? {
      InvStep(t, Exit(p));
      acts, t := More(s, acts, t, Exit(p));
    }
  }

  /** A stopping encoder exits, and then the wait is over. */
  lemma AloneEnds(s: Sys, w: Holder)
    requires Inv(s) && Awaited(s, w).Some? && !Held(s, w)
    ensures CanProceedAlone(s, w)
  {
    var p := Awaited(s, w).value;
    ProceedEnds(s, w);
    var acts, t := AskedToExit(s, p);
    assert Awaited(t, w) == Some(p);
    ProceedEnds(t, w);
    acts, t := More(s, acts, t, Proceed(w));
  }

  /** Exactly when the wait depends on nobody's client: when the encoder waited
      for was stopped, had exited or had not been started yet. */
  lemma HeldExact(s: Sys, w: Holder)
    requires Inv(s) && Awaited(s, w).Some?
    ensures CanProceedAlone(s, w) <==> !Held(s, w)
  {
    if Held(s, w) {
      forall acts | ExecObedient(s, acts).Some? && ClientGone(Awaited(s, w).value) !in acts
        ensures !Through(ExecObedient(s, acts).value, w)
      {
        HeldWhileClientStays(s, w, acts);
      }
    } else {
      AloneEnds(s, w);
    }
  }

  /** Some continuation of the wait has it held. */
  ghost predicate CanBeHeld(s: Sys, w: Holder) {
    exists acts :: Exec(s, acts).Some? && Proceed(w) !in acts && Held(Exec(s, acts).value, w)
  }

  /** The encoder waited for is past its start, or will never have one. */
  predicate Sure(s: Sys, w: Holder) {
    && Awaited(s, w).Some? && Awaited(s, w).value in s.hs
    && var x := s.hs[Awaited(s, w).value];
       x.enc.Stopping? || x.enc.Exited? || (x.enc.Unstarted? && x.pc.StartFailed?)
  }

  lemma SureStep(s: Sys, w: Holder, a: Action)
    requires Inv(s) && Sure(s, w) && Apply(s, a).Some? && a != Proceed(w)
    ensures Sure(Apply(s, a).value, w)
  {
    assert HandlerOk(s, Awaited(s, w).value);
    if w.ByHandler? { assert HandlerOk(s, w.h); }
    if !a.ServerLock? && !a.ServerWaited? && a.h in s.hs { assert HandlerOk(s, a.h); }
  }

  lemma {:induction false} SureUntilThrough(s: Sys, w: Holder, acts: seq<Action>)
    requires Inv(s) && Sure(s, w) && Exec(s, acts).Some? && Proceed(w) !in acts
    ensures Inv(Exec(s, acts).value) && Sure(Exec(s, acts).value, w)
    decreases |acts|
  {
    if acts != [] {
      var before := acts[..|acts| - 1];
      SureUntilThrough(s, w, before);
      SureStep(Exec(s, before).value, w, acts[|acts| - 1]);
      InvStep(Exec(s, before).value, acts[|acts| - 1]);
    }
  }

  /** Exactly when the lock can come to be held like that: when it is, or when
      the handler waited for has registered and not started yet. */
  lemma HeldAhead(s: Sys, w: Holder)
    requires Inv(s) && Awaited(s, w).Some?
    ensures Awaited(s, w).value in s.hs
    ensures CanBeHeld(s, w) <==> Held(s, w) || s.hs[Awaited(s, w).value].pc.Registered?
  {
    var p := Awaited(s, w).value;
    if w.ByHandler? { assert HandlerOk(s, w.h); }
    assert HandlerOk(s, p);
    if Held(s, w) {
      assert Exec(s, []) == Some(s);
    } else if s.hs[p].pc.Registered? {
      var acts := [StartOk(p)];
      assert acts[..0] == [];
      assert Exec(s, acts) == Apply(s, StartOk(p));
    } else {
      forall acts | Exec(s, acts).Some? && Proceed(w) !in acts
        ensures !Held(Exec(s, acts).value, w)
      {
        SureUntilThrough(s, w, acts);
      }
    }
  }

  // ------------------------------------------------------ these waits do occur

  /** A streaming handler starts between another one's stop and wait. Now its
      client decides how long the lock is held. */
  lemma HeldReachable()
    ensures exists acts :: && Exec(START, acts).Some?
                           && var s := Exec(START, acts).value;
                              && Held(s, ByHandler(1)) && !Stuck(s, ByHandler(1))
                              && 0 in s.hs && s.hs[0].pc.Serving?
  {
    var acts, s := TwoHandlers(false);
    acts, s := Extend(acts, s, StartOk(0));
  }

  /** An SDP handler does the same: then nobody can end the wait. */
  lemma StuckReachable()
    ensures exists acts :: Exec(START, acts).Some? && Stuck(Exec(START, acts).value, ByHandler(1))
                           && 0 in Exec(START, acts).value.hs && Exec(START, acts).value.hs[0].enc.Running?
  {
    var acts, s := TwoHandlers(true);
    acts, s := Extend(acts, s, StartOk(0));
  }

  /** So it is when its start fails before the lock is its own again. */
  lemma FailedStartSticks()
    ensures exists acts :: Exec(START, acts).Some? && Stuck(Exec(START, acts).value, ByHandler(1))
                           && 0 in Exec(START, acts).value.hs && Exec(START, acts).value.hs[0].pc.StartFailed?
  {
    var acts, s := TwoHandlers(true);
    acts, s := Extend(acts, s, StartFail(0, true));
  }

  /** The server's own stop gets there too. */
  lemma ServerSticks()
    ensures exists acts :: Exec(START, acts).Some? && Stuck(Exec(START, acts).value, ByServer)
  {
    var acts, s := OneHandler(true);
    acts, s := Extend(acts, s, StartFail(0, true));
    acts, s := Extend(acts, s, ServerLock);
  }
}
