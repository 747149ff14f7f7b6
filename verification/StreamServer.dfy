/** The stream server object: its listener, its encoder slot and the handler of
    a request, run against any schedule of what everybody else does. */
module StreamServer {
  import opened Bytes
  import H = Handlers

  // ------------------------------------------------ whose step an action is

  /** A step of `w`. Encoders exit by themselves. */
  predicate Mine(a: H.Action, w: H.Holder) {
    match w
    case ByHandler(h) => H.By(a, h) && !a.Exit?
    case ByServer => a.ServerLock? || a.ServerWaited?
  }

  function Own(log: seq<H.Action>, w: H.Holder): seq<H.Action> {
    if log == [] then []
    else Own(log[..|log| - 1], w) + if Mine(log[|log| - 1], w) then [log[|log| - 1]] else []
  }

  lemma OwnGrows(log: seq<H.Action>, a: H.Action, w: H.Holder)
    ensures Own(log + [a], w) == Own(log, w) + if Mine(a, w) then [a] else []
  {
    assert (log + [a])[..|log|] == log;
  }

  lemma RunGrows(log: seq<H.Action>, a: H.Action)
    requires H.Exec(H.START, log).Some?
    ensures H.Exec(H.START, log + [a]) == H.Apply(H.Exec(H.START, log).value, a)
  {
    assert (log + [a])[..|log|] == log;
  }

  /** No step of `w` among the last ones, as its steps are as many as before. */
  lemma {:induction false} OwnQuiet(log: seq<H.Action>, k: nat, w: H.Holder)
    requires k <= |log|
    ensures |Own(log, w)| >= |Own(log[..k], w)|
    ensures |Own(log, w)| == |Own(log[..k], w)| ==> forall a :: a in log[k..] ==> !Mine(a, w)
    decreases |log|
  {
    if k < |log| {
      var before := log[..|log| - 1];
      assert before[..k] == log[..k] && log[k..] == before[k..] + [log[|log| - 1]];
      OwnQuiet(before, k, w);
    } else {
      assert log[..k] == log && log[k..] == [];
    }
  }

  /** Since step `b`, which told it to stop, encoder `p` runs exactly when its
      handler started it, and neither its exit nor its client's leaving came. */
  predicate StoppedAt(log: seq<H.Action>, b: nat, stop: H.Action, p: nat, running: bool) {
    b < |log| && log[b] == stop && (running <==> H.StartedIn(log[b + 1..], p))
  }

  /** The wait that the step `stop` began, after the steps `log`, still lasts. */
  lemma StillWaiting(before: seq<H.Action>, u: H.Sys, stop: H.Action, log: seq<H.Action>, w: H.Holder, p: nat, s: H.Sys)
    requires H.Exec(H.START, log) == Some(s) && before + [stop] <= log
    requires H.Exec(H.START, before) == Some(u) && H.Awaited(u, w).None?
    requires H.Apply(u, stop).Some? && H.Awaited(H.Apply(u, stop).value, w) == Some(p)
    requires Own(log, w) == Own(before + [stop], w)
    ensures p in s.hs && StoppedAt(log, |before|, stop, p, s.hs[p].enc.Running?)
  {
    var b := |before|;
    assert log[..b] == before && log[..b + 1] == before + [stop];
    RunGrows(before, stop);
    OwnQuiet(log, b + 1, w);
    assert Mine(H.Proceed(w), w);
    H.RunningExact(log, b, w, p);
  }

  /** Handler `h` stands at `pc`. */
  predicate At(s: H.Sys, h: nat, sdp: bool, pc: H.Pc) {
    h in s.hs && s.hs[h].sdp == sdp && s.hs[h].pc == pc
  }

  /** From `s` to `t` nobody moved `w`, nor the slot while `w` had the lock. */
  predicate Kept(s: H.Sys, t: H.Sys, w: H.Holder) {
    && s.hs.Keys <= t.hs.Keys
    && (s.mu == Some(w) ==> t.mu == s.mu && t.active == s.active)
    && match w
       case ByHandler(h) => h in s.hs ==> At(t, h, s.hs[h].sdp, s.hs[h].pc)
       case ByServer => t.server == s.server
  }

  lemma OthersStep(s: H.Sys, a: H.Action, w: H.Holder)
    requires H.Inv(s) && !Mine(a, w) && H.Apply(s, a).Some?
    ensures Kept(s, H.Apply(s, a).value, w)
  {
    if !a.ServerLock? && !a.ServerWaited? && a.h in s.hs { assert H.HandlerOk(s, a.h); }
  }

  // ------------------------------------------------------- how far a run gets

  /** How far a handler gets with the slot. */
  datatype Claim = NoLock | NoExit(prev: nat) | Claimed(evicted: bool)

  function ClaimSteps(h: nat, c: Claim): seq<H.Action> {
    match c
    case NoLock => []
    case NoExit(_) => [H.Lock(h), H.Inspect(h)]
    case Claimed(evicted) => [H.Lock(h), H.Inspect(h)] + (if evicted then [H.Waited(h)] else []) + [H.Install(h)]
  }

  /** How a request ends: all of the source's ways out, and the waits it can be
      in when the schedule of the others is over. */
  datatype End =
    | Unclaimed                       // the lock, or the previous encoder's exit
    | Unregistering | Failed          // the start failed
    | Described                       // SDP served
    | Streaming | Exiting | Cleaning(left: bool)
    | Ended(left: bool)

  function LeaveSteps(h: nat, left: bool): seq<H.Action> {
    if left then [H.ClientGone(h), H.Drained(h)] else [H.EncoderDone(h)]
  }

  function Served(h: nat, end: End): seq<H.Action> {
    match end
    case Exiting => [H.ClientGone(h)]
    case Cleaning(left) => LeaveSteps(h, left)
    case Ended(left) => LeaveSteps(h, left) + [H.Cleanup(h)]
    case _ => []
  }

  /** What a request does once its start has been tried. */
  function Tail(h: nat, hangs: bool, end: End): seq<H.Action> {
    match end
    case Unclaimed => []
    case Unregistering => [H.StartFail(h, hangs)]
    case Failed => [H.StartFail(h, hangs), H.Unregister(h)]
    case _ => [H.StartOk(h)] + Served(h, end)
  }

  /** The steps of a request, in the source's order. */
  function Steps(h: nat, sdp: bool, hangs: bool, c: Claim, end: End): seq<H.Action> {
    [H.Arrive(h, sdp)] + ClaimSteps(h, c) + Tail(h, hangs, end)
  }

  lemma Joined(before: seq<H.Action>, a: seq<H.Action>, b: seq<H.Action>, c: seq<H.Action>)
    ensures before + (a + b + c) == before + a + b + c
  {
  }

  class Server {
    var listening: bool
    var serving: bool
    var announcing: bool
    var activeEncoder: Option<nat>
    var cmdMu: Option<H.Holder>

    /** The encoders and everybody at work on them, what has happened so far,
        and what the others will try between two steps. */
    var sys: H.Sys
    ghost var log: seq<H.Action>
    const others: seq<seq<H.Action>>
    var turn: nat

    /** Slot and lock are those of the system, and the log is a run that led
        here. */
    ghost predicate Valid()
      reads this
    {
      activeEncoder == sys.active && cmdMu == sys.mu && H.Exec(H.START, log) == Some(sys)
    }

    constructor (others: seq<seq<H.Action>>)
      ensures Valid() && log == [] && this.others == others && turn == 0
      ensures !listening && !serving && !announcing
    {
      listening, serving, announcing := false, false, false;
      activeEncoder, cmdMu := None, None;
      sys, log := H.START, [];
      this.others, turn := others, 0;
    }

    /** The part of step `a` that lies outside the object; slot and lock have
        been assigned already. */
    method Did(a: H.Action)
      requires H.Exec(H.START, log) == Some(sys) && H.Apply(sys, a).Some?
      requires activeEncoder == H.Apply(sys, a).value.active && cmdMu == H.Apply(sys, a).value.mu
      modifies this`sys, this`log
      ensures Valid() && log == old(log) + [a] && sys == H.Apply(old(sys), a).value
      ensures forall w: H.Holder :: Own(log, w) == old(Own(log, w)) + if Mine(a, w) then [a] else []
    {
      RunGrows(log, a);
      forall w: H.Holder ensures Own(log + [a], w) == Own(log, w) + if Mine(a, w) then [a] else [] {
        OwnGrows(log, a, w);
      }
      sys, log := H.Apply(sys, a).value, log + [a];
    }

    /** A whole step of somebody else. */
    method Other(a: H.Action)
      requires Valid() && H.Apply(sys, a).Some?
      modifies this`activeEncoder, this`cmdMu, this`sys, this`log
      ensures Valid() && log == old(log) + [a] && sys == H.Apply(old(sys), a).value
      ensures forall w: H.Holder :: Own(log, w) == old(Own(log, w)) + if Mine(a, w) then [a] else []
    {
      activeEncoder, cmdMu := H.Apply(sys, a).value.active, H.Apply(sys, a).value.mu;
      Did(a);
    }

    /** Let the others go on: those of their next attempts that are enabled and
        not steps of `w` happen. */
    method Yield(w: H.Holder)
      requires Valid()
      modifies this`activeEncoder, this`cmdMu, this`sys, this`log, this`turn
      ensures Valid() && Kept(old(sys), sys, w) && Own(log, w) == old(Own(log, w)) && old(log) <= log
      ensures turn >= old(turn) && (old(turn) < |others| ==> turn > old(turn))
    {
      if turn < |others| {
        var acts := others[turn];
        turn := turn + 1;
        for k := 0 to |acts|
          invariant Valid() && Kept(old(sys), sys, w) && Own(log, w) == old(Own(log, w)) && old(log) <= log
          invariant turn == old(turn) + 1
        {
          if !Mine(acts[k], w) && H.Apply(sys, acts[k]).Some? {
            H.Safe(log);
            OthersStep(sys, acts[k], w);
            Other(acts[k]);
          }
        }
      }
    }

    /** `cmdMu.Lock()`, as far as the schedule goes. */
    method AwaitLock(w: H.Holder) returns (free: bool)
      requires Valid()
      modifies this`activeEncoder, this`cmdMu, this`sys, this`log, this`turn
      ensures Valid() && Kept(old(sys), sys, w) && Own(log, w) == old(Own(log, w)) && old(log) <= log
      ensures free <==> cmdMu.None?
      ensures !free ==> turn >= |others|
    {
      while cmdMu.Some? && turn < |others|
        invariant Valid() && Kept(old(sys), sys, w) && Own(log, w) == old(Own(log, w)) && old(log) <= log
        decreases |others| - turn
      {
        Yield(w);
      }
      free := cmdMu.None?;
    }

    /** `encoder.Wait()`, as far as the schedule goes. */
    method AwaitExit(w: H.Holder, p: nat) returns (returned: bool)
      requires Valid() && p in sys.hs
      modifies this`activeEncoder, this`cmdMu, this`sys, this`log, this`turn
      ensures Valid() && Kept(old(sys), sys, w) && Own(log, w) == old(Own(log, w)) && old(log) <= log
      ensures p in sys.hs && (returned <==> H.Quiet(sys.hs[p].enc))
      ensures !returned ==> turn >= |others|
    {
      while !H.Quiet(sys.hs[p].enc) && turn < |others|
        invariant Valid() && Kept(old(sys), sys, w) && Own(log, w) == old(Own(log, w)) && old(log) <= log
        decreases |others| - turn
      {
        Yield(w);
      }
      returned := H.Quiet(sys.hs[p].enc);
    }

    /** `Start`: refused when already started or when the port is taken. */
    method Start(portFree: bool) returns (ok: bool)
      modifies this`listening, this`serving, this`announcing
      ensures ok <==> !old(listening) && portFree
      ensures listening == (old(listening) || ok) && serving == (old(serving) || ok)
      ensures announcing == (old(announcing) || ok)
    {
      if listening || !portFree { return false; }
      listening := true;
      serving := true;
      announcing := true;
      return true;
    }

    /** The top of the installing lock region. */
    method LockSlot(h: nat, sdp: bool) returns (locked: bool)
      requires Valid() && At(sys, h, sdp, H.Resolved)
      modifies this`activeEncoder, this`cmdMu, this`sys, this`log, this`turn
      ensures Valid() && At(sys, h, sdp, if locked then H.Inspecting else H.Resolved)
      ensures Own(log, H.ByHandler(h)) == old(Own(log, H.ByHandler(h))) + if locked then [H.Lock(h)] else []
      ensures !locked ==> cmdMu.Some? && turn >= |others|
      ensures old(log) <= log
    {
      locked := AwaitLock(H.ByHandler(h));
      if locked {
        cmdMu := Some(H.ByHandler(h));
        Did(H.Lock(h));
        Yield(H.ByHandler(h));
      }
    }

    /** Whoever is in the slot is known, and is not the handler looking. */
    lemma SlotOfAnother(h: nat, p: nat)
      requires Valid() && h in sys.hs && sys.hs[h].pc.Inspecting? && activeEncoder == Some(p)
      ensures p in sys.hs && p != h && sys.mu == Some(H.ByHandler(h))
    {
      H.Safe(log);
      assert H.HandlerOk(sys, h);
    }

    /** Somebody is in the slot: stop and wait for it, lock in hand. */
    method Evict(h: nat, sdp: bool, p: nat) returns (returned: bool)
      requires Valid() && At(sys, h, sdp, H.Inspecting) && activeEncoder == Some(p)
      modifies this`activeEncoder, this`cmdMu, this`sys, this`log, this`turn
      ensures Valid() && At(sys, h, sdp, if returned then H.Installing else H.WaitingFor(p))
      ensures Own(log, H.ByHandler(h))
           == old(Own(log, H.ByHandler(h))) + [H.Inspect(h)] + if returned then [H.Waited(h)] else []
      ensures !returned ==> p in sys.hs && !H.Quiet(sys.hs[p].enc) && turn >= |others|
      ensures !returned ==> StoppedAt(log, old(|log|), H.Inspect(h), p, sys.hs[p].enc.Running?)
      ensures old(log) <= log
    {
      SlotOfAnother(h, p);
      Did(H.Inspect(h));
      returned := AwaitExit(H.ByHandler(h), p);
      if returned {
        activeEncoder := None;
        Did(H.Waited(h));
      } else {
        StillWaiting(old(log), old(sys), H.Inspect(h), log, H.ByHandler(h), p, sys);
      }
    }

    method Install(h: nat, sdp: bool)
      requires Valid() && At(sys, h, sdp, H.Installing)
      modifies this`activeEncoder, this`cmdMu, this`sys, this`log, this`turn
      ensures Valid() && At(sys, h, sdp, H.Registered)
      ensures Own(log, H.ByHandler(h)) == old(Own(log, H.ByHandler(h))) + [H.Install(h)]
    {
      Yield(H.ByHandler(h));
      activeEncoder := Some(h);
      cmdMu := None;
      Did(H.Install(h));
      Yield(H.ByHandler(h));
    }

    /** The slot is emptied, lock in hand, unless its encoder stays. */
    method Clear(h: nat, sdp: bool) returns (cleared: bool)
      requires Valid() && At(sys, h, sdp, H.Inspecting)
      modifies this`activeEncoder, this`cmdMu, this`sys, this`log, this`turn
      ensures Valid() && Own(log, H.ByHandler(h)) == old(Own(log, H.ByHandler(h))) + [H.Inspect(h)]
                                                     + if cleared && old(activeEncoder).Some? then [H.Waited(h)] else []
      ensures cleared ==> At(sys, h, sdp, H.Installing)
      ensures !cleared ==> old(activeEncoder).Some? && turn >= |others|
                           && At(sys, h, sdp, H.WaitingFor(old(activeEncoder).value))
                           && old(activeEncoder).value in sys.hs && !H.Quiet(sys.hs[old(activeEncoder).value].enc)
                           && StoppedAt(log, old(|log|), H.Inspect(h), old(activeEncoder).value,
                                        sys.hs[old(activeEncoder).value].enc.Running?)
    {
      if activeEncoder.Some? {
        cleared := Evict(h, sdp, activeEncoder.value);
      } else {
        cleared := true;
        Did(H.Inspect(h));
      }
    }

    /** The installing lock region. A handler that does not get through waits
        for the lock, or has it and waits for an encoder. */
    method Register(h: nat, sdp: bool) returns (c: Claim)
      requires Valid() && At(sys, h, sdp, H.Resolved)
      modifies this`activeEncoder, this`cmdMu, this`sys, this`log, this`turn
      ensures Valid() && Own(log, H.ByHandler(h)) == old(Own(log, H.ByHandler(h))) + ClaimSteps(h, c)
      ensures c.Claimed? ==> At(sys, h, sdp, H.Registered)
      ensures c.NoLock? ==> At(sys, h, sdp, H.Resolved) && cmdMu.Some?
      ensures c.NoExit? ==> At(sys, h, sdp, H.WaitingFor(c.prev))
                            && c.prev in sys.hs && !H.Quiet(sys.hs[c.prev].enc)
                            && exists b: nat :: old(|log|) <= b
                                 && StoppedAt(log, b, H.Inspect(h), c.prev, sys.hs[c.prev].enc.Running?)
      ensures !c.Claimed? ==> turn >= |others|
    {
      var locked := LockSlot(h, sdp);
      if !locked { return NoLock; }
      var evicted := activeEncoder;
      var cleared := Clear(h, sdp);
      if !cleared { return NoExit(evicted.value); }
      Install(h, sdp);
      return Claimed(evicted.Some?);
    }

    /** The lock region after a failed start. */
    method Unregister(h: nat, sdp: bool) returns (done: bool)
      requires Valid() && At(sys, h, sdp, H.StartFailed)
      modifies this`activeEncoder, this`cmdMu, this`sys, this`log, this`turn
      ensures Valid() && At(sys, h, sdp, if done then H.Returned else H.StartFailed)
      ensures Own(log, H.ByHandler(h)) == old(Own(log, H.ByHandler(h))) + if done then [H.Unregister(h)] else []
      ensures if done then activeEncoder != Some(h) else cmdMu.Some? && turn >= |others|
      ensures done ==> !H.Alive(sys.hs[h].enc)
    {
      done := AwaitLock(H.ByHandler(h));
      if done {
        H.Safe(log);
        assert H.HandlerOk(sys, h);
        if activeEncoder == Some(h) { activeEncoder := None; }
        Did(H.Unregister(h));
      }
    }

    /** The deferred lock region: only a handler's own encoder is given up. */
    method CleanUp(h: nat) returns (done: bool)
      requires Valid() && At(sys, h, false, H.Pc.Cleaning)
      modifies this`activeEncoder, this`cmdMu, this`sys, this`log, this`turn
      ensures Valid() && At(sys, h, false, if done then H.Returned else H.Pc.Cleaning)
      ensures Own(log, H.ByHandler(h)) == old(Own(log, H.ByHandler(h))) + if done then [H.Cleanup(h)] else []
      ensures if done then activeEncoder != Some(h) else cmdMu.Some? && turn >= |others|
      ensures done ==> !H.Alive(sys.hs[h].enc)
    {
      done := AwaitLock(H.ByHandler(h));
      if done {
        H.Safe(log);
        assert H.HandlerOk(sys, h);
        if activeEncoder == Some(h) { activeEncoder := None; }
        Did(H.Cleanup(h));
      }
    }

    /** The `select`: the client leaves after `patience` turns, unless the
        encoder exits before. */
    method Select(h: nat, patience: nat) returns (gone: bool, over: bool)
      requires Valid() && At(sys, h, false, H.Serving)
      modifies this`activeEncoder, this`cmdMu, this`sys, this`log, this`turn
      ensures Valid() && At(sys, h, false, if gone then H.Draining else if over then H.Pc.Cleaning else H.Serving)
      ensures Own(log, H.ByHandler(h)) == old(Own(log, H.ByHandler(h)))
                                          + if gone then [H.ClientGone(h)] else if over then [H.EncoderDone(h)] else []
    {
      var k := 0;
      while k < patience && !H.Quiet(sys.hs[h].enc) && turn < |others|
        invariant Valid() && At(sys, h, false, H.Serving) && Own(log, H.ByHandler(h)) == old(Own(log, H.ByHandler(h)))
        decreases |others| - turn
      {
        Yield(H.ByHandler(h));
        k := k + 1;
      }
      gone, over := k >= patience, H.Quiet(sys.hs[h].enc);
      if gone {
        Did(H.ClientGone(h));
      } else if over {
        Did(H.EncoderDone(h));
      }
    }

    /** The client is gone: wait for its encoder. */
    method Drain(h: nat) returns (returned: bool)
      requires Valid() && At(sys, h, false, H.Draining)
      modifies this`activeEncoder, this`cmdMu, this`sys, this`log, this`turn
      ensures Valid() && At(sys, h, false, if returned then H.Pc.Cleaning else H.Draining)
      ensures Own(log, H.ByHandler(h)) == old(Own(log, H.ByHandler(h))) + if returned then [H.Drained(h)] else []
    {
      returned := AwaitExit(H.ByHandler(h), h);
      if returned {
        Did(H.Drained(h));
        Yield(H.ByHandler(h));
      }
    }

    /** A streaming request from its start on. */
    method Serve(h: nat, patience: nat) returns (end: End)
      requires Valid() && At(sys, h, false, H.Serving)
      modifies this`activeEncoder, this`cmdMu, this`sys, this`log, this`turn
      ensures Valid() && (end.Streaming? || end.Exiting? || end.Cleaning? || end.Ended?)
      ensures Own(log, H.ByHandler(h)) == old(Own(log, H.ByHandler(h))) + Served(h, end)
      ensures end.Ended? ==> At(sys, h, false, H.Returned) && !H.Alive(sys.hs[h].enc) && activeEncoder != Some(h)
    {
      var gone, over := Select(h, patience);
      if gone { over := Drain(h); }
      if over {
        var done := CleanUp(h);
        end := if done then Ended(gone) else Cleaning(gone);
      } else {
        end := if gone then Exiting else Streaming;
      }
    }

    /** The way out after a failed start. */
    method FailStart(h: nat, sdp: bool, hangs: bool) returns (done: bool)
      requires Valid() && At(sys, h, sdp, H.Registered)
      modifies this`activeEncoder, this`cmdMu, this`sys, this`log, this`turn
      ensures Valid() && Own(log, H.ByHandler(h))
           == old(Own(log, H.ByHandler(h))) + [H.StartFail(h, hangs)] + if done then [H.Unregister(h)] else []
      ensures done ==> At(sys, h, sdp, H.Returned) && !H.Alive(sys.hs[h].enc) && activeEncoder != Some(h)
    {
      Did(H.StartFail(h, hangs));
      Yield(H.ByHandler(h));
      done := Unregister(h, sdp);
    }

    /** The way on after a start. */
    method Started(h: nat, sdp: bool, patience: nat) returns (end: End)
      requires Valid() && At(sys, h, sdp, H.Registered)
      modifies this`activeEncoder, this`cmdMu, this`sys, this`log, this`turn
      ensures Valid() && Own(log, H.ByHandler(h)) == old(Own(log, H.ByHandler(h))) + [H.StartOk(h)] + Served(h, end)
      ensures !end.Unclaimed? && !end.Unregistering? && !end.Failed? && (end.Described? <==> sdp)
      ensures end.Ended? ==> At(sys, h, sdp, H.Returned) && !H.Alive(sys.hs[h].enc) && activeEncoder != Some(h)
    {
      Did(H.StartOk(h));
      if sdp { return Described; }
      Yield(H.ByHandler(h));
      end := Serve(h, patience);
    }

    /** `encoder.Start` and everything after it. */
    method Run(h: nat, sdp: bool, starts: bool, hangs: bool, patience: nat) returns (end: End)
      requires Valid() && At(sys, h, sdp, H.Registered)
      modifies this`activeEncoder, this`cmdMu, this`sys, this`log, this`turn
      ensures Valid() && Own(log, H.ByHandler(h)) == old(Own(log, H.ByHandler(h))) + Tail(h, hangs, end)
      ensures !end.Unclaimed? && (end.Described? ==> sdp && starts) && (end.Failed? ==> !starts)
      ensures end.Failed? || end.Ended?
           ==> At(sys, h, sdp, H.Returned) && !H.Alive(sys.hs[h].enc) && activeEncoder != Some(h)
    {
      if starts {
        end := Started(h, sdp, patience);
      } else {
        var done := FailStart(h, sdp, hangs);
        end := if done then Failed else Unregistering;
      }
    }

    /** A new request, with its encoder in hand. */
    method Arrive(h: nat, sdp: bool)
      requires Valid() && h !in sys.hs
      modifies this`activeEncoder, this`cmdMu, this`sys, this`log, this`turn
      ensures Valid() && At(sys, h, sdp, H.Resolved)
      ensures Own(log, H.ByHandler(h)) == old(Own(log, H.ByHandler(h))) + [H.Arrive(h, sdp)]
    {
      Did(H.Arrive(h, sdp));
      Yield(H.ByHandler(h));
    }

    /** `handler`, from the encoder in hand to its return, with any steps of
        others in between. */
    method Handle(h: nat, sdp: bool, starts: bool, hangs: bool, patience: nat) returns (c: Claim, end: End)
      requires Valid() && h !in sys.hs
      modifies this`activeEncoder, this`cmdMu, this`sys, this`log, this`turn
      ensures Valid()
      ensures Own(log, H.ByHandler(h)) == old(Own(log, H.ByHandler(h))) + Steps(h, sdp, hangs, c, end)
      ensures (c.Claimed? <==> !end.Unclaimed?) && (end.Described? ==> sdp && starts) && (end.Failed? ==> !starts)
      ensures end.Failed? || end.Ended?
           ==> At(sys, h, sdp, H.Returned) && !H.Alive(sys.hs[h].enc) && activeEncoder != Some(h)
    {
      ghost var before := Own(log, H.ByHandler(h));
      Arrive(h, sdp);
      c := Register(h, sdp);
      end := Unclaimed;
      if c.Claimed? { end := Run(h, sdp, starts, hangs, patience); }
      Joined(before, [H.Arrive(h, sdp)], ClaimSteps(h, c), Tail(h, hangs, end));
    }

    /** The server's stop is waiting for an encoder it told to stop. */
    ghost predicate Waiting(from: nat)
      reads this
    {
      && sys.server.Stopped? && sys.server.prev in sys.hs && !H.Quiet(sys.hs[sys.server.prev].enc)
      && exists b: nat :: from <= b
           && StoppedAt(log, b, H.ServerLock, sys.server.prev, sys.hs[sys.server.prev].enc.Running?)
    }

    method EvictForStop(p: nat) returns (returned: bool)
      requires Valid() && sys.server.Off? && activeEncoder == Some(p) && p in sys.hs && cmdMu == None
      modifies this`activeEncoder, this`cmdMu, this`sys, this`log, this`turn
      ensures Valid() && Own(log, H.ByServer)
           == old(Own(log, H.ByServer)) + [H.ServerLock] + if returned then [H.ServerWaited] else []
      ensures returned ==> activeEncoder == None && cmdMu == None && sys.server.Off?
      ensures !returned ==> turn >= |others| && cmdMu.Some? && Waiting(old(|log|))
    {
      cmdMu := Some(H.ByServer);
      Did(H.ServerLock);
      returned := AwaitExit(H.ByServer, p);
      if returned {
        activeEncoder := None;
        cmdMu := None;
        Did(H.ServerWaited);
      } else {
        StillWaiting(old(log), old(sys), H.ServerLock, log, H.ByServer, p, sys);
        assert StoppedAt(log, old(|log|), H.ServerLock, p, sys.hs[p].enc.Running?);
      }
    }

    /** The lock region of `Stop`. */
    method EmptySlot() returns (done: bool)
      requires Valid() && sys.server.Off?
      modifies this`activeEncoder, this`cmdMu, this`sys, this`log, this`turn
      ensures Valid()
      ensures done ==> activeEncoder == None && cmdMu == None && sys.server.Off?
      ensures done ==> Own(log, H.ByServer) in {old(Own(log, H.ByServer)) + [H.ServerLock],
                                                old(Own(log, H.ByServer)) + [H.ServerLock] + [H.ServerWaited]}
      ensures !done ==> cmdMu.Some? && turn >= |others| && (sys.server.Off? || Waiting(old(|log|)))
    {
      done := AwaitLock(H.ByServer);
      if !done { return; }
      H.Safe(log);
      if activeEncoder == None {
        Did(H.ServerLock);
      } else {
        done := EvictForStop(activeEncoder.value);
      }
    }

    /** `Stop`: a second call finds nothing left to do. The listener goes only
        once the slot has been emptied. */
    method Stop() returns (done: bool)
      requires Valid() && sys.server.Off?
      modifies this
      ensures Valid() && !announcing
      ensures done ==> activeEncoder == None && cmdMu == None && sys.server.Off?
      ensures done ==> !serving && listening == (old(listening) && !old(serving))
      ensures done ==> Own(log, H.ByServer) in {old(Own(log, H.ByServer)) + [H.ServerLock],
                                                old(Own(log, H.ByServer)) + [H.ServerLock] + [H.ServerWaited]}
      ensures !done ==> serving == old(serving) && listening == old(listening) && cmdMu.Some? && turn >= |others|
      ensures !done ==> sys.server.Off? || Waiting(old(|log|))
    {
      announcing := false;
      done := EmptySlot();
      if done && serving {
        serving := false;
        listening := false;
      }
    }
  }
}
