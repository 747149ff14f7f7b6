/** The controller object: its lock regions, and the settings commands. */
module Controller {
  import opened Bytes
  import L = Lifecycle

  datatype Config = Config(quality: string, audio: bool, encoder: string, transport: string)

  datatype Setting = SetQuality(quality: string) | SetAudio(audio: Option<bool>) | SetEncoder(encoder: string)
                   | SetTransport(transport: string)

  /** White space as `strings.TrimSpace` knows it. */
  predicate IsSpace(c: char) {
    '\t' <= c <= '\r' || c == ' ' || c as int == 0x85 || c as int == 0xA0 || c as int == 0x1680
    || 0x2000 <= c as int <= 0x200A || c as int == 0x2028 || c as int == 0x2029 || c as int == 0x202F
    || c as int == 0x205F || c as int == 0x3000
  }

  /** The twenty-five code points, one by one. */
  lemma SpacesAre(c: char)
    ensures IsSpace(c) <==>
              c as int in {9, 10, 11, 12, 13, 32, 133, 160, 5760, 8192, 8193, 8194, 8195, 8196, 8197, 8198, 8199,
                           8200, 8201, 8202, 8232, 8233, 8239, 8287, 12288}
  {
  }

  function TrimLeft(s: string): string {
    if s != [] && IsSpace(s[0]) then TrimLeft(s[1..]) else s
  }

  function TrimRight(s: string): string {
    if s != [] && IsSpace(s[|s| - 1]) then TrimRight(s[..|s| - 1]) else s
  }

  function Lower(s: string): string {
    seq(|s|, i requires 0 <= i < |s| => if 'A' <= s[i] <= 'Z' then s[i] - 'A' + 'a' else s[i])
  }

  /** `normalizeTransport`. */
  function Normalize(v: string): (r: string)
    ensures r == "h264" || r == "rtp" || r == "ts"
  {
    var t := Lower(TrimRight(TrimLeft(v)));
    if t == "h264" || t == "raw" || t == "low-latency" then "h264"
    else if t == "rtp" || t == "udp" then "rtp"
    else "ts"
  }

  lemma Untrimmed(s: string)
    requires s != [] && !IsSpace(s[0]) && !IsSpace(s[|s| - 1])
    ensures TrimRight(TrimLeft(s)) == s
  {
  }

  /** A stored transport name means itself when it is read again. */
  lemma NormalizeIdempotent(v: string)
    ensures Normalize(Normalize(v)) == Normalize(v)
  {
    var n := Normalize(v);
    Untrimmed(n);
    assert Lower(n) == n;
  }

  /** The six names, in any case and with any blanks around them, mean one of
      two transports; everything else is the transport stream. */
  lemma NormalizeExact(v: string)
    ensures var name := Lower(TrimRight(TrimLeft(v)));
            && (Normalize(v) == "h264" <==> name in {"h264", "raw", "low-latency"})
            && (Normalize(v) == "rtp" <==> name in {"rtp", "udp"})
            && (Normalize(v) == "ts" <==> name !in {"h264", "raw", "low-latency", "rtp", "udp"})
  {
  }

  lemma Plain(name: string)
    requires name != [] && !IsSpace(name[0]) && !IsSpace(name[|name| - 1])
    requires forall i :: 0 <= i < |name| ==> !('A' <= name[i] <= 'Z')
    ensures Lower(TrimRight(TrimLeft(name))) == name
  {
    Untrimmed(name);
    assert Lower(name) == name;
  }

  lemma NamesMean()
    ensures Normalize("h264") == "h264" && Normalize("raw") == "h264" && Normalize("low-latency") == "h264"
    ensures Normalize("rtp") == "rtp" && Normalize("udp") == "rtp" && Normalize("ts") == "ts"
  {
    Plain("h264");
    Plain("raw");
    Plain("low-latency");
    Plain("rtp");
    Plain("udp");
    Plain("ts");
  }

  /** Letters compare without their case. */
  lemma LowerExact(s: string, i: nat)
    requires i < |s|
    ensures |Lower(s)| == |s|
    ensures if 65 <= s[i] as int <= 90 then Lower(s)[i] as int == s[i] as int + 32 else Lower(s)[i] == s[i]
  {
  }

  lemma {:induction false} TrimRightMore(s: string, c: char)
    requires IsSpace(c)
    ensures TrimRight(s + [c]) == TrimRight(s)
  {
    assert (s + [c])[..|s|] == s;
  }

  lemma {:induction false} TrimLeftMore(s: string, c: char)
    requires IsSpace(c)
    ensures TrimLeft([c] + s) == TrimLeft(s)
    ensures TrimRight(TrimLeft(s + [c])) == TrimRight(TrimLeft(s))
  {
    assert ([c] + s)[1..] == s;
    if s == [] {
      assert s + [c] == [c] && [c][1..] == [];
    } else if IsSpace(s[0]) {
      assert (s + [c])[1..] == s[1..] + [c];
      TrimLeftMore(s[1..], c);
    } else {
      TrimRightMore(s, c);
    }
  }

  /** Blanks around a name do not matter. */
  lemma BlanksIgnored(v: string, c: char)
    requires IsSpace(c)
    ensures Normalize([c] + v) == Normalize(v) && Normalize(v + [c]) == Normalize(v)
  {
    TrimLeftMore(v, c);
  }

  /** The configuration a settings command leaves, and whether it counts as a
      change that restarts a running stream. */
  function Applied(c: Config, s: Setting): (Config, bool) {
    match s
    case SetQuality(q) => (c.(quality := q), c.quality != q)
    case SetAudio(a) => if a.None? then (c, false) else (c.(audio := a.value), c.audio != a.value)
    case SetEncoder(e) => (c.(encoder := e), c.encoder != e)
    case SetTransport(t) =>
      var n := Normalize(t);
      if n == "h264" || n == "rtp"
      then (c.(transport := n, quality := "ultra"), c.transport != n || c.quality != "ultra")
      else (c.(transport := n), c.transport != n)
  }

  /** A stream restarts for a setting exactly when the setting alters the
      configuration, so sending it again never restarts. */
  lemma RestartsOnlyOnChange(c: Config, s: Setting)
    ensures Applied(c, s).1 <==> Applied(c, s).0 != c
    ensures Applied(Applied(c, s).0, s) == (Applied(c, s).0, false)
  {
    if s.SetTransport? {
      assert Normalize(s.transport) != "h264" && Normalize(s.transport) != "rtp" ==> Normalize(s.transport) == "ts";
    }
  }

  /** Which fields a setting may change, and to what. The low-latency
      transports force the highest quality. */
  lemma AppliedExact(c: Config, s: Setting)
    ensures var d := Applied(c, s).0;
            match s
            case SetQuality(q) => d == Config(q, c.audio, c.encoder, c.transport)
            case SetAudio(a) => d == Config(c.quality, if a.Some? then a.value else c.audio, c.encoder, c.transport)
            case SetEncoder(e) => d == Config(c.quality, c.audio, e, c.transport)
            case SetTransport(t) =>
              d == Config(if Normalize(t) == "ts" then c.quality else "ultra", c.audio, c.encoder, Normalize(t))
  {
  }

  // ------------------------------------------------ whose step an action is

  /** A step of the command or of the goroutine numbered `i`. The accept loop
      of its server is somebody else. */
  predicate Mine(a: L.Action, i: nat) { a.i == i && !a.Drain? }

  function Own(log: seq<L.Action>, i: nat): seq<L.Action> {
    if log == [] then []
    else Own(log[..|log| - 1], i) + if Mine(log[|log| - 1], i) then [log[|log| - 1]] else []
  }

  lemma OwnGrows(log: seq<L.Action>, a: L.Action, i: nat)
    ensures Own(log + [a], i) == Own(log, i) + if Mine(a, i) then [a] else []
  {
    assert (log + [a])[..|log|] == log;
  }

  lemma RunGrows(log: seq<L.Action>, a: L.Action)
    requires L.Exec(L.START, log).Some?
    ensures L.Exec(L.START, log + [a]) == L.Apply(L.Exec(L.START, log).value, a)
  {
    assert (log + [a])[..|log|] == log;
  }

  /** Session `i` stands at `x`, but for its context and its server, which
      others may have cancelled and stopped. */
  predicate At(s: L.Sys, i: nat, x: L.Session) {
    i in s.ss && s.ss[i] == x.(ctx := s.ss[i].ctx, server := s.ss[i].server, stops := s.ss[i].stops)
  }

  lemma OthersStep(s: L.Sys, a: L.Action, i: nat)
    requires i in s.ss && !Mine(a, i) && L.Apply(s, a).Some?
    ensures At(L.Apply(s, a).value, i, s.ss[i])
  {
  }

  /** The steps of `stopServer`, in the source's order. */
  function StopSteps(i: nat, drained: bool): seq<L.Action> {
    [L.Take(i), L.Cancel(i), L.StopSrv(i, drained), L.SetIdle(i)]
  }

  /** The steps of `startServer`. */
  function StartSteps(i: nat, drained: bool, wifi: bool): seq<L.Action> {
    StopSteps(i, drained) + [L.Wifi(i, wifi)] + if wifi then [L.Install(i), L.Spawn(i)] else [L.WifiErr(i)]
  }

  lemma NothingPublished(log: seq<L.Action>, s: L.Sys, i: nat)
    requires L.Exec(L.START, log) == Some(s) && i in s.ss && s.ss[i].run.AtPublish?
    ensures s.ctl.streamSrv == None
  {
    L.Safe(log);
    L.PublishFindsEmpty(s, i);
  }

  class Controller {
    var state: L.CState
    var streamSrv: Option<nat>
    var cancelFn: Option<nat>
    var started: bool
    var cfg: Config

    /** Everything outside this object, what has happened so far, and what the
        other commands and goroutines will try between two steps. */
    var sys: L.Sys
    ghost var log: seq<L.Action>
    const others: seq<seq<L.Action>>
    var turn: nat

    function View(): L.Ctl
      reads this
    {
      L.Ctl(state, streamSrv, cancelFn, started)
    }

    /** The fields are those of the system, and the log is a run that led here. */
    ghost predicate Valid()
      reads this
    {
      View() == sys.ctl && L.Exec(L.START, log) == Some(sys)
    }

    constructor (cfg: Config, others: seq<seq<L.Action>>)
      ensures Valid() && log == [] && this.cfg == cfg && this.others == others && turn == 0
    {
      state, streamSrv, cancelFn, started := L.Idle, None, None, false;
      this.cfg := cfg;
      sys, log := L.START, [];
      this.others, turn := others, 0;
    }

    /** The part of step `a` that lies outside the object; the fields have been
        assigned already. */
    method Did(a: L.Action)
      requires L.Exec(L.START, log) == Some(sys)
      requires L.Apply(sys, a).Some? && View() == L.Apply(sys, a).value.ctl
      modifies this`sys, this`log
      ensures Valid() && log == old(log) + [a] && sys == L.Apply(old(sys), a).value
      ensures forall i: nat :: Own(log, i) == old(Own(log, i)) + if Mine(a, i) then [a] else []
    {
      RunGrows(log, a);
      forall i: nat ensures Own(log + [a], i) == Own(log, i) + if Mine(a, i) then [a] else [] { OwnGrows(log, a, i); }
      sys, log := L.Apply(sys, a).value, log + [a];
    }

    /** A whole step of somebody else. */
    method Other(a: L.Action)
      requires Valid() && L.Apply(sys, a).Some?
      modifies this
      ensures Valid() && log == old(log) + [a] && sys == L.Apply(old(sys), a).value
      ensures forall i: nat :: Own(log, i) == old(Own(log, i)) + if Mine(a, i) then [a] else []
      ensures cfg == old(cfg) && turn == old(turn)
    {
      var c := L.Apply(sys, a).value.ctl;
      state, streamSrv, cancelFn, started := c.state, c.streamSrv, c.cancelFn, c.started;
      Did(a);
    }

    /** Let the others go on: those of their next attempts that are enabled and
        not steps of `i` happen. */
    method Yield(i: nat)
      requires Valid() && i in sys.ss
      modifies this
      ensures Valid() && At(sys, i, old(sys.ss[i])) && Own(log, i) == old(Own(log, i))
      ensures old(log) <= log && cfg == old(cfg) && turn >= old(turn) && (old(turn) < |others| ==> turn > old(turn))
    {
      if turn < |others| {
        var acts := others[turn];
        turn := turn + 1;
        for k := 0 to |acts|
          invariant Valid() && At(sys, i, old(sys.ss[i])) && Own(log, i) == old(Own(log, i))
          invariant old(log) <= log && cfg == old(cfg) && turn > old(turn)
        {
          if !Mine(acts[k], i) && L.Apply(sys, acts[k]).Some? {
            OthersStep(sys, acts[k], i);
            Other(acts[k]);
          }
        }
      }
    }

    /** The first lock region of `stopServer`. */
    method TakeSession(i: nat) returns (cancel: Option<nat>, srv: Option<nat>)
      requires Valid() && i in sys.ss && sys.ss[i].cmd.AtTake?
      modifies this
      ensures Valid() && old(log) <= log && cfg == old(cfg) && turn >= old(turn)
      ensures Own(log, i) == old(Own(log, i)) + [L.Take(i)]
      ensures At(sys, i, old(sys.ss[i]).(cmd := L.AtCancel, cancel := cancel, srv := srv))
    {
      cancel := cancelFn;
      cancelFn := None;
      srv := streamSrv;
      streamSrv := None;
      started := false;
      Did(L.Take(i));
      Yield(i);
    }

    /** `cancel()`, when there is one. */
    method CallCancel(i: nat, cancel: Option<nat>)
      requires Valid() && i in sys.ss && sys.ss[i].cmd.AtCancel? && sys.ss[i].cancel == cancel
      modifies this
      ensures Valid() && old(log) <= log && cfg == old(cfg) && turn >= old(turn)
      ensures Own(log, i) == old(Own(log, i)) + [L.Cancel(i)]
      ensures At(sys, i, old(sys.ss[i]).(cmd := L.AtStopSrv))
    {
      Did(L.Cancel(i));
      Yield(i);
    }

    /** `streamSrv.Stop()`, when there is one. */
    method CallStop(i: nat, srv: Option<nat>, drained: bool)
      requires Valid() && i in sys.ss && sys.ss[i].cmd.AtStopSrv? && sys.ss[i].srv == srv
      modifies this
      ensures Valid() && old(log) <= log && cfg == old(cfg) && turn >= old(turn)
      ensures Own(log, i) == old(Own(log, i)) + [L.StopSrv(i, drained)]
      ensures At(sys, i, old(sys.ss[i]).(cmd := L.AtIdle))
    {
      Did(L.StopSrv(i, drained));
      Yield(i);
    }

    /** `setState`, as the step `a` of whoever calls it. */
    method SetState(st: L.CState, a: L.Action)
      requires Valid() && L.Apply(sys, a).Some? && L.Apply(sys, a).value.ctl == L.InState(sys.ctl, st)
      modifies this
      ensures Valid() && old(log) <= log && cfg == old(cfg) && turn == old(turn)
      ensures Own(log, a.i) == old(Own(log, a.i)) + if Mine(a, a.i) then [a] else []
      ensures sys == L.Apply(old(sys), a).value && state == st && log == old(log) + [a]
    {
      state := st;
      Did(a);
    }

    /** `stopServer`, with any steps of others in between: take the session,
        cancel its context, stop its server, and only then report idle. */
    method StopServer(i: nat, drained: bool)
      requires Valid() && i in sys.ss && sys.ss[i].cmd.AtTake?
      modifies this
      ensures Valid() && old(log) <= log && cfg == old(cfg) && turn >= old(turn)
      ensures Own(log, i) == old(Own(log, i)) + StopSteps(i, drained)
      ensures state.Idle? && i in sys.ss
      ensures At(sys, i, old(sys.ss[i]).(cmd := if old(sys.ss[i].isStart) then L.AtWifi else L.CmdDone,
                                         cancel := sys.ss[i].cancel, srv := sys.ss[i].srv))
    {
      var cancel, srv := TakeSession(i);
      CallCancel(i, cancel);
      CallStop(i, srv, drained);
      SetState(L.Idle, L.SetIdle(i));
    }

    method TestWifi(i: nat, wifi: bool)
      requires Valid() && i in sys.ss && sys.ss[i].cmd.AtWifi?
      modifies this
      ensures Valid() && old(log) <= log && cfg == old(cfg) && turn >= old(turn)
      ensures Own(log, i) == old(Own(log, i)) + [L.Wifi(i, wifi)]
      ensures At(sys, i, old(sys.ss[i]).(cmd := if wifi then L.AtInstall else L.AtWifiErr))
    {
      Did(L.Wifi(i, wifi));
      Yield(i);
    }

    /** The lock region of `startServer`. */
    method InstallCancel(i: nat)
      requires Valid() && i in sys.ss && sys.ss[i].cmd.AtInstall?
      modifies this
      ensures Valid() && old(log) <= log && cfg == old(cfg) && turn >= old(turn)
      ensures Own(log, i) == old(Own(log, i)) + [L.Install(i)]
      ensures At(sys, i, old(sys.ss[i]).(cmd := L.AtSpawn))
    {
      cancelFn := Some(i);
      Did(L.Install(i));
      Yield(i);
    }

    /** The end of `startServer`, with or without a network. */
    method GoOn(i: nat, wifi: bool)
      requires Valid() && i in sys.ss && sys.ss[i].cmd == if wifi then L.AtInstall else L.AtWifiErr
      modifies this
      ensures Valid() && old(log) <= log && cfg == old(cfg) && turn >= old(turn)
      ensures Own(log, i) == old(Own(log, i)) + if wifi then [L.Install(i), L.Spawn(i)] else [L.WifiErr(i)]
      ensures !wifi ==> state.Error?
      ensures i in sys.ss && sys.ss[i].cmd.CmdDone? && sys.ss[i].run == if wifi then L.AtEntry else old(sys.ss[i].run)
    {
      if wifi {
        InstallCancel(i);
        Did(L.Spawn(i));           // go c.runServer(ctx)
      } else {
        SetState(L.Error, L.WifiErr(i));
      }
    }

    /** `startServer`: what `stopServer` does, then the network test, then the
        installation, and the goroutine last. */
    method StartServer(i: nat, drained: bool, wifi: bool)
      requires Valid() && i in sys.ss && sys.ss[i].cmd.AtTake? && sys.ss[i].isStart
      modifies this
      ensures Valid() && old(log) <= log && cfg == old(cfg) && turn >= old(turn)
      ensures Own(log, i) == old(Own(log, i)) + StartSteps(i, drained, wifi)
      ensures !wifi ==> state.Error?
      ensures i in sys.ss && sys.ss[i].cmd.CmdDone? && sys.ss[i].run == if wifi then L.AtEntry else old(sys.ss[i].run)
    {
      StopServer(i, drained);
      Yield(i);
      TestWifi(i, wifi);
      GoOn(i, wifi);
    }

    /** The publication, which overwrites nothing. */
    method PublishServer(i: nat)
      requires Valid() && i in sys.ss && sys.ss[i].run.AtPublish?
      modifies this
      ensures Valid() && old(log) <= log && cfg == old(cfg) && turn >= old(turn)
      ensures old(streamSrv) == None
      ensures Own(log, i) == old(Own(log, i)) + [L.Publish(i)]
      ensures At(sys, i, old(sys.ss[i]).(run := L.AtStreaming))
    {
      NothingPublished(log, sys, i);
      streamSrv := Some(i);
      started := true;
      Did(L.Publish(i));
      Yield(i);
    }

    /** `<-ctx.Done()`. */
    method AwaitCancel(i: nat) returns (ended: bool)
      requires Valid() && i in sys.ss && sys.ss[i].run.Waiting?
      modifies this
      ensures Valid() && old(log) <= log && cfg == old(cfg)
      ensures Own(log, i) == old(Own(log, i)) + if ended then [L.RunEnd(i)] else []
      ensures At(sys, i, old(sys.ss[i]).(run := if ended then L.RunDone else L.Waiting))
      ensures ended <==> sys.ss[i].ctx.Cancelled?
    {
      while !sys.ss[i].ctx.Cancelled? && turn < |others|
        invariant Valid() && At(sys, i, old(sys.ss[i])) && Own(log, i) == old(Own(log, i))
        invariant old(log) <= log && cfg == old(cfg)
        decreases |others| - turn
      {
        Yield(i);
      }
      ended := sys.ss[i].ctx.Cancelled?;
      if ended { Did(L.RunEnd(i)); }
    }

    /** The streaming state was reported since `from`, and stays unless some
        other report has come since. */
    ghost predicate Streams(i: nat, from: nat)
      reads this
    {
      exists k :: && from <= k < |log| && log[k] == L.SetStreaming(i)
                  && ((forall j :: k < j < |log| ==> !L.Reports(log[j])) ==> state.Streaming?)
    }

    /** The rest of `runServer` once the server listens. */
    method Serve(i: nat) returns (ended: bool)
      requires Valid() && i in sys.ss && sys.ss[i].run.AtPublish?
      modifies this
      ensures Valid() && old(log) <= log && cfg == old(cfg)
      ensures Own(log, i) == old(Own(log, i)) + [L.Publish(i), L.SetStreaming(i)] + if ended then [L.RunEnd(i)] else []
      ensures At(sys, i, old(sys.ss[i]).(run := if ended then L.RunDone else L.Waiting))
      ensures Streams(i, old(|log|)) && (ended <==> sys.ss[i].ctx.Cancelled?)
    {
      PublishServer(i);
      ghost var k := |log|;
      SetState(L.Streaming, L.SetStreaming(i));
      assert log[k] == L.SetStreaming(i);
      ended := AwaitCancel(i);
      assert log[k] == L.SetStreaming(i);
      if forall j :: k < j < |log| ==> !L.Reports(log[j]) { L.StateExact(log, k); }
    }

    method EnterGoroutine(i: nat, wifi: bool)
      requires Valid() && i in sys.ss && sys.ss[i].run.AtEntry?
      modifies this
      ensures Valid() && old(log) <= log && cfg == old(cfg) && turn >= old(turn)
      ensures Own(log, i) == old(Own(log, i)) + [L.RunWifi(i, wifi)]
      ensures At(sys, i, old(sys.ss[i]).(run := if wifi then L.AtListen else L.AtErr))
    {
      Did(L.RunWifi(i, wifi));
      Yield(i);
    }

    /** `streamSrv.Start()`, which fails when the port is taken. */
    method OpenListener(i: nat, listens: bool) returns (ok: bool)
      requires Valid() && i in sys.ss && sys.ss[i].run.AtListen?
      modifies this
      ensures Valid() && old(log) <= log && cfg == old(cfg) && turn >= old(turn)
      ensures ok <==> listens && old(sys.port).None?
      ensures Own(log, i) == old(Own(log, i)) + [L.Listen(i, ok)]
      ensures At(sys, i, old(sys.ss[i]).(run := if ok then L.AtPublish else L.AtErr))
    {
      ok := listens && sys.port.None?;
      Did(L.Listen(i, ok));
      Yield(i);
    }

    /** `runServer`, a goroutine of its own: the network test, the listener,
        the publication, and only then the streaming state. It ends when its
        context is cancelled, if that happens before the schedule is over. */
    method RunServer(i: nat, wifi: bool, listens: bool) returns (listening: bool, ended: bool)
      requires Valid() && i in sys.ss && sys.ss[i].run.AtEntry?
      modifies this
      ensures Valid() && old(log) <= log && cfg == old(cfg)
      ensures listening ==> wifi && listens
      ensures Own(log, i) == old(Own(log, i)) + [L.RunWifi(i, wifi)]
                             + (if wifi then [L.Listen(i, listening)] else [])
                             + (if listening then [L.Publish(i), L.SetStreaming(i)] else [L.RunErr(i)])
                             + (if listening && ended then [L.RunEnd(i)] else [])
      ensures i in sys.ss && sys.ss[i].run == if ended then L.RunDone else L.Waiting
      ensures if listening then Streams(i, old(|log|)) else ended && state.Error?
    {
      EnterGoroutine(i, wifi);
      listening := false;
      if wifi { listening := OpenListener(i, listens); }
      if listening {
        ended := Serve(i);
      } else {
        SetState(L.Error, L.RunErr(i));
        ended := true;
      }
    }

    /** The session cases of `HandleCommand`. */
    method HandleSession(i: nat, isStart: bool, drained: bool, wifi: bool)
      requires Valid() && i !in sys.ss
      modifies this
      ensures Valid() && old(log) <= log && cfg == old(cfg)
      ensures Own(log, i) == old(Own(log, i)) + [L.Begin(i, isStart)]
                             + if isStart then StartSteps(i, drained, wifi) else StopSteps(i, drained)
      ensures i in sys.ss && sys.ss[i].cmd.CmdDone? && (sys.ss[i].run.AtEntry? <==> isStart && wifi)
      ensures (!isStart ==> state.Idle?) && (isStart && !wifi ==> state.Error?)
    {
      Did(L.Begin(i, isStart));
      Yield(i);
      if isStart {
        StartServer(i, drained, wifi);
      } else {
        StopServer(i, drained);
      }
    }

    /** The settings cases of `HandleCommand`: store, then tell whether a
        restart follows. */
    method HandleSetting(s: Setting) returns (restart: bool)
      modifies this`cfg
      ensures cfg == Applied(old(cfg), s).0
      ensures restart <==> cfg != old(cfg) && state.Streaming?
    {
      RestartsOnlyOnChange(cfg, s);
      var changed := false;
      match s {
        case SetQuality(q) =>
          changed := cfg.quality != q;
          cfg := cfg.(quality := q);
        case SetAudio(a) =>
          if a.Some? {
            changed := cfg.audio != a.value;
            cfg := cfg.(audio := a.value);
          }
        case SetEncoder(e) =>
          changed := cfg.encoder != e;
          cfg := cfg.(encoder := e);
        case SetTransport(t) =>
          var normalized := Normalize(t);
          changed := cfg.transport != normalized;
          if cfg.transport != normalized { cfg := cfg.(transport := normalized); }
          if normalized == "h264" || normalized == "rtp" {
            if cfg.quality != "ultra" {
              cfg := cfg.(quality := "ultra");
              changed := true;
            }
          }
      }
      restart := changed && state.Streaming?;
    }
  }
}
