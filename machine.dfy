/** The configured `sWifiTask` state machine (wifi.c:383-487): the four
    connection states, their names, the transition table, and one pass of
    the task loop as a function of what the surroundings answer during it.
    `Wifi.Step` and `Wifi.Run` carry this out on the controller's state. */
module Machine {
  import opened Types
  import opened Http
  import opened Station
  import opened Handshake
  import opened Pump
  import opened Backoff

  /** WIFI_STATE_t. */
  datatype WifiState = StateOffline | StateOnline | StateConnected | StateFail

  /** `sWifiStateStr`. */
  function StateStr(s: WifiState): (r: string)
    ensures r != "???"
  {
    match s
    case StateOffline => "OFFLINE"
    case StateOnline => "ONLINE"
    case StateConnected => "CONNECTED"
    case StateFail => "FAIL"
  }

  /** The state a name stands for: the inverse of StateStr. */
  function StateOfStr(name: string): Option<WifiState>
  {
    if name == "OFFLINE" then Some(StateOffline)
    else if name == "ONLINE" then Some(StateOnline)
    else if name == "CONNECTED" then Some(StateConnected)
    else if name == "FAIL" then Some(StateFail)
    else None
  }

  /** Every state has its own name: reading the name back gives the state. */
  lemma StateStrRoundTrip(s: WifiState)
    ensures StateOfStr(StateStr(s)) == Some(s)
  {
  }

  /** The transition table: `ok` is the outcome of the state's action (the
      station wait, the handshake, or the pump's "reconnect now") and
      `online` the `sWifiIsOnline()` check that follows it. */
  function Next(s: WifiState, ok: bool, online: bool): WifiState
  {
    match s
    case StateOffline => if ok then StateOnline else StateFail
    case StateOnline => if ok then StateConnected else StateFail
    case StateConnected => if !ok then StateFail else if online then StateOnline else StateOffline
    case StateFail => if online then StateOnline else StateOffline
  }

  /** The controller's build-time configuration. */
  datatype Config = Config(intervals: Intervals, build: Build)

  /** The controller's state: `sWifiState`, the static `lastFail`,
      `sWifiData.staIp`, and the trace of calls made so far. */
  datatype Snapshot = Snapshot(state: WifiState, lastFail: uint32, staIp: uint32, trace: seq<Event>)

  /** What the surroundings answer during one pass of the task loop; a pass
      only reads the part its state needs: the station wait's first clock
      reading and polls (OFFLINE), the handshake's answers (ONLINE), the
      pump's passes (CONNECTED), the clock (FAIL), and the final link check
      (CONNECTED and FAIL). */
  datatype Round = Round(
    start: uint32,
    polls: seq<Poll>,
    env: HandshakeEnv,
    passes: seq<Pass>,
    now: uint32,
    link: LinkInfo)

  /** What the pass's action reported. */
  function ActionOk(s: WifiState, cfg: Config, r: Round): bool
  {
    match s
    case StateOffline => WaitOutcome(r.start, r.polls).Some?
    case StateOnline => HandshakeSpec(r.env, cfg.build).outcome == Connected
    case StateConnected => PumpResult(r.passes)
    case StateFail => true
  }

  /** What one pass appends to the trace, by the state it starts in. */
  function PassEvents(cfg: Config, s: Snapshot, r: Round): seq<Event>
  {
    match s.state
    case StateOffline => [Sound(NoiseAbort), Light(LedUpdate)]
    case StateOnline => HandshakeSpec(r.env, cfg.build).events
    case StateConnected => [Sound(NoiseOnline), Light(LedHeartbeat)] + PumpFrom(r.passes, 0).events
    case StateFail =>
      [Sound(NoiseFail), Light(LedFail)] + CountdownEvents(BackoffWait(cfg.intervals, r.now, s.lastFail))
  }

  /** One pass of the task loop. */
  function StepSpec(cfg: Config, s: Snapshot, r: Round): Snapshot
  {
    var t := s.trace + PassEvents(cfg, s, r);
    match s.state
    case StateOffline =>
      var w := WaitOutcome(r.start, r.polls);
      if w.Some? then Snapshot(StateOnline, s.lastFail, w.value, t)
      else Snapshot(StateFail, s.lastFail, s.staIp, t)
    case StateOnline =>
      var h := HandshakeSpec(r.env, cfg.build);
      Snapshot(if h.outcome == Connected then StateConnected else StateFail, s.lastFail, s.staIp, t)
    case StateConnected =>
      var p := PumpFrom(r.passes, 0);
      var next := if p.exit != DecoderReconnect then StateFail
                  else if IsOnline(r.link) then StateOnline else StateOffline;
      Snapshot(next, s.lastFail, s.staIp, t)
    case StateFail =>
      Snapshot(if IsOnline(r.link) then StateOnline else StateOffline, r.now, s.staIp, t)
  }

  /** The task loop over a sequence of passes. */
  function RunSpec(cfg: Config, s: Snapshot, rounds: seq<Round>): Snapshot
    decreases |rounds|
  {
    if rounds == [] then s else RunSpec(cfg, StepSpec(cfg, s, rounds[0]), rounds[1..])
  }

  /** Every pass moves along the transition table, and only the FAIL state's
      pass touches `lastFail`. */
  lemma StepFollowsTable(cfg: Config, s: Snapshot, r: Round)
    ensures StepSpec(cfg, s, r).state == Next(s.state, ActionOk(s.state, cfg, r), IsOnline(r.link))
    ensures StepSpec(cfg, s, r).lastFail == if s.state == StateFail then r.now else s.lastFail
  {
  }

  /** The table is total and FAIL is never kept: after a failure pass the
      controller waits for the station (OFFLINE) or reconnects (ONLINE). */
  lemma FailNeverSticks(s: WifiState, ok: bool, online: bool)
    ensures s == StateFail ==> Next(s, ok, online) in {StateOnline, StateOffline}
    ensures Next(s, ok, online) == StateFail <==> s != StateFail && !ok
  {
  }

  /** A RECONNECT verdict skips the backoff: the pass after it is not FAIL, so
      `lastFail` and the pause are left as they are. */
  lemma ReconnectSkipsBackoff(cfg: Config, s: Snapshot, r: Round)
    requires s.state == StateConnected && PumpResult(r.passes)
    ensures StepSpec(cfg, s, r).state in {StateOnline, StateOffline}
    ensures StepSpec(cfg, s, r).lastFail == s.lastFail
    ensures Sound(NoiseFail) !in PassEvents(cfg, s, r)
  {
    var p := PumpFrom(r.passes, 0).events;
    var t := PassEvents(cfg, s, r);
    PumpEvents(r.passes, 0);
    forall i | 0 <= i < |t| ensures t[i] != Sound(NoiseFail) {
      if i >= 2 {
        assert t[i] == p[i - 2];
      }
    }
  }

  /** The station address changes only on a successful station wait, and then
      to the address the first good poll saw. */
  lemma StaIpOnlyFromWait(cfg: Config, s: Snapshot, r: Round)
    ensures StepSpec(cfg, s, r).staIp != s.staIp ==>
              s.state == StateOffline && WaitOutcome(r.start, r.polls) == Some(StepSpec(cfg, s, r).staIp)
  {
  }

  /** A pass only appends to the trace. */
  lemma {:induction false} RunExtendsTrace(cfg: Config, s: Snapshot, rounds: seq<Round>)
    ensures |s.trace| <= |RunSpec(cfg, s, rounds).trace|
    ensures RunSpec(cfg, s, rounds).trace[..|s.trace|] == s.trace
    decreases |rounds|
  {
    if rounds != [] {
      var s' := StepSpec(cfg, s, rounds[0]);
      assert s'.trace[..|s.trace|] == s.trace;
      RunExtendsTrace(cfg, s', rounds[1..]);
    }
  }

  /** A stretch of trace with no connection object allocated or freed. */
  lemma NoConnectionChange(t: seq<Event>)
    requires forall i :: 0 <= i < |t| ==> !t[i].NetNew? && !t[i].NetDelete?
    ensures LiveDelta(t) == 0
  {
    CountNone(t, IsNetNew);
    CountNone(t, IsNetDelete);
  }

  lemma PumpPassLiveDelta(cfg: Config, s: Snapshot, r: Round)
    requires s.state == StateConnected
    ensures LiveDelta(PassEvents(cfg, s, r)) == 0
  {
    PumpEvents(r.passes, 0);
    NoConnectionChange(PassEvents(cfg, s, r));
  }

  lemma FailPassLiveDelta(cfg: Config, s: Snapshot, r: Round)
    requires s.state == StateFail
    ensures LiveDelta(PassEvents(cfg, s, r)) == 0
  {
    var c := CountdownEvents(BackoffWait(cfg.intervals, r.now, s.lastFail));
    assert LiveDelta(c) == 0 by {
      CountdownCounts(BackoffWait(cfg.intervals, r.now, s.lastFail));
      assert forall i :: 0 <= i < |c| ==> c[i] in c;
      NoConnectionChange(c);
    }
    NoConnectionChange([Sound(NoiseFail), Light(LedFail)]);
    LiveDeltaAppend([Sound(NoiseFail), Light(LedFail)], c);
  }

  /** Connection objects a pass leaves allocated: one per ONLINE pass whose
      handshake connected or failed at the connect call, none otherwise.
      Nothing later in the loop frees them. */
  lemma StepLiveDelta(cfg: Config, s: Snapshot, r: Round)
    ensures var h := HandshakeSpec(r.env, cfg.build);
      LiveDelta(PassEvents(cfg, s, r)) ==
        if s.state == StateOnline && (h.outcome == Connected || h.outcome == Failed(ConnectFailed)) then 1 else 0
  {
    match s.state
    case StateOffline =>
      NoConnectionChange(PassEvents(cfg, s, r));
    case StateOnline =>
      HandshakeLiveDelta(r.env, cfg.build);
    case StateConnected =>
      PumpPassLiveDelta(cfg, s, r);
    case StateFail =>
      FailPassLiveDelta(cfg, s, r);
  }
}
