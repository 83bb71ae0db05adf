/** The controller itself: the globals of wifi.c (`sWifiState`, the static
    `lastFail`, `sWifiData.staIp`) as fields of one object whose methods are
    the file's functions, loop for loop, each proved to do what the
    specification functions of the other modules say. The calls the
    controller makes on the network stack, the decoder and the status module
    are appended to `trace`. */
module WifiTask {
  import opened Types
  import opened Http
  import opened Net
  import opened Station
  import opened Handshake
  import opened Pump
  import opened Backoff
  import opened Machine

  class Wifi {
    var state: WifiState
    var lastFail: uint32
    var staIp: uint32
    var trace: seq<Event>
    const cfg: Config

    /** Static storage starts zeroed: OFFLINE, no failure yet, no address. */
    constructor(cfg: Config)
      ensures Snap() == Snapshot(StateOffline, 0, 0, [])
      ensures this.cfg == cfg
    {
      this.cfg := cfg;
      state := StateOffline;
      lastFail := 0;
      staIp := 0;
      trace := [];
    }

    function Snap(): Snapshot
      reads this
    {
      Snapshot(state, lastFail, staIp, trace)
    }

    /** `sWifiWaitConnect`: poll the station until the deadline; record the
        address of the first poll that sees it online. */
    method WaitConnect(start: uint32, polls: seq<Poll>) returns (connected: bool)
      modifies this
      ensures connected <==> WaitOutcome(start, polls).Some?
      ensures staIp == if connected then WaitOutcome(start, polls).value else old(staIp)
      ensures state == old(state) && lastFail == old(lastFail) && trace == old(trace)
    {
      connected := false;
      var timeout := Add32(start, WIFI_CONNECT_TIMEOUT * 1000);
      var i := 0;
      while i < |polls| && polls[i].clock < timeout
        invariant 0 <= i <= |polls|
        invariant WaitFrom(timeout, polls, i) == WaitOutcome(start, polls)
        invariant !connected && unchanged(this)
        decreases |polls| - i
      {
        var link := polls[i].link;
        if IsOnline(link) {
          staIp := link.ip;
          connected := true;
          break;
        }
        i := i + 1;
      }
    }

    /** `sWifiConnectBackend`: look up and connect to the backend, send the
        request, wait for the first chunk, check it and hand the body to the
        decoder; keep the connection (tx half shut) when the decoder is
        ready, else tear it down. */
    method ConnectBackend(env: HandshakeEnv) returns (ok: bool)
      modifies this
      ensures ok <==> HandshakeSpec(env, cfg.build).outcome == Connected
      ensures trace == old(trace) + HandshakeSpec(env, cfg.build).events
      ensures state == old(state) && lastFail == old(lastFail) && staIp == old(staIp)
    {
      if env.endpoint.None? {
        return false;
      }
      if !env.dnsOk {
        return false;
      }
      trace := trace + [NetNew];
      if !env.connectOk {
        return false;
      }
      var request := Request(env.endpoint.value, cfg.build);
      trace := trace + [NetWrite(request)];
      if !env.writeOk {
        trace := trace + [NetDelete];
        return false;
      }
      ghost var sent := trace;
      assert sent == old(trace) + [NetNew, NetWrite(request)];
      ghost var reply := AwaitReply(env.replies, 0, HELLO_TIMEOUT);
      var backendReady := false;
      var helloTimeout: int := HELLO_TIMEOUT;
      var i := 0;
      while true
        invariant 0 <= helloTimeout <= HELLO_TIMEOUT
        invariant AwaitReply(env.replies, i, helloTimeout) == reply
        invariant trace == sent && !backendReady
        decreases helloTimeout
      {
        var r := RecvAt(env.replies, i);
        i := i + 1;
        if r.WouldBlock? {
          helloTimeout := helloTimeout - 1;
          if helloTimeout < 0 {
            ExchangeRefused(reply, env.ready);
            break;
          }
          continue;
        }
        if !r.Chunk? {
          ExchangeRefused(reply, env.ready);
          break;
        }
        var parsed := ParseResponse(r.data);
        if !parsed.Body? {
          ExchangeRefused(reply, env.ready);
          break;
        }
        ExchangeAccepted(r.data, env.ready);
        var connect := DecoderConnect(BodyOf(r.data, parsed.offset));
        Assoc(trace, [connect], Teardown(env.ready));
        trace := trace + [connect];
        backendReady := env.ready;
        break;
      }
      HandshakeAfterWrite(env, cfg.build);
      Assoc(old(trace), [NetNew, NetWrite(request)], Exchange(reply, env.ready).events);
      if backendReady {
        trace := trace + Teardown(true);
        return true;
      }
      trace := trace + Teardown(false);
      return false;
    }

    /** `sWifiHandleConnection`: feed received chunks to the decoder until it,
        the network or the decoder's health check ends the stream; then
        disconnect the decoder. True means "reconnect now". */
    method HandleConnection(passes: seq<Pass>) returns (res: bool)
      modifies this
      ensures res == PumpResult(passes)
      ensures trace == old(trace) + PumpFrom(passes, 0).events
      ensures state == old(state) && lastFail == old(lastFail) && staIp == old(staIp)
    {
      res := true;
      var keepGoing := true;
      var i := 0;
      while keepGoing
        invariant 0 <= i <= |passes|
        invariant state == old(state) && lastFail == old(lastFail) && staIp == old(staIp)
        invariant keepGoing ==> res
        invariant keepGoing ==> trace + PumpFrom(passes, i).events == old(trace) + PumpFrom(passes, 0).events
        invariant keepGoing ==> PumpFrom(passes, i).exit == PumpFrom(passes, 0).exit
        invariant !keepGoing ==> res == PumpResult(passes)
        invariant !keepGoing ==> trace + [DecoderDisconnect] == old(trace) + PumpFrom(passes, 0).events
        decreases |passes| - i + (if keepGoing then 1 else 0)
      {
        var t := if i < |passes| then passes[i] else Pass(true, RecvFailed, StatusOkay);
        if !t.healthy {
          res := false;
          keepGoing := false;
          break;
        }
        if t.recv.WouldBlock? {
          i := i + 1;
          continue;
        }
        if t.recv.RecvFailed? {
          res := false;
          break;
        }
        if t.recv.DataFailed? {
          keepGoing := false;
          res := false;
        } else {
          ghost var before := trace;
          trace := trace + [DecoderHandle(t.recv.data)];
          match t.verdict
          case StatusOkay =>
            Assoc(before, [DecoderHandle(t.recv.data)], PumpFrom(passes, i + 1).events);
          case StatusFail =>
            keepGoing := false;
            res := false;
            Assoc(before, [DecoderHandle(t.recv.data)], [DecoderDisconnect]);
          case StatusReconnect =>
            keepGoing := false;
            res := true;
            Assoc(before, [DecoderHandle(t.recv.data)], [DecoderDisconnect]);
        }
        i := i + 1;
      }
      trace := trace + [DecoderDisconnect];
    }

    /** The FAIL state's pause: choose the interval from the time since the
        previous failure, remember this failure, signal it, and count the
        seconds down, ticking during the last three. Returns the counter's
        final value. */
    method PauseAfterFailure(now: uint32) returns (waitTime: int)
      modifies this
      ensures lastFail == now
      ensures trace == old(trace) + [Sound(NoiseFail), Light(LedFail)]
                       + CountdownEvents(BackoffWait(cfg.intervals, now, old(lastFail)))
      ensures waitTime == if BackoffWait(cfg.intervals, now, old(lastFail)) > 0 then 0
                          else BackoffWait(cfg.intervals, now, old(lastFail))
      ensures state == old(state) && staIp == old(staIp)
    {
      waitTime := BackoffWait(cfg.intervals, now, lastFail);
      ghost var chosen := waitTime;
      lastFail := now;
      trace := trace + [Sound(NoiseFail), Light(LedFail)];
      ghost var signalled := trace;
      while waitTime > 0
        invariant trace + CountdownEvents(waitTime) == signalled + CountdownEvents(chosen)
        invariant chosen > 0 ==> 0 <= waitTime
        invariant chosen <= 0 ==> waitTime == chosen
        invariant lastFail == now && state == old(state) && staIp == old(staIp)
        decreases waitTime
      {
        ghost var before := trace;
        trace := trace + [SleepSecond];
        if waitTime <= 3 {
          trace := trace + [Sound(NoiseTick)];
        }
        assert trace == before + CountdownStep(waitTime);
        Assoc(before, CountdownStep(waitTime), CountdownEvents(waitTime - 1));
        waitTime := waitTime - 1;
      }
      assert trace == signalled + CountdownEvents(chosen);
    }

    /** One pass of `sWifiTask`'s loop: the action of the current state and
        the transition it leads to. */
    method Step(r: Round)
      modifies this
      ensures Snap() == StepSpec(cfg, old(Snap()), r)
    {
      ghost var t0 := trace;
      match state
      case StateOffline =>
        trace := trace + [Sound(NoiseAbort), Light(LedUpdate)];
        var connected := WaitConnect(r.start, r.polls);
        state := if connected then StateOnline else StateFail;
      case StateOnline =>
        var ok := ConnectBackend(r.env);
        state := if ok then StateConnected else StateFail;
      case StateConnected =>
        trace := trace + [Sound(NoiseOnline), Light(LedHeartbeat)];
        var res := HandleConnection(r.passes);
        Assoc(t0, [Sound(NoiseOnline), Light(LedHeartbeat)], PumpFrom(r.passes, 0).events);
        if res {
          state := if IsOnline(r.link) then StateOnline else StateOffline;
        } else {
          state := StateFail;
        }
      case StateFail =>
        var _ := PauseAfterFailure(r.now);
        Assoc(t0, [Sound(NoiseFail), Light(LedFail)], CountdownEvents(BackoffWait(cfg.intervals, r.now, old(lastFail))));
        state := if IsOnline(r.link) then StateOnline else StateOffline;
    }

    /** `sWifiTask`'s loop, for as many passes as there are rounds. */
    method Run(rounds: seq<Round>)
      modifies this
      ensures Snap() == RunSpec(cfg, old(Snap()), rounds)
    {
      var k := 0;
      while k < |rounds|
        invariant 0 <= k <= |rounds|
        invariant RunSpec(cfg, Snap(), rounds[k..]) == RunSpec(cfg, old(Snap()), rounds)
      {
        assert rounds[k..][1..] == rounds[k + 1..];
        Step(rounds[k]);
        k := k + 1;
      }
    }
  }
}
