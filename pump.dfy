/** The stream pump `sWifiHandleConnection` (wifi.c:306-370) as a function of
    what the decoder and the network answer. `Wifi.HandleConnection` runs it
    on the controller's state. */
module Pump {
  import opened Types
  import opened Net

  /** BACKEND_STATUS_t, backendHandle's verdict on a chunk. */
  datatype Verdict = StatusOkay | StatusFail | StatusReconnect

  /** One pass of the pump loop: backendIsOkay's answer, the recv result,
      and the verdict backendHandle gives if the pass reaches it. */
  datatype Pass = Pass(healthy: bool, recv: Recv, verdict: Verdict)

  /** Why the pump loop ended. */
  datatype Exit =
    | NotOkay          // backendIsOkay() said no
    | RecvError        // netconn_recv failed
    | NetbufError      // netbuf_data failed
    | DecoderFail      // backendHandle said FAIL
    | DecoderReconnect // backendHandle said RECONNECT

  datatype PumpRun = PumpRun(exit: Exit, events: seq<Event>)

  /** The pass keeps the loop going: the decoder is healthy and the recv
      either had nothing or brought a chunk the decoder took as OKAY. */
  predicate Continues(t: Pass)
  {
    t.healthy && (t.recv.WouldBlock? || (t.recv.Chunk? && t.verdict.StatusOkay?))
  }

  /** How a pass that does not continue ends the loop. */
  function ExitOf(t: Pass): Exit
    requires !Continues(t)
  {
    if !t.healthy then NotOkay
    else match t.recv
      case RecvFailed => RecvError
      case DataFailed => NetbufError
      case Chunk(_) => if t.verdict.StatusFail? then DecoderFail else DecoderReconnect
  }

  /** The pump from pass `i` on; an exhausted script is a peer that closed
      the connection, so the next recv fails. The trace holds one
      backendHandle per chunk handed over and the closing backendDisconnect. */
  function PumpFrom(ts: seq<Pass>, i: nat): PumpRun
    decreases |ts| - i
  {
    if i >= |ts| then PumpRun(RecvError, [DecoderDisconnect])
    else
      var t := ts[i];
      var handled := if t.healthy && t.recv.Chunk? then [DecoderHandle(t.recv.data)] else [];
      if Continues(t) then
        var rest := PumpFrom(ts, i + 1);
        PumpRun(rest.exit, handled + rest.events)
      else PumpRun(ExitOf(t), handled + [DecoderDisconnect])
  }

  /** `sWifiHandleConnection`'s result: reconnect at once. */
  function PumpResult(ts: seq<Pass>): bool
  {
    PumpFrom(ts, 0).exit == DecoderReconnect
  }

  /** Every pass from `i` up to `k` kept the loop going. */
  predicate ContinuesThrough(ts: seq<Pass>, i: nat, k: nat)
  {
    forall j :: i <= j < k && j < |ts| ==> Continues(ts[j])
  }

  lemma {:induction false} PumpExitAt(ts: seq<Pass>, i: nat, k: nat)
    requires i <= k < |ts| && ContinuesThrough(ts, i, k) && !Continues(ts[k])
    ensures PumpFrom(ts, i).exit == ExitOf(ts[k])
    decreases k - i
  {
    if i < k {
      PumpExitAt(ts, i + 1, k);
    }
  }

  lemma {:induction false} PumpRunsOut(ts: seq<Pass>, i: nat)
    requires ContinuesThrough(ts, i, |ts|)
    ensures PumpFrom(ts, i).exit == RecvError
    decreases |ts| - i
  {
    if i < |ts| {
      PumpRunsOut(ts, i + 1);
    }
  }

  /** When some pass from `i` on stops the loop, a first one does. */
  lemma {:induction false} FirstStop(ts: seq<Pass>, i: nat, j: nat)
    requires i <= j < |ts| && !Continues(ts[j])
    ensures exists k: nat :: i <= k < |ts| && ContinuesThrough(ts, i, k) && !Continues(ts[k])
    decreases |ts| - i
  {
    if Continues(ts[i]) {
      FirstStop(ts, i + 1, j);
      var k: nat :| i + 1 <= k < |ts| && ContinuesThrough(ts, i + 1, k) && !Continues(ts[k]);
      assert ContinuesThrough(ts, i, k);
    } else {
      assert ContinuesThrough(ts, i, i);
    }
  }

  /** The pump returns true exactly when the first pass that stops the loop
      is a healthy one whose chunk the decoder answered with RECONNECT; an
      unhealthy decoder, a recv or netbuf error, and FAIL all give false. */
  lemma PumpResultIff(ts: seq<Pass>)
    ensures PumpResult(ts) <==>
              exists k: nat :: (k < |ts| && ContinuesThrough(ts, 0, k) && !Continues(ts[k])
                && ts[k].healthy && ts[k].recv.Chunk? && ts[k].verdict.StatusReconnect?)
  {
    if exists j: nat :: j < |ts| && !Continues(ts[j]) {
      var j: nat :| j < |ts| && !Continues(ts[j]);
      FirstStop(ts, 0, j);
      var k: nat :| k < |ts| && ContinuesThrough(ts, 0, k) && !Continues(ts[k]);
      PumpExitAt(ts, 0, k);
    } else {
      PumpRunsOut(ts, 0);
    }
    forall k: nat | k < |ts| && ContinuesThrough(ts, 0, k) && !Continues(ts[k])
      ensures PumpFrom(ts, 0).exit == ExitOf(ts[k])
    {
      PumpExitAt(ts, 0, k);
    }
  }

  /** The shape of the pump's trace: backendHandle calls, then
      backendDisconnect as the very last call. */
  lemma {:induction false} PumpEvents(ts: seq<Pass>, i: nat)
    ensures var e := PumpFrom(ts, i).events;
      && |e| >= 1 && e[|e| - 1] == DecoderDisconnect
      && forall j :: 0 <= j < |e| - 1 ==> e[j].DecoderHandle?
    decreases |ts| - i
  {
    if i < |ts| && Continues(ts[i]) {
      PumpEvents(ts, i + 1);
    }
  }

  /** The backendHandle calls a list of passes makes, read pass by pass
      without regard to when the loop stops: one for each pass that found
      the decoder healthy and received a chunk, carrying that chunk, in
      order. */
  function Handles(ps: seq<Pass>): seq<Event>
    decreases |ps|
  {
    if ps == [] then []
    else
      var h := if ps[0].healthy && ps[0].recv.Chunk? then [DecoderHandle(ps[0].recv.data)] else [];
      h + Handles(ps[1..])
  }

  /** When pass `k` is the first from `i` on that stops the loop, the pump's
      calls are the handles of passes `i` to `k`, then backendDisconnect. */
  lemma {:induction false} PumpHandles(ts: seq<Pass>, i: nat, k: nat)
    requires i <= k < |ts| && ContinuesThrough(ts, i, k) && !Continues(ts[k])
    ensures PumpFrom(ts, i).events == Handles(ts[i..k + 1]) + [DecoderDisconnect]
    decreases k - i
  {
    var ps := ts[i..k + 1];
    assert ps[0] == ts[i];
    if i < k {
      PumpHandles(ts, i + 1, k);
      assert ps[1..] == ts[i + 1..k + 1];
      var h := if ts[i].healthy && ts[i].recv.Chunk? then [DecoderHandle(ts[i].recv.data)] else [];
      Assoc(h, Handles(ts[i + 1..k + 1]), [DecoderDisconnect]);
    } else {
      assert ps[1..] == [];
    }
  }

  /** When every pass continues, the pump's calls are the handles of all the
      passes from `i` on, then backendDisconnect. */
  lemma {:induction false} PumpHandlesRunOut(ts: seq<Pass>, i: nat)
    requires i <= |ts| && ContinuesThrough(ts, i, |ts|)
    ensures PumpFrom(ts, i).events == Handles(ts[i..]) + [DecoderDisconnect]
    decreases |ts| - i
  {
    if i < |ts| {
      var ps := ts[i..];
      assert ps[0] == ts[i] && ps[1..] == ts[i + 1..];
      PumpHandlesRunOut(ts, i + 1);
      var h := if ts[i].healthy && ts[i].recv.Chunk? then [DecoderHandle(ts[i].recv.data)] else [];
      Assoc(h, Handles(ts[i + 1..]), [DecoderDisconnect]);
    } else {
      assert ts[i..] == [];
    }
  }

  predicate IsDecoderDisconnect(e: Event)
  {
    e.DecoderDisconnect?
  }

  /** backendDisconnect is called exactly once, whatever ends the loop, and
      the connection is left open. */
  lemma DisconnectOnce(ts: seq<Pass>)
    ensures var e := PumpFrom(ts, 0).events;
      && Count(e, IsDecoderDisconnect) == 1
      && NetClose !in e && NetDelete !in e && NetShutdownTx !in e
  {
    var e := PumpFrom(ts, 0).events;
    PumpEvents(ts, 0);
    CountOne(e, IsDecoderDisconnect, |e| - 1);
  }
}
