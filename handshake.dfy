/** The backend handshake of `sWifiConnectBackend` (wifi.c:136-302) as a
    function of what the network and the decoder answer: which calls the
    controller makes on the connection and on the stream decoder, and
    whether it ends up connected. `Wifi.ConnectBackend` runs it on the
    controller's state. */
module Handshake {
  import opened Types
  import opened Net
  import opened CText
  import opened Http

  /** The initial `helloTimeout`: WOULDBLOCK answers tolerated while waiting
      for the first response chunk. */
  const HELLO_TIMEOUT: nat := 5 * 100

  /** How the wait for the first response chunk ends. */
  datatype Reply =
    | Timeout               // helloTimeout dropped below zero
    | ReadFailed            // netconn_recv failed
    | NetbufFailed          // netbuf_data failed
    | Got(data: string)     // a chunk to parse

  /** How a recv result other than WOULDBLOCK ends the wait. */
  function ReplyOf(r: Recv): Reply
    requires !r.WouldBlock?
  {
    match r
    case RecvFailed => ReadFailed
    case DataFailed => NetbufFailed
    case Chunk(d) => Got(d)
  }

  /** The receive loop from recv call `i` on, with `budget` as the current
      `helloTimeout`: each WOULDBLOCK costs one unit, and one more when
      none is left ends the wait. */
  function AwaitReply(rs: seq<Recv>, i: nat, budget: nat): Reply
    decreases budget
  {
    var r := RecvAt(rs, i);
    if r.WouldBlock? then
      if budget == 0 then Timeout else AwaitReply(rs, i + 1, budget - 1)
    else ReplyOf(r)
  }

  /** Every recv call from `i` up to, but not including, `k` said WOULDBLOCK. */
  predicate WaitsThrough(rs: seq<Recv>, i: nat, k: nat)
  {
    forall j :: i <= j < k ==> RecvAt(rs, j).WouldBlock?
  }

  lemma {:induction false} AwaitReplyAnswer(rs: seq<Recv>, i: nat, budget: nat, k: nat)
    requires i <= k <= i + budget
    requires WaitsThrough(rs, i, k) && !RecvAt(rs, k).WouldBlock?
    ensures AwaitReply(rs, i, budget) == ReplyOf(RecvAt(rs, k))
    decreases k - i
  {
    if i < k {
      assert RecvAt(rs, i).WouldBlock?;
      AwaitReplyAnswer(rs, i + 1, budget - 1, k);
    }
  }

  lemma {:induction false} AwaitReplyTimesOut(rs: seq<Recv>, i: nat, budget: nat)
    requires WaitsThrough(rs, i, i + budget + 1)
    ensures AwaitReply(rs, i, budget) == Timeout
    decreases budget
  {
    assert RecvAt(rs, i).WouldBlock?;
    if budget > 0 {
      AwaitReplyTimesOut(rs, i + 1, budget - 1);
    }
  }

  lemma {:induction false} AwaitReplyCases(rs: seq<Recv>, i: nat, budget: nat)
    ensures AwaitReply(rs, i, budget) == Timeout ==> WaitsThrough(rs, i, i + budget + 1)
    ensures AwaitReply(rs, i, budget) != Timeout ==>
              exists k: nat :: (i <= k <= i + budget && WaitsThrough(rs, i, k)
                && !RecvAt(rs, k).WouldBlock? && AwaitReply(rs, i, budget) == ReplyOf(RecvAt(rs, k)))
    decreases budget
  {
    if RecvAt(rs, i).WouldBlock? {
      if budget > 0 {
        AwaitReplyCases(rs, i + 1, budget - 1);
        if AwaitReply(rs, i, budget) != Timeout {
          var k: nat :| i + 1 <= k <= i + budget && WaitsThrough(rs, i + 1, k)
            && !RecvAt(rs, k).WouldBlock? && AwaitReply(rs, i + 1, budget - 1) == ReplyOf(RecvAt(rs, k));
          assert WaitsThrough(rs, i, k);
        }
      }
    } else {
      assert WaitsThrough(rs, i, i);
    }
  }

  /** A chunk reaches the parser exactly when it arrives before the 501st
      WOULDBLOCK, and it is the first non-WOULDBLOCK answer. */
  lemma ChunkBeforeTimeout(rs: seq<Recv>, data: string)
    ensures AwaitReply(rs, 0, HELLO_TIMEOUT) == Got(data) <==>
              exists k: nat :: k <= HELLO_TIMEOUT && WaitsThrough(rs, 0, k) && RecvAt(rs, k) == Chunk(data)
  {
    AwaitReplyCases(rs, 0, HELLO_TIMEOUT);
    if exists k: nat :: k <= HELLO_TIMEOUT && WaitsThrough(rs, 0, k) && RecvAt(rs, k) == Chunk(data) {
      var k: nat :| k <= HELLO_TIMEOUT && WaitsThrough(rs, 0, k) && RecvAt(rs, k) == Chunk(data);
      AwaitReplyAnswer(rs, 0, HELLO_TIMEOUT, k);
    }
  }

  /** Exactly HELLO_TIMEOUT + 1 WOULDBLOCK answers in a row time the wait out. */
  lemma TimeoutAfterBudget(rs: seq<Recv>)
    ensures AwaitReply(rs, 0, HELLO_TIMEOUT) == Timeout <==> WaitsThrough(rs, 0, HELLO_TIMEOUT + 1)
  {
    AwaitReplyCases(rs, 0, HELLO_TIMEOUT);
    if WaitsThrough(rs, 0, HELLO_TIMEOUT + 1) {
      AwaitReplyTimesOut(rs, 0, HELLO_TIMEOUT);
    }
  }

  /** Why a handshake failed. */
  datatype Cause =
    | BadUrl                    // reqParamsFromUrl refused the URL
    | DnsFailed                 // netconn_gethostbyname failed
    | ConnectFailed             // netconn_connect failed
    | WriteFailed               // netconn_write failed
    | NoReply(reply: Reply)     // the wait ended without a chunk
    | Rejected(parsed: Parsed)  // the chunk is not an acceptable response
    | NotReady                  // backendConnect refused the body

  datatype Outcome = Connected | Failed(cause: Cause)

  /** Everything the handshake asks of its surroundings: the endpoint the URL
      decomposes into (None when it does not), the DNS, connect and write
      results, the recv script, and backendConnect's answer. */
  datatype HandshakeEnv = HandshakeEnv(
    endpoint: Option<Endpoint>,
    dnsOk: bool,
    connectOk: bool,
    writeOk: bool,
    replies: seq<Recv>,
    ready: bool)

  datatype Session = Session(outcome: Outcome, events: seq<Event>)

  /** What the end of `sWifiConnectBackend` does to the connection: shut
      down its sending half when the decoder is ready, else close and
      delete it. */
  function Teardown(backendReady: bool): seq<Event>
  {
    if backendReady then [NetShutdownTx] else [NetClose, NetDelete]
  }

  /** What follows the request on a connection, once the wait for the first
      chunk ended with `reply`: the decoder call, if the chunk is accepted,
      and the teardown. */
  function Exchange(reply: Reply, ready: bool): Session
  {
    if !reply.Got? then Session(Failed(NoReply(reply)), Teardown(false))
    else
      var parsed := ParseResponse(reply.data);
      if !parsed.Body? then Session(Failed(Rejected(parsed)), Teardown(false))
      else
        var connect := DecoderConnect(BodyOf(reply.data, parsed.offset));
        Session(if ready then Connected else Failed(NotReady), [connect] + Teardown(ready))
  }

  /** An exchange that never reaches the decoder tears the connection down. */
  lemma ExchangeRefused(reply: Reply, ready: bool)
    requires !reply.Got? || !ParseResponse(reply.data).Body?
    ensures Exchange(reply, ready).outcome != Connected
    ensures Exchange(reply, ready).events == Teardown(false)
  {
  }

  /** An accepted chunk is handed to the decoder, whose answer decides the
      teardown. */
  lemma ExchangeAccepted(data: string, ready: bool)
    requires ParseResponse(data).Body?
    ensures Exchange(Got(data), ready).outcome == Connected <==> ready
    ensures Exchange(Got(data), ready).events
              == [DecoderConnect(BodyOf(data, ParseResponse(data).offset))] + Teardown(ready)
  {
  }

  /** `sWifiConnectBackend`. */
  function HandshakeSpec(env: HandshakeEnv, build: Build): Session
  {
    if env.endpoint.None? then Session(Failed(BadUrl), [])
    else if !env.dnsOk then Session(Failed(DnsFailed), [])
    else if !env.connectOk then Session(Failed(ConnectFailed), [NetNew])
    else
      var request := Request(env.endpoint.value, build);
      if !env.writeOk then Session(Failed(WriteFailed), [NetNew, NetWrite(request), NetDelete])
      else
        var rest := Exchange(AwaitReply(env.replies, 0, HELLO_TIMEOUT), env.ready);
        Session(rest.outcome, [NetNew, NetWrite(request)] + rest.events)
  }

  /** Once the request is written, the handshake's outcome and remaining calls
      are those of the exchange that follows. */
  lemma HandshakeAfterWrite(env: HandshakeEnv, build: Build)
    requires env.endpoint.Some? && env.dnsOk && env.connectOk && env.writeOk
    ensures var rest := Exchange(AwaitReply(env.replies, 0, HELLO_TIMEOUT), env.ready);
      && HandshakeSpec(env, build).outcome == rest.outcome
      && HandshakeSpec(env, build).events == [NetNew, NetWrite(Request(env.endpoint.value, build))] + rest.events
  {
  }

  /** The response chunk the handshake accepts, if any: the first answer
      before the timeout, when it parses to a body. */
  predicate Accepted(env: HandshakeEnv)
  {
    && env.endpoint.Some? && env.dnsOk && env.connectOk && env.writeOk
    && AwaitReply(env.replies, 0, HELLO_TIMEOUT).Got?
    && ParseResponse(AwaitReply(env.replies, 0, HELLO_TIMEOUT).data).Body?
  }

  predicate IsDecoderConnect(e: Event)
  {
    e.DecoderConnect?
  }

  /** backendConnect is called at most once, and exactly when a chunk arrived
      in time and passed the version, status and separator checks. */
  lemma DecoderConnectOnlyIfAccepted(env: HandshakeEnv, build: Build)
    ensures Count(HandshakeSpec(env, build).events, IsDecoderConnect) == (if Accepted(env) then 1 else 0)
  {
    var t := HandshakeSpec(env, build).events;
    if Accepted(env) {
      assert t[0].NetNew? && t[1].NetWrite? && t[2].DecoderConnect?;
      assert forall i :: 3 <= i < |t| ==> t[i].NetShutdownTx? || t[i].NetClose? || t[i].NetDelete?;
      CountOne(t, IsDecoderConnect, 2);
    } else {
      CountNone(t, IsDecoderConnect);
    }
  }

  /** What backendConnect receives: the accepted chunk from its first blank
      line after the status line on, separator included, `len - offset`
      bytes long. */
  lemma BodyHandoff(env: HandshakeEnv, build: Build)
    requires Accepted(env)
    ensures var data := AwaitReply(env.replies, 0, HELLO_TIMEOUT).data;
      var off := ParseResponse(data).offset;
      && HandshakeSpec(env, build).events[2] == DecoderConnect(BodyOf(data, off))
      && BodyOf(data, off)[..4] == BLANK_LINE
      && |BodyOf(data, off)| == |data| - off
      && IndexOf(CStr(data), BLANK_LINE, IndexOf(CStr(data), CRLF, 0).value + 2) == Some(off)
  {
    ParseResponseFirstBlankLine(AwaitReply(env.replies, 0, HELLO_TIMEOUT).data);
  }

  /** The handshake succeeds exactly when a response was accepted and the
      decoder reported ready; then the connection is only half-closed. */
  lemma ConnectedIff(env: HandshakeEnv, build: Build)
    ensures HandshakeSpec(env, build).outcome == Connected <==> Accepted(env) && env.ready
    ensures HandshakeSpec(env, build).outcome == Connected ==>
              var t := HandshakeSpec(env, build).events;
              t[|t| - 1] == NetShutdownTx && NetClose !in t && NetDelete !in t
  {
  }

  /** The teardown on every failure path: nothing before a connection object
      exists; after a connect failure the object is left as it is; after a
      write failure it is deleted without a close; on every later failure it
      is closed, then deleted. */
  lemma FailureTeardown(env: HandshakeEnv, build: Build)
    ensures var s := HandshakeSpec(env, build);
      && (s.outcome.Failed? && (s.outcome.cause.BadUrl? || s.outcome.cause.DnsFailed?) ==> s.events == [])
      && (s.outcome == Failed(ConnectFailed) ==> s.events == [NetNew])
      && (s.outcome == Failed(WriteFailed) ==>
            |s.events| == 3 && s.events[2] == NetDelete && NetClose !in s.events)
      && ((s.outcome.Failed? && (s.outcome.cause.NoReply? || s.outcome.cause.Rejected? || s.outcome.cause.NotReady?))
            ==> |s.events| >= 4 && s.events[|s.events| - 2..] == [NetClose, NetDelete])
  {
  }

  /** The request written is the one Request builds from the endpoint. */
  lemma WritesRequest(env: HandshakeEnv, build: Build)
    ensures forall e :: e in HandshakeSpec(env, build).events && e.NetWrite? ==>
              env.endpoint.Some? && e.request == Request(env.endpoint.value, build)
  {
  }

  /** Connection objects a handshake leaves allocated: one after a connect
      failure (never deleted) and one after success (kept for the stream),
      none otherwise. */
  lemma HandshakeLiveDelta(env: HandshakeEnv, build: Build)
    ensures var s := HandshakeSpec(env, build);
      LiveDelta(s.events) == (if s.outcome == Connected || s.outcome == Failed(ConnectFailed) then 1 else 0)
  {
    var t := HandshakeSpec(env, build).events;
    if env.endpoint.None? || !env.dnsOk {
      CountNone(t, IsNetNew);
      CountNone(t, IsNetDelete);
    } else if !env.connectOk {
      CountOne(t, IsNetNew, 0);
      CountNone(t, IsNetDelete);
    } else if !env.writeOk {
      CountOne(t, IsNetNew, 0);
      CountOne(t, IsNetDelete, 2);
    } else {
      var head := [NetNew, NetWrite(Request(env.endpoint.value, build))];
      var reply := AwaitReply(env.replies, 0, HELLO_TIMEOUT);
      HandshakeAfterWrite(env, build);
      CountOne(head, IsNetNew, 0);
      CountNone(head, IsNetDelete);
      ExchangeLiveDelta(reply, env.ready);
      LiveDeltaAppend(head, Exchange(reply, env.ready).events);
    }
  }

  /** The exchange deletes the connection object unless the handshake
      succeeds. */
  lemma ExchangeLiveDelta(reply: Reply, ready: bool)
    ensures var x := Exchange(reply, ready);
      LiveDelta(x.events) == (if x.outcome == Connected then 0 else -1)
  {
    if !reply.Got? || !ParseResponse(reply.data).Body? {
      ExchangeRefused(reply, ready);
      TeardownLiveDelta(false);
    } else {
      var data := reply.data;
      var connect := DecoderConnect(BodyOf(data, ParseResponse(data).offset));
      ExchangeAccepted(data, ready);
      CountNone([connect], IsNetNew);
      CountNone([connect], IsNetDelete);
      TeardownLiveDelta(ready);
      LiveDeltaAppend([connect], Teardown(ready));
    }
  }

  /** The half-close keeps the connection object; the full teardown deletes it. */
  lemma TeardownLiveDelta(backendReady: bool)
    ensures LiveDelta(Teardown(backendReady)) == (if backendReady then 0 else -1)
  {
    var t := Teardown(backendReady);
    CountNone(t, IsNetNew);
    if backendReady {
      CountNone(t, IsNetDelete);
    } else {
      CountOne(t, IsNetDelete, 1);
    }
  }
}
