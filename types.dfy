/** Machine types, the optional value, and the trace of side effects that the
    connection controller leaves on its collaborators (network stack, stream
    decoder, status LED and buzzer). */
module Types {

  type uint8 = x: int | 0 <= x < 0x100
  type uint16 = x: int | 0 <= x < 0x1_0000
  type uint32 = x: int | 0 <= x < 0x1_0000_0000

  /** A NUL-terminated C string, seen without its terminator. */
  type CString = s: string | '\0' !in s

  datatype Option<T> = None | Some(value: T)

  /** `a - b` on two `uint32_t`: wraps modulo 2^32. */
  function Sub32(a: uint32, b: uint32): uint32
  {
    (a - b) % 0x1_0000_0000
  }

  /** `a + b` on two `uint32_t`: wraps modulo 2^32. */
  function Add32(a: uint32, b: uint32): uint32
  {
    (a + b) % 0x1_0000_0000
  }

  /** The modular difference of two clock readings is the real time between
      them, as long as less than one full clock period has passed. */
  lemma Sub32Elapsed(t0: nat, t1: nat)
    requires t0 <= t1 < t0 + 0x1_0000_0000
    ensures Sub32(t1 % 0x1_0000_0000, t0 % 0x1_0000_0000) == t1 - t0
  {
    var m := 0x1_0000_0000;
    var q0, q1 := t0 / m, t1 / m;
    assert t0 == q0 * m + t0 % m;
    assert t1 == q1 * m + t1 % m;
    if q1 == q0 {
      assert t1 % m - t0 % m == t1 - t0;
    } else {
      assert q1 == q0 + 1;
      assert t1 % m - t0 % m == t1 - t0 - m;
    }
  }

  /** Concatenation regrouped to the right. */
  lemma Assoc<T>(a: seq<T>, b: seq<T>, c: seq<T>)
    ensures a + b + c == a + (b + c)
  {
  }

  /** Dropping past the first part of a concatenation. */
  lemma DropAppend<T>(a: seq<T>, b: seq<T>, k: int)
    requires |a| <= k <= |a| + |b|
    ensures (a + b)[k..] == b[k - |a|..]
  {
  }

  /** Taking no more than the first part of a concatenation. */
  lemma TakeAppend<T>(a: seq<T>, b: seq<T>, k: int)
    requires 0 <= k <= |a|
    ensures (a + b)[..k] == a[..k]
  {
  }

  /** Sounds requested from the status module (`statusNoise`). */
  datatype Noise = NoiseAbort | NoiseOnline | NoiseFail | NoiseTick

  /** LED patterns requested from the status module (`statusLed`). */
  datatype Led = LedUpdate | LedHeartbeat | LedFail

  /** One observable side effect of the controller. */
  datatype Event =
    | NetNew                        // netconn_new: a connection object is allocated
    | NetWrite(request: string)     // netconn_write of the whole request
    | NetShutdownTx                 // netconn_shutdown(conn, rx=false, tx=true)
    | NetClose                      // netconn_close
    | NetDelete                     // netconn_delete: the connection object is freed
    | DecoderConnect(body: string)  // backendConnect(body, length)
    | DecoderHandle(chunk: string)  // backendHandle(chunk, length)
    | DecoderDisconnect             // backendDisconnect()
    | Sound(noise: Noise)           // statusNoise
    | Light(led: Led)               // statusLed
    | SleepSecond                   // one osSleep(1000) step of the failure countdown

  /** Number of events in `t` that satisfy `p`. */
  function Count(t: seq<Event>, p: Event -> bool): (n: nat)
    ensures n <= |t|
  {
    if t == [] then 0 else (if p(t[0]) then 1 else 0) + Count(t[1..], p)
  }

  lemma {:induction false} CountAppend(a: seq<Event>, b: seq<Event>, p: Event -> bool)
    ensures Count(a + b, p) == Count(a, p) + Count(b, p)
  {
    if a == [] {
      assert a + b == b;
    } else {
      assert (a + b)[1..] == a[1..] + b;
      CountAppend(a[1..], b, p);
    }
  }

  lemma {:induction false} CountNone(t: seq<Event>, p: Event -> bool)
    requires forall i :: 0 <= i < |t| ==> !p(t[i])
    ensures Count(t, p) == 0
  {
    if t != [] {
      CountNone(t[1..], p);
    }
  }

  /** A trace with exactly one event that satisfies `p`, at index `k`. */
  lemma {:induction false} CountOne(t: seq<Event>, p: Event -> bool, k: nat)
    requires k < |t| && p(t[k])
    requires forall i :: 0 <= i < |t| && i != k ==> !p(t[i])
    ensures Count(t, p) == 1
  {
    if k == 0 {
      CountNone(t[1..], p);
    } else {
      CountOne(t[1..], p, k - 1);
    }
  }

  predicate IsNetNew(e: Event)
  {
    e.NetNew?
  }

  predicate IsNetDelete(e: Event)
  {
    e.NetDelete?
  }

  /** Connection objects allocated minus connection objects freed: what a
      stretch of the trace adds to the network stack's netconn pool usage. */
  function LiveDelta(t: seq<Event>): int
  {
    Count(t, IsNetNew) - Count(t, IsNetDelete)
  }

  lemma LiveDeltaAppend(a: seq<Event>, b: seq<Event>)
    ensures LiveDelta(a + b) == LiveDelta(a) + LiveDelta(b)
  {
    CountAppend(a, b, IsNetNew);
    CountAppend(a, b, IsNetDelete);
  }
}
