/** Station side of the controller: the link check `sWifiIsOnline`
    (wifi.c:375-381) and the wait for the station to come up,
    `sWifiWaitConnect` (wifi.c:86-133), as functions of the radio's answers.
    The method that runs the wait on the controller's state is
    `Wifi.WaitConnect`. */
module Station {
  import opened Types

  /** WIFI_CONNECT_TIMEOUT, in seconds. */
  const WIFI_CONNECT_TIMEOUT: nat := 30

  /** `sdk_wifi_station_get_connect_status()`. */
  datatype StationStatus = Idle | Connecting | WrongPassword | NoApFound | ConnectFail | GotIp

  /** The status and the station address (`ipinfo.ip.addr`) read together. */
  datatype LinkInfo = LinkInfo(status: StationStatus, ip: uint32)

  /** One pass of the wait loop: the clock reading of its `osTime() < timeout`
      test and the link seen right after it. */
  datatype Poll = Poll(clock: uint32, link: LinkInfo)

  /** `sWifiIsOnline`: the station has an address and it is not 0.0.0.0. */
  predicate IsOnline(link: LinkInfo)
  {
    link.status == GotIp && link.ip != 0
  }

  /** `now + WIFI_CONNECT_TIMEOUT * 1000` in `uint32_t`: wraps. */
  function Deadline(start: uint32): (d: uint32)
    ensures start + WIFI_CONNECT_TIMEOUT * 1000 < 0x1_0000_0000 ==> d == start + WIFI_CONNECT_TIMEOUT * 1000
    ensures start + WIFI_CONNECT_TIMEOUT * 1000 >= 0x1_0000_0000 ==> d < WIFI_CONNECT_TIMEOUT * 1000
  {
    Add32(start, WIFI_CONNECT_TIMEOUT * 1000)
  }

  /** The wait from poll `i` on: stops at the first clock reading not before
      the deadline (or when the polls run out) with None, or at the first
      poll that sees the station online, with its address. */
  function WaitFrom(deadline: uint32, polls: seq<Poll>, i: nat): (r: Option<uint32>)
    ensures r.Some? ==> r.value != 0
    decreases |polls| - i
  {
    if i >= |polls| || polls[i].clock >= deadline then None
    else if IsOnline(polls[i].link) then Some(polls[i].link.ip)
    else WaitFrom(deadline, polls, i + 1)
  }

  /** The address `sWifiWaitConnect` records when it returns true, None when
      it returns false; `start` is its first `osTime()`. */
  function WaitOutcome(start: uint32, polls: seq<Poll>): Option<uint32>
  {
    WaitFrom(Deadline(start), polls, 0)
  }

  /** Poll `k` is the first poll from `i` on that sees the station online, and
      every poll from `i` up to it was taken before the deadline. */
  predicate FirstOnline(deadline: uint32, polls: seq<Poll>, i: nat, k: nat)
  {
    && i <= k < |polls|
    && (forall j :: i <= j <= k ==> polls[j].clock < deadline)
    && IsOnline(polls[k].link)
    && (forall j :: i <= j < k ==> !IsOnline(polls[j].link))
  }

  lemma {:induction false} WaitFromFinds(deadline: uint32, polls: seq<Poll>, i: nat, k: nat)
    requires FirstOnline(deadline, polls, i, k)
    ensures WaitFrom(deadline, polls, i) == Some(polls[k].link.ip)
    decreases k - i
  {
    if i < k {
      WaitFromFinds(deadline, polls, i + 1, k);
    }
  }

  lemma {:induction false} WaitFromSound(deadline: uint32, polls: seq<Poll>, i: nat)
    requires WaitFrom(deadline, polls, i).Some?
    ensures exists k: nat ::
              (FirstOnline(deadline, polls, i, k) && WaitFrom(deadline, polls, i) == Some(polls[k].link.ip))
    decreases |polls| - i
  {
    if !IsOnline(polls[i].link) {
      WaitFromSound(deadline, polls, i + 1);
      var k: nat :| FirstOnline(deadline, polls, i + 1, k)
        && WaitFrom(deadline, polls, i + 1) == Some(polls[k].link.ip);
      assert FirstOnline(deadline, polls, i, k);
    } else {
      assert FirstOnline(deadline, polls, i, i);
    }
  }

  /** The wait succeeds exactly when some poll before the deadline sees the
      station online, and the address it records is the one the first such
      poll saw. */
  lemma WaitSucceedsIff(start: uint32, polls: seq<Poll>)
    ensures WaitOutcome(start, polls).Some? <==> exists k: nat :: FirstOnline(Deadline(start), polls, 0, k)
    ensures forall k: nat :: FirstOnline(Deadline(start), polls, 0, k) ==>
              WaitOutcome(start, polls) == Some(polls[k].link.ip)
  {
    if WaitOutcome(start, polls).Some? {
      WaitFromSound(Deadline(start), polls, 0);
    }
    forall k: nat | FirstOnline(Deadline(start), polls, 0, k)
      ensures WaitOutcome(start, polls) == Some(polls[k].link.ip)
    {
      WaitFromFinds(Deadline(start), polls, 0, k);
    }
  }

  /** As written, the deadline wraps: a wait that starts in the last 30 s
      before the millisecond clock wraps around ends at its first test,
      without a single poll, as long as that test reads the clock before the
      wrap. */
  lemma WaitNearWrap(start: uint32, polls: seq<Poll>)
    requires start + WIFI_CONNECT_TIMEOUT * 1000 >= 0x1_0000_0000
    requires |polls| > 0 && polls[0].clock >= start
    ensures WaitOutcome(start, polls) == None
  {
  }
}
