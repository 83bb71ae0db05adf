# Connection lifecycle of the tschenggins-laempli firmware, in Dafny

This project models the Wi-Fi connection controller of the Laempli firmware
(`ng/src/wifi.c`) and proves what it does. The controller runs as one task. It
cycles through four states:

- **OFFLINE**: wait for the Wi-Fi station to get an address;
- **ONLINE**: open the HTTP/1.1 stream to the Jenkins status backend;
- **CONNECTED**: pump the stream into the backend decoder;
- **FAIL**: pause, with a backoff that depends on how long ago the
  previous failure was.

The radio, the lwIP TCP stack, the clock and the stream decoder are outside
the file. They become inputs:

- A station poll is a clock reading plus the link status and address.
- A `netconn_recv` result is WOULDBLOCK, a failure, a `netbuf_data`
  failure, or a chunk.
- The decoder's answers are booleans and verdicts.

What the controller does to its surroundings is recorded as a trace of events:

- `netconn_new`, `netconn_write`, `netconn_shutdown`, `netconn_close` and
  `netconn_delete`;
- `backendConnect`, `backendHandle` and `backendDisconnect`;
- `statusNoise` and `statusLed`;
- each second of the failure countdown.

Modules, in dependency order:

| module | file | contents |
|---|---|---|
| `Types` | `types.dfy` | `uint32` arithmetic, C strings, the event trace and counting over it |
| `CText` | `ctext.dfy` | `strlen`'s view of a buffer, `strstr`, `atoi` and `%d` |
| `Http` | `http.dfy` | the POST request that is written, and the parse of the first response chunk |
| `Net` | `net.dfy` | recv results |
| `Station` | `station.dfy` | `sWifiWaitConnect` as a function of the polls, and `sWifiIsOnline` |
| `Handshake` | `handshake.dfy` | `sWifiConnectBackend` as a function of the network and decoder answers |
| `Pump` | `pump.dfy` | `sWifiHandleConnection` as a function of the passes of its loop |
| `Backoff` | `backoff.dfy` | the FAIL state's interval choice and countdown |
| `Machine` | `machine.dfy` | the state names, the transition table, and one pass and many passes of `sWifiTask` |
| `WifiTask` | `wifi.dfy` | class `Wifi` (see below) |

Class `Wifi` holds the controller's globals as fields: `sWifiState`, the
static `lastFail`, `sWifiData.staIp`, and the trace. Its methods are the C
functions, loop for loop. Each method is proved equal to the specification
function of its module.

Five details of the handshake and the backoff, as `ng/src/wifi.c` has them:

- **Version check** (line 258). It compares only the eight bytes
  `HTTP/1.1`, without the space that follows.
- **Status code** (line 263). It is read by `atoi` from offset 9.
- **Body handoff** (lines 274-281). The body handed to `backendConnect`
  starts *at* the blank line `\r\n\r\n`, separator included, and its
  length is `len - offset`.
- **Authorization header** (lines 192-199). It is always sent. The
  credential is empty when the URL has none.
- **Backoff choice** (lines 460-461). The quick interval
  `BACKEND_RECONNECT_INTERVAL` is chosen when *more* than
  `1000 * BACKEND_STABLE_CONN_THRS` ms have passed since the previous
  failure, and the slow one otherwise.

Two consequences of the code as written are proved, not corrected:

- **Leaked connection objects.**
  - After a failed `netconn_connect`, the connection object is neither
    closed nor deleted.
  - After a failed write, it is deleted without being closed.
  - A successful session keeps its connection object (tx half shut). The
    pump never closes or deletes it, and nothing else in the file does.
  - So every ONLINE pass that connects, or fails at the connect call, leaves
    one connection object allocated (`Machine.StepLiveDelta`).
- **Wrapping deadline.** The station wait computes its deadline as
  `now + 30000` in `uint32_t`. That sum wraps. A wait started in the last
  30 s before the millisecond clock wraps therefore ends at its first test,
  without a poll, when that test reads the clock before the wrap
  (`Station.WaitNearWrap`). This is the code's behaviour and the model keeps
  it.

## Model

| member | source | states |
|---|---|---|
| `Machine.StateStr` | ng/src/wifi.c:47-57 | every state has a name, and none of them is the fallback `"???"` |
| `Machine.StateStrRoundTrip` | ng/src/wifi.c:47-57 | the names tell the four states apart: reading a name back gives the state it was printed from |
| `Machine.Next` | ng/src/wifi.c:403-482 | the transition table of the `switch`: the state each state moves to, given whether its action succeeded and what `sWifiIsOnline()` says after it; `StepFollowsTable` and `FailNeverSticks` state its properties |
| `Machine.StepSpec` | ng/src/wifi.c:403-482 | one pass of the task loop on the controller's state: the next state, `lastFail`, the station address and the calls appended; `WifiTask.Wifi.Step` is proved equal to it, and the `Machine` lemmas below state what it does |
| `Machine.StepFollowsTable` | ng/src/wifi.c:403-482 | a pass moves to `Next(state, outcome of the state's action, sWifiIsOnline())`: OFFLINE goes to ONLINE or FAIL; ONLINE goes to CONNECTED or FAIL; CONNECTED goes to FAIL, or to ONLINE or OFFLINE after a "reconnect now"; FAIL goes to ONLINE or OFFLINE. `lastFail` changes only in a FAIL pass, and then to that pass's clock reading |
| `Machine.FailNeverSticks` | ng/src/wifi.c:403-482 | FAIL is always left (to ONLINE or OFFLINE); a pass ends in FAIL exactly when it started elsewhere and its action failed |
| `Machine.ReconnectSkipsBackoff` | ng/src/wifi.c:444-447 | after a RECONNECT verdict the next state is ONLINE or OFFLINE, `lastFail` is unchanged, and the pass sounds no failure noise |
| `Machine.StaIpOnlyFromWait` | ng/src/wifi.c:121-124 | the station address changes only in an OFFLINE pass whose wait succeeded, and then to the address the wait found |
| `Machine.RunExtendsTrace` | ng/src/wifi.c:395-486 | the task loop only appends to the trace of calls |
| `Machine.PumpPassLiveDelta` | ng/src/wifi.c:439-453 | a CONNECTED pass neither allocates nor frees a connection object |
| `Machine.FailPassLiveDelta` | ng/src/wifi.c:456-482 | a FAIL pass neither allocates nor frees a connection object |
| `Machine.StepLiveDelta` | ng/src/wifi.c:403-482 | a pass leaves one more connection object allocated exactly when it is an ONLINE pass whose handshake connected or failed at `netconn_connect`; every other pass leaves the count as it was |
| `Station.IsOnline` | ng/src/wifi.c:375-381 | the station counts as online exactly when its status is GOT_IP and its address is not 0.0.0.0; the task consults it after the pump and after the FAIL countdown (`Machine.StepFollowsTable`) |
| `Station.Deadline` | ng/src/wifi.c:90-91 | the deadline is `now + 30000` when that fits in 32 bits; otherwise it wraps to a value below 30000 |
| `Station.WaitFrom` | ng/src/wifi.c:94-130 | an address the wait records is never 0.0.0.0 |
| `Station.WaitSucceedsIff` | ng/src/wifi.c:86-133 | the wait succeeds exactly when some poll before the deadline sees status GOT_IP with a nonzero address, and then it records the address of the first such poll |
| `Station.WaitNearWrap` | ng/src/wifi.c:90-94 | a wait started in the last 30 s before the clock wraps makes no poll when its first clock reading comes before the wrap |
| `Http.Request` | ng/src/wifi.c:189-201 | the POST request as formatted: request line, Host, Authorization, User-Agent and Content-Length headers, the empty line and the query; the `Http.Request*` lemmas below state its shape |
| `Http.RequestFraming` | ng/src/wifi.c:189-201 | the request starts with `POST /<path> HTTP/1.1\r\n` and ends with a line ending followed by the query |
| `Http.RequestEndsWithBlankLine` | ng/src/wifi.c:194-196 | the request ends with `\r\n\r\n` followed by the query |
| `Http.RequestHasAuthorization` | ng/src/wifi.c:192-199 | the request always holds `Authorization: Basic <credential>\r\n` right after the Host line, with an empty credential when the URL carries none |
| `Http.RequestDeclaresQueryLength` | ng/src/wifi.c:194-200 | `Content-Length: ` follows the User-Agent line, and `atoi` of its value gives the length of the query |
| `Http.RequestIsCString` | ng/src/wifi.c:189-203 | the request holds no NUL, so `strlen(req)` covers all of it and all of it is written |
| `Http.ParseResponse` | ng/src/wifi.c:254-281 | an accepted chunk has the blank line `\r\n\r\n` at the returned offset, with at least ten bytes from there on |
| `Http.ParseResponseSound` | ng/src/wifi.c:254-279 | a chunk whose C string does not start with the eight bytes `HTTP/1.1` is not HTTP; a refused status is the one `atoi` reads at offset 9, and it is not 200; an accepted chunk has status 200 and at least ten bytes of C string from the blank line on |
| `Http.ParseResponseFirstBlankLine` | ng/src/wifi.c:257-274 | for every accepted chunk, the returned offset is the first blank line found in its C string from just after the first line ending |
| `Http.ParseWellFormed` | ng/src/wifi.c:254-281 | round trip: a chunk made of a 200 status line, a plain header block, the blank line and a body is accepted at the blank line, and the body handed on is the separator followed by the body |
| `Http.ParseRejectsOtherVersion` | ng/src/wifi.c:258-262 | a chunk that does not start with `HTTP/1.1` is refused as not HTTP |
| `Http.ParseRejectsStatus` | ng/src/wifi.c:263-270 | a well-formed status line with any code but 200 is refused with that code |
| `Http.ParseBadStatusLine` | ng/src/wifi.c:257-270 | on a NUL-free chunk that starts with the version and has a line ending, a code other than 200 is refused with that code |
| `Http.ParseOkStatusLine` | ng/src/wifi.c:257-279 | on such a chunk with code 200, the verdict is the search for the blank line from just after the first line ending, with the ten-byte minimum |
| `Http.AcceptedAt` | ng/src/wifi.c:271-281 | a chunk with a 200 status line is accepted at the first blank line after that line when ten bytes remain from it |
| `Http.FirstLineEndAfterVersion` | ng/src/wifi.c:257-258 | the first line ending of a chunk that starts with `HTTP/1.1` lies at offset 8 or later, so the search for the blank line starts inside the chunk |
| `Handshake.AwaitReply` | ng/src/wifi.c:216-250 | the wait for the first response chunk: each WOULDBLOCK costs one unit of `helloTimeout`, the first other answer ends the wait; `AwaitReplyAnswer`, `AwaitReplyTimesOut`, `ChunkBeforeTimeout` and `TimeoutAfterBudget` state what it returns |
| `Handshake.AwaitReplyAnswer` | ng/src/wifi.c:217-250 | an answer that arrives after no more WOULDBLOCKs than the budget ends the wait with that answer |
| `Handshake.AwaitReplyTimesOut` | ng/src/wifi.c:221-228 | budget + 1 WOULDBLOCKs in a row end the wait with a timeout |
| `Handshake.ChunkBeforeTimeout` | ng/src/wifi.c:216-250 | a chunk reaches the parser exactly when it is the first answer other than WOULDBLOCK and comes before the 501st WOULDBLOCK |
| `Handshake.TimeoutAfterBudget` | ng/src/wifi.c:216-228 | the wait times out exactly when the first 501 answers are all WOULDBLOCK |
| `Handshake.HandshakeSpec` | ng/src/wifi.c:136-302 | `sWifiConnectBackend` as a function of the network's and the decoder's answers: its outcome and the calls it makes; `WifiTask.Wifi.ConnectBackend` is proved equal to it, and the `Handshake` lemmas state its properties |
| `Handshake.DecoderConnectOnlyIfAccepted` | ng/src/wifi.c:216-282 | `backendConnect` is called at most once, and exactly when a chunk arrived in time and passed the version, status and blank-line checks |
| `Handshake.BodyHandoff` | ng/src/wifi.c:273-281 | `backendConnect` receives the chunk from its first blank line after the first line ending, separator included, and `len - offset` bytes long |
| `Handshake.ConnectedIff` | ng/src/wifi.c:281-301 | the handshake succeeds exactly when a chunk was accepted and the decoder reported ready; then the last call is the tx shutdown, and the connection is neither closed nor deleted |
| `Handshake.FailureTeardown` | ng/src/wifi.c:149-301 | a URL or DNS failure makes no network call; a connect failure leaves the new connection object as it is; a write failure deletes it without closing it; every later failure closes it, then deletes it |
| `Handshake.WritesRequest` | ng/src/wifi.c:186-203 | the only data written is the request built from the endpoint |
| `Handshake.HandshakeLiveDelta` | ng/src/wifi.c:173-301 | a handshake leaves one connection object allocated when it connects or fails at `netconn_connect`, none otherwise |
| `Handshake.ExchangeLiveDelta` | ng/src/wifi.c:290-301 | after the write, the connection object is freed unless the handshake succeeds |
| `Handshake.TeardownLiveDelta` | ng/src/wifi.c:290-301 | the tx shutdown keeps the connection object; the full teardown frees it |
| `Pump.PumpFrom` | ng/src/wifi.c:306-369 | `sWifiHandleConnection` from a given pass of its loop on: why the loop ends and the calls it makes; `WifiTask.Wifi.HandleConnection` is proved equal to it |
| `Pump.PumpExitAt` | ng/src/wifi.c:311-366 | the loop ends at the first pass that does not continue, for that pass's reason |
| `Pump.PumpRunsOut` | ng/src/wifi.c:323-337 | when every pass in the list continues, the loop ends with a recv error: this is the model's stand-in for a peer that closed the connection, not something wifi.c promises (see "Left out") |
| `Pump.PumpResultIff` | ng/src/wifi.c:306-369 | the pump returns true exactly when the first pass that stops the loop has a healthy decoder and a chunk it answered with RECONNECT. An unhealthy decoder, a recv or `netbuf_data` error and FAIL all give false |
| `Pump.PumpEvents` | ng/src/wifi.c:339-368 | the pump's last call is `backendDisconnect`, and every call before it is a `backendHandle`; which chunks those carry is stated by `PumpHandles` and `PumpHandlesRunOut` |
| `Pump.PumpHandles` | ng/src/wifi.c:311-368 | when pass `k` is the first that stops the loop, the calls are one `backendHandle` for each pass up to and including `k` that found the decoder healthy and received a chunk, carrying that chunk, in order, then `backendDisconnect` |
| `Pump.PumpHandlesRunOut` | ng/src/wifi.c:311-368 | when no pass stops the loop, the calls are one `backendHandle` per received chunk of all passes, in order, then `backendDisconnect` |
| `Pump.DisconnectOnce` | ng/src/wifi.c:368-369 | `backendDisconnect` is called exactly once, whatever ends the loop, and the pump neither closes, shuts down nor deletes the connection |
| `Backoff.BackoffWait` | ng/src/wifi.c:458-461 | the interval chosen from the `uint32_t` difference between the clock and `lastFail`; `BackoffByElapsed` states what it means in real time |
| `Backoff.BackoffByElapsed` | ng/src/wifi.c:458-461 | as long as less than one clock period separates two failures, the quick interval is chosen exactly when more than `1000 * BACKEND_STABLE_CONN_THRS` ms have passed, the slow one otherwise |
| `Backoff.CountdownEvents` | ng/src/wifi.c:466-478 | the countdown loop's calls: one second's sleep per pass, with a tick once three seconds or fewer are left; `CountdownShape` and `CountdownCounts` state them in closed form |
| `Backoff.CountdownShape` | ng/src/wifi.c:466-478 | the countdown is silent seconds while more than three are left, then a tick after each of the last (at most three) seconds |
| `Backoff.CountdownCounts` | ng/src/wifi.c:466-478 | the countdown sleeps exactly `waitTime` seconds (none when it is not positive), ticks exactly min(`waitTime`, 3) times, and does nothing else |
| `CText.CStrOfNulFree` | ng/src/wifi.c:257-275 | a buffer without NUL is its own C string |
| `CText.IndexOfFinds` | ng/src/wifi.c:257-274 | `strstr` finds the first occurrence at or after its start |
| `CText.AtoiDecimal` | ng/src/wifi.c:263 | `atoi` reads back what `%d` printed, when no digit follows |
| `WifiTask.Wifi.constructor` | ng/src/wifi.c:80-81 | the controller starts OFFLINE, with `lastFail` 0, no address and an empty trace |
| `WifiTask.Wifi.WaitConnect` | ng/src/wifi.c:86-133 | returns true exactly when the station wait succeeds; the address is recorded only then; nothing else changes |
| `WifiTask.Wifi.ConnectBackend` | ng/src/wifi.c:136-302 | returns true exactly when the handshake connects, and appends the handshake's calls to the trace |
| `WifiTask.Wifi.HandleConnection` | ng/src/wifi.c:306-370 | returns the pump's result and appends the pump's calls to the trace |
| `WifiTask.Wifi.PauseAfterFailure` | ng/src/wifi.c:456-478 | sets `lastFail` to the clock reading; signals the failure; counts the chosen interval down with its ticks; the counter ends at 0 when it started positive |
| `WifiTask.Wifi.Step` | ng/src/wifi.c:403-482 | one pass of the loop changes the controller exactly as `StepSpec` says |
| `WifiTask.Wifi.Run` | ng/src/wifi.c:395-486 | the loop over a sequence of rounds changes the controller exactly as `RunSpec` says |

## Left out

- The build without configuration (the scan-mode task and its callback,
  ng/src/wifi.c:492-552), and `wifiMonStatus`, `wifiInit` and `wifiStart`.
  These are SDK and FreeRTOS set-up and logging.
- The backend URL: how it is built (ng/src/wifi.c:140-145) and how
  `reqParamsFromUrl` splits it. The parser is not part of this model; the
  handshake takes its result as an input, which is `None` when the URL is
  refused. The query string's contents, including `JENKINS_MAX_CH` from
  ng/src/jenkins.h, are likewise part of that input.
- DNS, `netconn_*` and `netbuf_*`: only their results are modelled.
  The trace records `netconn_new`, `netconn_write`, `netconn_shutdown`,
  `netconn_close` and `netconn_delete`. It does not record
  `netconn_gethostbyname`, `netconn_connect`, `netconn_set_nonblocking`,
  `netconn_recv` or `netbuf_data` as calls, only their answers, and it does
  not record freeing the netbufs.
- The NUL terminator of the handshake's chunk. The code does not terminate
  the first response chunk before `strstr`, `strncmp`, `atoi` and `strlen`
  read it (ng/src/wifi.c:245-275, unlike the pump at 354). So on real
  memory these can read past the `len` received bytes. The model reads
  the chunk as if a NUL followed it: the C string is the chunk up to its
  first NUL, or all of it. It therefore does not capture a short body
  accepted because of bytes past the chunk, nor a negative `len - offset`.
- The pump loop running forever. At ng/src/wifi.c:311-366 the loop goes on
  for as long as recv says WOULDBLOCK and the decoder stays healthy. The
  model takes a finite list of passes, and a list that runs out counts as a
  peer that closed the connection, so the next recv fails
  (`Pump.PumpRunsOut` describes this stand-in). A pump that never returns
  is not modelled.
- The backend decoder: `backendConnect`, `backendHandle`, `backendIsOkay`
  and `backendDisconnect` are inputs (`ready`, the verdicts, `healthy`)
  plus trace events.
- The constants of backend.h (`BACKEND_STABLE_CONN_THRS`,
  `BACKEND_RECONNECT_INTERVAL`, `BACKEND_RECONNECT_INTERVAL_SLOW`) and the
  program name and version in the User-Agent are not part of this model.
  They are configuration parameters.
- Timing: `osSleep` and the real passage of time. The clock is the
  readings the polls and the FAIL pass carry. The countdown's seconds and
  the pump's and handshake's sleeps are not timed.
- Logging (DEBUG, PRINT, WARNING, ERROR), the `lastStatus` and `n`
  bookkeeping of the station wait (it only drives logging), and the
  floating-point printout at ng/src/wifi.c:125.
- The NUL bytes written into received buffers (ng/src/wifi.c:264 and 354).
  The one at 264 ends the first line after the status code was read, so
  no check that follows reads it. The one at 354 is beyond the chunk, whose
  length is passed along.
- Http.Request: does not model truncation of the request to its buffer
  size. `snprintf` would cut a request longer than the URL buffer plus 128
  bytes.
- CText.Atoi: does not model C's overflow behaviour. The value is an
  unbounded integer; only the comparison with 200 uses it.
- Backoff.Threshold: keeps `1000 * BACKEND_STABLE_CONN_THRS` as a wrapped
  32-bit value, and not as the signed `int` multiplication it is in C, which
  overflows for thresholds above about 2 million seconds.
- WifiTask.Wifi.Run: the task loop never ends. The model runs it for a
  finite sequence of rounds, one per pass.
- WifiTask.Wifi.ConnectBackend: the request is built as a value. The
  buffers (`sWifiData.url`, `req`) are not modelled, and neither is writing
  into them.
