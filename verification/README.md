# Transaction-tracker ingest pipeline: a Dafny model

The real-time transaction tracker is fed by a small Python pipeline. This
project models that pipeline and proves properties about it. It has four
parts:

- **Log-line parser** (`parse_line`, identical in `poster.py` and
  `scrips/realtime.py`). It turns `STATUS|Key:Value|Flag` into a map of
  fields. Blank lines give nothing. The head piece becomes `Status`. Each
  later piece is split at its first `:`. A piece with no `:` gets the empty
  value, and a later key overwrites an earlier one. `poster.py` sends every
  parsed line.
- **Real-time replay** (`scrips/realtime.py`). It reads each line's `Uxt`
  time of day with `parse_uxt` and waits before sending, so the original
  gaps are reproduced. A gap of 10 s or more is cut to 1 s. Gaps of zero or
  less give no wait. Each line whose time parses replaces the reference
  time, even with an earlier time; other lines leave it unchanged.
- **Demo traffic generator** (`python/udpGenerator.py`). It sends copies of a
  fixed template. `Status` cycles START, INFO, SUCCESS, and each group of
  three packets gets a new `Tid`.
- **UDP-to-WebSocket relay** (`python/udpSock.py`). It counts every
  datagram. A datagram that decodes is tagged with `_src_ip` and
  `_recv_ts_ms` and offered to a bounded queue (4000 entries) per connected
  client. A full queue counts a drop instead. Each IP keeps at most one
  client: a new connection from the same IP evicts the old one. A
  replaced client's cleanup never removes its successor. A periodic report
  prints the counter differences since the last report.

Modules: `Wrappers` (the optional value), `Text` (Python string
operations), `LogLine`, `Replay`, `Generator`, `Relay`.

Modelling choices:

- Times of day are integers counting microseconds since midnight. This is
  the resolution of Python's `datetime` differences, so each wait is an
  exact integer number of microseconds.
- `str.strip()` uses CPython's full whitespace set, applied to Unicode
  scalar values.
- `datetime.strptime(s, "%H:%M:%S.%f")` is modelled as its grammar:
  `H`, `M` and `S` have one or two ASCII digits, with `H` ≤ 23 and `M` ≤ 59.
  `S` ≤ 59: the pattern also admits 60 and 61, but building the `datetime`
  then fails and the bare `except` turns that into `None`. `F` has one to
  six digits, right-padded to microseconds. A missing `Uxt` gives `None`,
  as the `TypeError` caught by the same `except` does.
- `uuid.uuid4()` is a parameter `ids: nat -> string`; `ids(k)` is the k-th
  identifier minted. Freshness is the hypothesis `Injective(ids)`.
- Wall-clock readings are a parameter: one `WallClock` per packet, whose
  fields are independent of each other (see `Generator.UxtRoundTrip` under
  "## Left out").
- `TEMPLATE` is the immutable constant `Generator.Template`. Each packet is
  a new map built from it, so the template is never modified.
- The relay's WebSocket connection objects are identified by `ClientId`.
  Cleanup, a datagram's arrival and a writer's `q.get()` are each one atomic
  step: on the single event loop none of them awaits part-way through its
  changes to the shared state. Registration is not atomic in the program:
  after evicting a still-connected predecessor it awaits that predecessor's
  close while holding the registration lock, and datagrams and other
  clients' cleanups run in that gap. The lock only keeps other
  registrations out. The model treats that registration as the
  predecessor's `Disconnect` followed by the new client's `Connect`.
  `Relay.RegisterIsEvictThenConnect` shows that the pair reaches the same
  state as `Relay.Register` in one step. Whatever runs in the gap appears
  as events between the two.
- A relay payload is the decoded, tagged JSON object. Its byte serialisation
  is not modelled.
- `Replay` recomputes `parse_line` on the raw lines. It shows that the
  replay sender sends exactly the records the poster sends, each once and in
  order.

The repository's browser-side tracker is not modelled. This model covers
the Python ingest pipeline.

## Model

| member | source | states |
|---|---|---|
| Text.StripSpec | poster.py:8-11 | `strip()` returns the slice of the line with only whitespace around it. The result neither starts nor ends with whitespace. It is empty exactly when the line is blank. |
| Text.Split | poster.py:13 | `split` on the pipe character gives at least one piece. No piece contains the separator, and joining the pieces with it gives back the line. |
| Text.SplitUnique | poster.py:13 | `Split` is the only cut into separator-free pieces that joins back to the string. |
| Text.IndexOf | poster.py:20-21 | The first `:` of a segment: the character at that index is `:` and no earlier character is. |
| LogLine.SegmentSplit | poster.py:20-25 | The key of a segment never holds `:`. With a colon, `split(":", 1)` gives key, colon and value that rebuild the segment, so the value may itself contain `:`. Without one, the segment is its own key with the empty string as value. |
| LogLine.Absorb | poster.py:19-25 | After the loop over the later pieces, the keys are the starting keys plus the key of every piece. |
| LogLine.AbsorbLastWins | poster.py:19-25 | Pieces are applied left to right: a key ends with the value of its last piece, and a key that no piece carries keeps its earlier value. |
| LogLine.ParseLine | poster.py:7-27 | The parse is None exactly when the line is blank after stripping. A non-blank line always yields a map containing `Status`. |
| LogLine.ParseLineKeys | poster.py:13-25 | The keys of a parsed line are `Status` plus the key of every later piece; a piece without `:` contributes itself as a key. |
| LogLine.ParseLineValues | scrips/realtime.py:9-26 | Each key holds the value of its last piece. `Status` holds the head piece unless a later piece is keyed `Status`, which then overrides it. |
| LogLine.HeadPiece | poster.py:13-16 | The default `Status` is the stripped line up to, not including, its first pipe character, or the whole stripped line. |
| LogLine.PosterSendsEveryNonBlankLine | poster.py:46-49 | The `if parsed:` check drops only blank lines: one record is sent per non-blank line, and each contains `Status`. |
| Replay.FractionMicros | scrips/realtime.py:32 | A `%f` field denotes less than one second of microseconds. |
| Replay.ParseUxt | scrips/realtime.py:29-34 | A missing `Uxt` gives None. Every accepted time is a time of day below 24 h. |
| Replay.ParseUxtAccepts | scrips/realtime.py:29-34 | Every `H:M:S.F` text with fields in range parses to the time of day it spells. |
| Replay.ParseUxtOnlyShape | scrips/realtime.py:29-34 | Only texts of shape `H:M:S.F` parse. |
| Replay.ParseUxtGrammar | scrips/realtime.py:29-34 | `parse_uxt` succeeds exactly on `H:M:S.F` texts, and on them yields the denoted time. |
| Replay.Pace | scrips/realtime.py:63-71 | The wait is always under 10 s. It is positive only when both times parsed and time moved forward. A gap of 10 s or more waits exactly 1 s, and a gap strictly between 0 and 10 s is waited in full. |
| Replay.Replay | scrips/realtime.py:51-76 | The sends are exactly the poster's records, each once and in order, whatever the timing. Each wait is under 10 s and happens only on a line whose time parsed. A known reference time stays known. The wait of each send is fixed by `Replay.ReplayWaits`. |
| Replay.ReplayReference | scrips/realtime.py:75-76 | After any run of lines, the reference time is that of the last sent line whose time parsed. If no line's time parsed, it is the starting reference. |
| Replay.ReplayNeverSlower | scrips/realtime.py:63-76 | For a log whose times never go back, the total wait is at most the time span the log covers. |
| Replay.ReplayFromStartNeverSlower | scrips/realtime.py:51-76 | From the program's start, with no reference time, on a log whose times never go back: the total wait is at most the span from the first timed record's time to the last one's. The final reference is known exactly when some sent record's time parsed. |
| Replay.NoTimeNoReference | scrips/realtime.py:51-76 | Starting with no reference time, records none of whose times parsed leave the reference unknown. |
| Replay.ReplayFromStartNoWaitBeforeFirstTime | scrips/realtime.py:51-71 | From the program's start, a send whose earlier records all lack a parsed time does not wait. |
| Replay.ReplayWaits | scrips/realtime.py:60-76 | The wait before the i-th send is the pacing rule applied to that record's time and the reference left by the records sent before it: the time of the last earlier record whose time parsed, or the start. |
| Replay.WaitsFollowCons | scrips/realtime.py:63-76 | Pacing one record against the reference, then pacing the rest against the reference it carries forward, paces the whole sequence. |
| Replay.LastTimeCons | scrips/realtime.py:75-76 | Carrying the reference forward over one leading record, then over the rest, gives the same reference as over all records. |
| Text.Pad2 | python/udpGenerator.py:69 | `%H`/`%M`/`%S` render a field as two digits that read back as the field. |
| Text.Pad3 | python/udpGenerator.py:69 | `{:03d}` on 0..999 gives exactly three digits that read back as the value. |
| Generator.FormatUxt | python/udpGenerator.py:69 | A generated `Uxt` is 12 characters, `HH:MM:SS.mmm`, and its fraction is exactly three digits that read back as the millis. |
| Generator.UxtRoundTrip | python/udpGenerator.py:69 | A generated `Uxt` parses through `parse_uxt` back to the clock reading it was made from. |
| Generator.PacketShape | python/udpGenerator.py:63-69 | A packet has the template's keys, the given `Status`, `Tid` and `Uxt`, and every other field equal to the template's. |
| Generator.Step | python/udpGenerator.py:62-80 | One iteration keeps the status index in {0, 1, 2} and counts one packet. The `Tid` changes only right after a SUCCESS packet. |
| Generator.StepFollowsCycle | python/udpGenerator.py:53-80 | From the state reached after n packets, the next packet is the n-th closed-form packet, and the following state is reached after n + 1 packets. |
| Generator.Run | python/udpGenerator.py:53-80 | After n iterations, `count` is n, the index is n mod 3 and the current `Tid` is identifier n / 3. Packet i has status `["START","INFO","SUCCESS"][i mod 3]` and identifier i / 3. |
| Generator.TidGroups | python/udpGenerator.py:55-80 | Packets 3k, 3k+1 and 3k+2 share one `Tid`. With fresh identifiers, packets of different groups never share one. Packet 3k+2 is the SUCCESS packet. |
| Relay.Boot | python/udpSock.py:36-50 | The initial state satisfies the invariant, with no clients and zero counters. |
| Relay.Augment | python/udpSock.py:82-83 | The tagged object keeps every decoded field except the two tags. It gains `_src_ip` set to the sender address and `_recv_ts_ms` set to the receive time. |
| Relay.OfferOneMore | python/udpSock.py:96-105 | Offering the payload to one more client appends it to that client's queue if there is room. Otherwise it adds exactly one drop and leaves the queue alone. |
| Relay.Enqueue | python/udpSock.py:90-105 | The enqueue loop over the client snapshot offers the payload to every connected client. Its result does not depend on the iteration order. |
| Relay.Received | python/udpSock.py:73-105 | Every datagram adds one to `rx_total`. A malformed one changes nothing else. A decoded one is appended, tagged, to each connected client's queue with room. Each full queue adds one drop and is left unchanged. |
| Relay.Register | python/udpSock.py:148-166 | The new client is connected with an empty queue and is the IP's client. A still-connected predecessor from that IP is removed. Other IPs and other queues are untouched. |
| Relay.Cleanup | python/udpSock.py:184-189 | The client leaves the connected set and the queue map. The IP entry is removed only while it still names this client. |
| Relay.Take | python/udpSock.py:117 | A writer's `q.get()` takes the oldest queued payload and leaves the rest of the queue in order. |
| Relay.RegisterKeepsInv | python/udpSock.py:148-166 | Registering a new connection keeps the invariant: queue keys equal the connected set, IP entries name exactly the connected clients, one per IP, and queues stay bounded. The evicted predecessor is left in no IP entry. |
| Relay.CleanupKeepsInv | python/udpSock.py:184-189 | Cleanup under the IP the client registered with keeps the invariant. |
| Relay.ReceivedKeepsInv | python/udpSock.py:96-105 | A datagram keeps the invariant: no queue exceeds 4000 entries. |
| Relay.TakeKeepsInv | python/udpSock.py:117 | A dequeue keeps the invariant. |
| Relay.RegisterIsEvictThenConnect | python/udpSock.py:148-166 | Evicting the IP's current client as its cleanup does, then connecting the new client, reaches the same state as registration in one step. |
| Relay.StaleCleanupIsNoOp | python/udpSock.py:187-189 | After a client is replaced from its IP, its own cleanup changes nothing: the successor keeps its registration and its queue. |
| Relay.Report | python/udpSock.py:195-236 | Differences are taken against the previous snapshot, and the snapshot then moves to the totals. `QMax` bounds every queue and is a real queue length or 0. Under the invariant, the differences are non-negative and `QMax` ≤ 4000. |
| Relay.RunKeepsInv | python/udpSock.py:48-50 | Any run of allowed events preserves the registry invariant. |
| Relay.RunCounters | python/udpSock.py:74 | Across any run, `rx_total` grows by exactly the number of datagrams, and `ws_drop_total` never decreases. Only a report moves the snapshots. |
| Relay.ReportWindow | python/udpSock.py:203-204 | Right after a report, the next `rx` difference equals the number of datagrams received in between, and the drop difference is never negative. |

## Left out

- Sockets and the OS: `sendto`, the UDP endpoint, the WebSocket server, `SO_RCVBUF` and the kernel drop counter read with `getsockopt(…, 40)`. All of these are I/O; the kernel drop figures are left out of `Relay.Report`.
- Async machinery: `writer_task`'s send loop, `heartbeat_task`, task cancellation and `gather`, and the closing handshake of `await old_ws.close`. The gap that await opens inside registration is modelled as two events. Only the queue side of the writer (`q.get()`) is modelled, as `Relay.Take`.
- JSON encoding and decoding by `orjson`/`json`. A datagram is either malformed or an already decoded object. Non-object JSON values, which make the tag assignment raise, are not modelled.
- Floating point: the packet rate in the relay report, the average queue size, the generator's rate pacing and progress rate, and `total_seconds()`. Times are integer microseconds instead.
- Process-level code: reading the log file, `sys.argv`/`sys.exit`, environment configuration, `print`, the `time.sleep` calls themselves, and `uvloop`.
- Replay.ParseUxt: Python's `\d` also matches non-ASCII decimal digits in `%H`, `%M` and `%S`. Only ASCII digits are modelled.
- Generator.Run: the generator loops forever. The model runs n iterations, for every n.
- Generator.UxtRoundTrip: the generator reads the clock twice for one `Uxt`, once in `strftime` and once in `time.time()`, so the milliseconds can belong to the following second. `WallClock`'s fields are independent inputs, so the model covers that case: the round trip recovers the text's own fields, not a single instant.
- Generator.FormatUxt: the seconds field is bounded by 59. A leap-second reading of 60 from `strftime` is not modelled.
- Relay.Received: `int(time.time() * 1000)` is an input `nowMs`, and the clock itself is not modelled.
