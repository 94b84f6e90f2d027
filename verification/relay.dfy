/** The UDP-to-WebSocket relay of python/udpSock.py, as a sequential state
    machine: datagrams are decoded, tagged with their origin and fanned out
    to one bounded outbound queue per connected client; each IP address
    holds at most one client, a newer connection from the same IP replacing
    the older one. Cleanup, a datagram's arrival and a writer's dequeue are
    each one atomic step; a registration that evicts a predecessor is the
    predecessor's cleanup followed by the new connection, with other events
    free to run in between. */
module Relay {
  import opened Wrappers

  /** `asyncio.Queue(maxsize=4000)`. */
  const QueueCapacity: nat := 4000

  /** The identity of one WebSocket connection object. */
  type ClientId = nat

  /** A decoded JSON value; values other than strings and integers are
      carried as their text. */
  datatype Json = JStr(s: string) | JInt(n: int) | JOther(text: string)

  type Object = map<string, Json>

  /** What `orjson.loads` made of a datagram's bytes. */
  datatype Datagram = Malformed | Decoded(obj: Object)

  /** The module-level state: `connected_clients`, `out_queues`,
      `client_by_ip` and the counters of `ServerStats`. */
  datatype Server = Server(
    clients: set<ClientId>,
    queues: map<ClientId, seq<Object>>,
    byIp: map<string, ClientId>,
    rxTotal: nat,
    wsDropTotal: nat,
    rxLastReport: nat,
    wsDropLastReport: nat)

  /** Every queued client is connected and vice versa; each connected client
      is the current one of exactly one IP; no queue is over capacity; the
      report snapshots never run ahead of the totals. */
  predicate Inv(s: Server) {
    && s.queues.Keys == s.clients
    && s.byIp.Values == s.clients
    && OnePerIp(s.byIp)
    && (forall c :: c in s.queues ==> |s.queues[c]| <= QueueCapacity)
    && s.rxLastReport <= s.rxTotal && s.wsDropLastReport <= s.wsDropTotal
  }

  /** The state at start-up. */
  function Boot(): (s: Server)
    ensures Inv(s) && s.clients == {} && s.rxTotal == 0 && s.wsDropTotal == 0
  {
    Server({}, map[], map[], 0, 0, 0, 0)
  }

  /** The two fields `datagram_received` adds: the sender address and the
      receive time in milliseconds. Every other field is kept as decoded. */
  function Augment(obj: Object, srcIp: string, nowMs: int): (r: Object)
    ensures r.Keys == obj.Keys + {"_src_ip", "_recv_ts_ms"}
    ensures r["_src_ip"] == JStr(srcIp) && r["_recv_ts_ms"] == JInt(nowMs)
    ensures forall k :: k in obj && k != "_src_ip" && k != "_recv_ts_ms" ==> r[k] == obj[k]
  {
    obj["_src_ip" := JStr(srcIp)]["_recv_ts_ms" := JInt(nowMs)]
  }

  /** The clients among `done` whose queue is full. */
  function FullAmong(s: Server, done: set<ClientId>): set<ClientId> {
    set c | c in done && c in s.queues && |s.queues[c]| >= QueueCapacity
  }

  /** One queue after `put_nowait(p)` when `offered`: `p` joins the end if
      there is room; a full queue is unchanged. */
  function Offered(q: seq<Object>, p: Object, offered: bool): seq<Object> {
    if offered && |q| < QueueCapacity then q + [p] else q
  }

  /** The state after offering `p` to the clients in `done` with
      `put_nowait`: a queue with room gains `p` at its end, a full queue is
      left alone and counts one drop. */
  function OfferTo(s: Server, p: Object, done: set<ClientId>): Server {
    s.(queues := map c | c in s.queues :: Offered(s.queues[c], p, c in done),
       wsDropTotal := s.wsDropTotal + |FullAmong(s, done)|)
  }

  /** Offering `p` to one more client extends the offer to `done` by that
      client: its queue gains `p` if it has room, otherwise one drop more. */
  lemma OfferOneMore(s: Server, p: Object, done: set<ClientId>, c: ClientId)
    requires c !in done
    ensures var r := OfferTo(s, p, done);
            OfferTo(s, p, done + {c})
            == if c !in r.queues then r
               else if |r.queues[c]| < QueueCapacity then r.(queues := r.queues[c := r.queues[c] + [p]])
               else r.(wsDropTotal := r.wsDropTotal + 1)
  {
    var r := OfferTo(s, p, done);
    var r' := OfferTo(s, p, done + {c});
    if c in s.queues && |s.queues[c]| >= QueueCapacity {
      assert FullAmong(s, done + {c}) == FullAmong(s, done) + {c};
      assert r'.queues == r.queues;
    } else {
      assert FullAmong(s, done + {c}) == FullAmong(s, done);
      if c in s.queues {
        assert r'.queues == r.queues[c := r.queues[c] + [p]];
      } else {
        assert r'.queues == r.queues;
      }
    }
  }

  /** The enqueue loop of `datagram_received`, over a snapshot of the
      connected clients; a client without a queue is skipped. */
  method Enqueue(s: Server, p: Object) returns (r: Server)
    ensures r == OfferTo(s, p, s.clients)
  {
    var todo := s.clients;
    ghost var done: set<ClientId> := {};
    r := s;
    assert OfferTo(s, p, {}).queues == s.queues;
    while todo != {}
      invariant todo <= s.clients && done == s.clients - todo
      invariant r == OfferTo(s, p, done)
      decreases todo
    {
      var c :| c in todo;
      OfferOneMore(s, p, done, c);
      if c in r.queues {
        if |r.queues[c]| < QueueCapacity {
          r := r.(queues := r.queues[c := r.queues[c] + [p]]);
        } else {
          r := r.(wsDropTotal := r.wsDropTotal + 1);
        }
      }
      todo := todo - {c};
      done := done + {c};
    }
    assert done == s.clients;
  }

  /** `datagram_received`: count the datagram; drop it if it does not
      decode; otherwise tag it and offer it to every connected client. */
  function Received(s: Server, d: Datagram, srcIp: string, nowMs: int): (r: Server)
    ensures r.rxTotal == s.rxTotal + 1
    ensures d.Malformed? ==> r == s.(rxTotal := s.rxTotal + 1)
    ensures r.clients == s.clients && r.byIp == s.byIp && r.queues.Keys == s.queues.Keys
    ensures r.rxLastReport == s.rxLastReport && r.wsDropLastReport == s.wsDropLastReport
    ensures d.Decoded? ==> r.wsDropTotal == s.wsDropTotal + |FullAmong(s, s.clients)|
    ensures forall c :: c in s.queues && (c !in s.clients || d.Malformed?)
              ==> r.queues[c] == s.queues[c]
    ensures forall c :: c in s.queues && c in s.clients && d.Decoded?
              ==> r.queues[c] == if |s.queues[c]| < QueueCapacity
                                 then s.queues[c] + [Augment(d.obj, srcIp, nowMs)]
                                 else s.queues[c]
  {
    var s1 := s.(rxTotal := s.rxTotal + 1);
    match d
    case Malformed => s1
    case Decoded(obj) =>
      if s1.clients == {} then
        assert FullAmong(s, s.clients) == {};
        s1
      else OfferTo(s1, Augment(obj, srcIp, nowMs), s1.clients)
  }

  /** The registration block of `ws_handler`: an earlier client from the
      same IP that is still connected is dropped from all three structures,
      then `ws` is connected with an empty queue as the IP's client. */
  function Register(s: Server, ws: ClientId, ip: string): (r: Server)
    ensures ws in r.clients && ws in r.queues && r.queues[ws] == []
    ensures ip in r.byIp && r.byIp[ip] == ws
    ensures forall other :: other in s.byIp && other != ip ==> other in r.byIp && r.byIp[other] == s.byIp[other]
    ensures ip in s.byIp && s.byIp[ip] in s.clients && s.byIp[ip] != ws
            ==> s.byIp[ip] !in r.clients && s.byIp[ip] !in r.queues
    ensures forall c :: c in s.queues && c != ws && !(ip in s.byIp && s.byIp[ip] == c)
              ==> c in r.queues && r.queues[c] == s.queues[c]
    ensures r.rxTotal == s.rxTotal && r.wsDropTotal == s.wsDropTotal
    ensures r.rxLastReport == s.rxLastReport && r.wsDropLastReport == s.wsDropLastReport
  {
    var s1 :=
      if ip in s.byIp && s.byIp[ip] in s.clients then
        var prior := s.byIp[ip];
        s.(clients := s.clients - {prior}, queues := s.queues - {prior}, byIp := s.byIp - {ip})
      else s;
    s1.(clients := s1.clients + {ws}, queues := s1.queues[ws := []], byIp := s1.byIp[ip := ws])
  }

  /** The `finally` block of `ws_handler`: `ws` leaves the connected set and
      loses its queue; the IP entry is removed only while it still names
      `ws`, so a replaced client's cleanup leaves its successor in place. */
  function Cleanup(s: Server, ws: ClientId, ip: string): (r: Server)
    ensures ws !in r.clients && ws !in r.queues
    ensures r.clients == s.clients - {ws} && r.queues == s.queues - {ws}
    ensures ip in s.byIp && s.byIp[ip] == ws ==> r.byIp == s.byIp - {ip}
    ensures !(ip in s.byIp && s.byIp[ip] == ws) ==> r.byIp == s.byIp
    ensures r.rxTotal == s.rxTotal && r.wsDropTotal == s.wsDropTotal
    ensures r.rxLastReport == s.rxLastReport && r.wsDropLastReport == s.wsDropLastReport
  {
    var s1 := s.(clients := s.clients - {ws}, queues := s.queues - {ws});
    if ip in s.byIp && s.byIp[ip] == ws then s1.(byIp := s1.byIp - {ip}) else s1
  }

  datatype Taken = Taken(item: Option<Object>, server: Server)

  /** The writer's `q.get()`: the oldest queued payload for `ws`, removed
      from the front of its queue; nothing when the queue is empty. */
  function Take(s: Server, ws: ClientId): (t: Taken)
    ensures t.item.Some? <==> ws in s.queues && |s.queues[ws]| > 0
    ensures t.item.Some? ==> t.item.value == s.queues[ws][0]
                             && t.server.queues == s.queues[ws := s.queues[ws][1..]]
    ensures t.item.None? ==> t.server == s
    ensures t.server.clients == s.clients && t.server.byIp == s.byIp
    ensures t.server.queues.Keys == s.queues.Keys
    ensures t.server.rxTotal == s.rxTotal && t.server.wsDropTotal == s.wsDropTotal
    ensures t.server.rxLastReport == s.rxLastReport
    ensures t.server.wsDropLastReport == s.wsDropLastReport
  {
    if ws in s.queues && |s.queues[ws]| > 0 then
      Taken(Some(s.queues[ws][0]), s.(queues := s.queues[ws := s.queues[ws][1..]]))
    else Taken(None, s)
  }

  /** Two IPs never share a client. */
  predicate OnePerIp(m: map<string, ClientId>) {
    forall a, b :: a in m && b in m && a != b ==> m[a] != m[b]
  }

  /** Registering a connection object not yet connected keeps the invariant;
      the evicted predecessor is gone from every structure, including every
      IP entry. */
  lemma RegisterKeepsInv(s: Server, ws: ClientId, ip: string)
    requires Inv(s) && ws !in s.clients
    ensures Inv(Register(s, ws, ip))
    ensures Register(s, ws, ip).clients
            == (if ip in s.byIp then s.clients - {s.byIp[ip]} else s.clients) + {ws}
    ensures ip in s.byIp ==> s.byIp[ip] !in Register(s, ws, ip).byIp.Values
  {
  }

  /** Cleanup by a client that is either gone already or still the current
      client of `ip` keeps the invariant. */
  lemma CleanupKeepsInv(s: Server, ws: ClientId, ip: string)
    requires Inv(s) && (ws in s.clients ==> ip in s.byIp && s.byIp[ip] == ws)
    ensures Inv(Cleanup(s, ws, ip))
  {
    var r := Cleanup(s, ws, ip);
    if ip in s.byIp && s.byIp[ip] == ws {
      assert r.byIp.Values == s.clients - {ws} by {
        forall c | c in r.byIp.Values ensures c in s.clients - {ws} {
          var a :| a in r.byIp && r.byIp[a] == c;
          assert a != ip && s.byIp[a] == c;
        }
        forall c | c in s.clients - {ws} ensures c in r.byIp.Values {
          var a :| a in s.byIp && s.byIp[a] == c;
          assert a != ip && r.byIp[a] == c;
        }
      }
    } else {
      assert ws !in s.clients;
    }
  }

  /** A datagram keeps the invariant: no queue grows past capacity. */
  lemma ReceivedKeepsInv(s: Server, d: Datagram, srcIp: string, nowMs: int)
    requires Inv(s)
    ensures Inv(Received(s, d, srcIp, nowMs))
  {
  }

  /** A dequeue keeps the invariant. */
  lemma TakeKeepsInv(s: Server, ws: ClientId)
    requires Inv(s)
    ensures Inv(Take(s, ws).server)
  {
  }

  /** When a client is replaced by a newer connection from the same IP, the
      replaced client's later cleanup changes nothing at all: the successor
      keeps its registration and its queue. */
  lemma StaleCleanupIsNoOp(s: Server, prior: ClientId, ws: ClientId, ip: string)
    requires Inv(s) && ip in s.byIp && s.byIp[ip] == prior && ws !in s.clients
    ensures Cleanup(Register(s, ws, ip), prior, ip) == Register(s, ws, ip)
  {
  }

  /** Registration evicts the predecessor, then awaits its close while
      holding the lock, then connects `ws`. Datagrams and other clients'
      cleanups can run in that gap, so the model splits registration into
      the predecessor's cleanup followed by the new connection: that pair
      reaches the same state as the single step. */
  lemma RegisterIsEvictThenConnect(s: Server, ws: ClientId, ip: string)
    requires Inv(s) && ip in s.byIp && ws !in s.clients
    ensures Register(Cleanup(s, s.byIp[ip], ip), ws, ip) == Register(s, ws, ip)
  {
  }

  /** One line of `stats_reporter`: the counts since the previous report,
      the totals, the number of clients and the fullest queue (`QMax`). */
  datatype ReportLine = ReportLine(
    rxDiff: int, rxTotal: nat, wsDropDiff: int, wsDropTotal: nat,
    clientCount: nat, maxQueue: nat)

  /** One report: differences against the previous snapshot, the longest
      queue when any client is connected, then the snapshot moves up to the
      current totals. */
  method Report(s: Server) returns (line: ReportLine, r: Server)
    ensures line.rxDiff == s.rxTotal - s.rxLastReport
    ensures line.wsDropDiff == s.wsDropTotal - s.wsDropLastReport
    ensures line.rxTotal == s.rxTotal && line.wsDropTotal == s.wsDropTotal
    ensures line.clientCount == |s.clients|
    ensures s.clients != {} ==> forall c :: c in s.queues ==> |s.queues[c]| <= line.maxQueue
    ensures line.maxQueue == 0 || exists c :: c in s.queues && |s.queues[c]| == line.maxQueue
    ensures r == s.(rxLastReport := s.rxTotal, wsDropLastReport := s.wsDropTotal)
    ensures Inv(s) ==> line.rxDiff >= 0 && line.wsDropDiff >= 0
                       && line.maxQueue <= QueueCapacity && Inv(r)
  {
    var maxQ := 0;
    if |s.clients| > 0 {
      var todo := s.queues.Keys;
      while todo != {}
        invariant todo <= s.queues.Keys
        invariant forall c :: c in s.queues.Keys - todo ==> |s.queues[c]| <= maxQ
        invariant maxQ == 0 || exists c :: c in s.queues && |s.queues[c]| == maxQ
        decreases todo
      {
        var c :| c in todo;
        if |s.queues[c]| > maxQ {
          maxQ := |s.queues[c]|;
        }
        todo := todo - {c};
      }
    }
    line := ReportLine(s.rxTotal - s.rxLastReport, s.rxTotal,
                       s.wsDropTotal - s.wsDropLastReport, s.wsDropTotal,
                       |s.clients|, maxQ);
    r := s.(rxLastReport := s.rxTotal, wsDropLastReport := s.wsDropTotal);
  }

  /** The things that happen to the relay, one at a time. */
  datatype Event =
    | Arrive(d: Datagram, srcIp: string, nowMs: int)
    | Connect(ws: ClientId, ip: string)
    | Disconnect(ws: ClientId, ip: string)
    | Dequeue(ws: ClientId)

  function Apply(s: Server, e: Event): Server {
    match e
    case Arrive(d, srcIp, nowMs) => Received(s, d, srcIp, nowMs)
    case Connect(ws, ip) => Register(s, ws, ip)
    case Disconnect(ws, ip) => Cleanup(s, ws, ip)
    case Dequeue(ws) => Take(s, ws).server
  }

  /** What the WebSocket server guarantees of an event: a connection is a
      new object, and a handler cleans up under the IP it registered with. */
  predicate Allowed(s: Server, e: Event) {
    match e
    case Connect(ws, _) => ws !in s.clients
    case Disconnect(ws, ip) => ws in s.clients ==> ip in s.byIp && s.byIp[ip] == ws
    case _ => true
  }

  function Run(s: Server, es: seq<Event>): Server
    decreases |es|
  {
    if |es| == 0 then s else Run(Apply(s, es[0]), es[1..])
  }

  predicate Feasible(s: Server, es: seq<Event>)
    decreases |es|
  {
    |es| == 0 || (Allowed(s, es[0]) && Feasible(Apply(s, es[0]), es[1..]))
  }

  function Arrivals(es: seq<Event>): nat {
    if |es| == 0 then 0 else (if es[0].Arrive? then 1 else 0) + Arrivals(es[1..])
  }

  /** Any run of allowed events keeps the invariant: queues match connected
      clients, one client per IP, no queue beyond 4000 entries. */
  lemma {:induction false} RunKeepsInv(s: Server, es: seq<Event>)
    requires Inv(s) && Feasible(s, es)
    ensures Inv(Run(s, es))
    decreases |es|
  {
    if |es| > 0 {
      match es[0] {
        case Arrive(d, srcIp, nowMs) => ReceivedKeepsInv(s, d, srcIp, nowMs);
        case Connect(ws, ip) => RegisterKeepsInv(s, ws, ip);
        case Disconnect(ws, ip) => CleanupKeepsInv(s, ws, ip);
        case Dequeue(ws) => TakeKeepsInv(s, ws);
      }
      RunKeepsInv(Apply(s, es[0]), es[1..]);
    }
  }

  /** Across any run, `rx_total` grows by exactly the number of datagrams,
      malformed ones included; `ws_drop_total` never decreases; only a
      report moves the snapshots. */
  lemma {:induction false} RunCounters(s: Server, es: seq<Event>)
    ensures Run(s, es).rxTotal == s.rxTotal + Arrivals(es)
    ensures Run(s, es).wsDropTotal >= s.wsDropTotal
    ensures Run(s, es).rxLastReport == s.rxLastReport
    ensures Run(s, es).wsDropLastReport == s.wsDropLastReport
    decreases |es|
  {
    if |es| > 0 {
      RunCounters(Apply(s, es[0]), es[1..]);
    }
  }

  /** Right after a report the snapshots equal the totals, so the next
      report's `rx` difference is exactly the number of datagrams received in
      between, and its `WSdrop` difference is never negative. */
  lemma ReportWindow(s: Server, es: seq<Event>)
    requires s.rxLastReport == s.rxTotal && s.wsDropLastReport == s.wsDropTotal
    ensures Run(s, es).rxTotal - Run(s, es).rxLastReport == Arrivals(es)
    ensures Run(s, es).wsDropTotal - Run(s, es).wsDropLastReport >= 0
  {
    RunCounters(s, es);
  }
}
