/** The demo traffic generator of python/udpGenerator.py: it sends copies of
    a fixed packet template whose `Status` cycles START, INFO, SUCCESS and
    whose `Tid` is a fresh identifier for every group of three packets.
    Identifier minting (`uuid.uuid4()`) and clock readings are parameters:
    `ids(k)` is the k-th identifier minted, `clock(n)` the wall-clock reading
    taken for packet n. */
module Generator {
  import opened Wrappers
  import opened Text
  import opened LogLine
  import opened Replay

  /** The packet every send starts from. */
  const Template: Record := map[
    "Status" := "INFO",
    "Uxd" := "03/12/2025",
    "Uxt" := "12:14:22.946",
    "Dbd" := "",
    "Eid" := "sss",
    "Hnm" := "bdolitutapp1.telkom.co.za",
    "Pid" := "4272",
    "Fid" := "_log_QueryProviderEmployeesByFunction",
    "Tid" := "",
    "Fnm" := "ssssessionimpl.cc",
    "Mtp" := "TrnEnd",
    "Key" := "11",
    "Uid" := "Kgopajt",
    "Cid" := "PIGGYBACK NOT USED",
    "Icn" := "10.254.105.48",
    "Ocn" := "",
    "Ret" := "0",
    "Ern" := "0",
    "Ct1" := "17547",
    "Ct2" := "-1:0",
    "Msg" := "Transaction ended with success"
  ]

  const StatusCycle: seq<string> := ["START", "INFO", "SUCCESS"]

  /** A local wall-clock reading: `time.strftime("%H:%M:%S")` fields and the
      millisecond part `int((time.time() % 1) * 1000)`. */
  datatype WallClock = WallClock(hour: nat, minute: nat, second: nat, millis: nat)

  predicate ValidClock(c: WallClock) {
    c.hour < 24 && c.minute < 60 && c.second < 60 && c.millis < 1000
  }

  /** The `Uxt` text of a packet: `HH:MM:SS.mmm`, each field zero padded; the
      fraction after the dot is exactly three digits spelling the millis. */
  function FormatUxt(c: WallClock): (r: string)
    requires ValidClock(c)
    ensures |r| == 12 && r[2] == ':' && r[5] == ':' && r[8] == '.'
    ensures IsDigits(r[9..]) && NumberOf(r[9..]) == c.millis
  {
    var r := Pad2(c.hour) + ":" + Pad2(c.minute) + ":" + Pad2(c.second) + "." + Pad3(c.millis);
    assert r[9..] == Pad3(c.millis);
    r
  }

  /** A generated `Uxt` reads back through the replay sender's `parse_uxt` as
      the clock reading it was made from. */
  lemma UxtRoundTrip(c: WallClock)
    requires ValidClock(c)
    ensures ParseUxt(Some(FormatUxt(c)))
            == Some(((c.hour * 60 + c.minute) * 60 + c.second) * MicrosPerSecond + c.millis * 1000)
  {
    var h, m, s, f := Pad2(c.hour), Pad2(c.minute), Pad2(c.second), Pad3(c.millis);
    assert ClockField(h, 23) && ClockField(m, 59) && ClockField(s, 59) && FractionField(f);
    assert FormatUxt(c) == h + ":" + m + ":" + s + "." + f;
    ParseUxtAccepts(FormatUxt(c), h, m, s, f);
    assert Pow10(3) == 1000 by {
      assert Pow10(1) == 10;
      assert Pow10(2) == 100;
    }
    assert FractionMicros(f) == c.millis * 1000;
  }

  /** `TEMPLATE.copy()` with `Status`, `Tid` and `Uxt` overwritten: the
      packet has the template's keys, those three fields as given, and every
      other field as in the template. */
  function Packet(status: string, tid: string, uxt: string): Record {
    Template["Status" := status]["Tid" := tid]["Uxt" := uxt]
  }

  /** A packet has the template's keys, the three dynamic fields as given,
      and every other field exactly as in the template. */
  lemma PacketShape(status: string, tid: string, uxt: string)
    ensures Packet(status, tid, uxt).Keys == Template.Keys
    ensures Packet(status, tid, uxt)["Status"] == status
    ensures Packet(status, tid, uxt)["Tid"] == tid
    ensures Packet(status, tid, uxt)["Uxt"] == uxt
    ensures forall k :: k in Template && k != "Status" && k != "Tid" && k != "Uxt"
              ==> Packet(status, tid, uxt)[k] == Template[k]
  {
  }

  /** The loop variables of `generator`. */
  datatype GenState = GenState(statusIdx: nat, tid: string, count: nat, minted: nat)

  /** The state before the first packet: index 0 and one identifier minted. */
  function Start(ids: nat -> string): GenState {
    GenState(0, ids(0), 0, 1)
  }

  datatype Emitted = Emitted(packet: Record, next: GenState)

  /** One iteration: build and send the packet, count it, advance the status
      index modulo 3 and mint a new identifier when the index wraps to 0. */
  function Step(g: GenState, ids: nat -> string, clock: WallClock): (e: Emitted)
    requires g.statusIdx < 3 && ValidClock(clock)
    ensures e.next.statusIdx < 3 && e.next.count == g.count + 1
    ensures e.next.tid != g.tid ==> StatusCycle[g.statusIdx] == "SUCCESS"
  {
    var packet := Packet(StatusCycle[g.statusIdx], g.tid, FormatUxt(clock));
    var idx := (g.statusIdx + 1) % 3;
    if idx == 0 then Emitted(packet, GenState(idx, ids(g.minted), g.count + 1, g.minted + 1))
    else Emitted(packet, GenState(idx, g.tid, g.count + 1, g.minted))
  }

  /** Packet n in closed form: status `StatusCycle[n % 3]`, identifier number
      `n / 3`. */
  function NthPacket(n: nat, ids: nat -> string, clock: WallClock): Record
    requires ValidClock(clock)
  {
    Packet(StatusCycle[n % 3], ids(n / 3), FormatUxt(clock))
  }

  /** The state reached after `g.count` iterations from `Start(ids)`. */
  predicate Reached(g: GenState, ids: nat -> string) {
    g.statusIdx == g.count % 3 && g.tid == ids(g.count / 3) && g.minted == g.count / 3 + 1
  }

  /** From a reached state, one step emits the closed-form packet for the
      current count and reaches the next state. */
  lemma StepFollowsCycle(g: GenState, ids: nat -> string, clock: WallClock)
    requires Reached(g, ids) && ValidClock(clock)
    ensures Step(g, ids, clock).packet == NthPacket(g.count, ids, clock)
    ensures Reached(Step(g, ids, clock).next, ids)
  {
  }

  /** Running the loop for n iterations: the packets sent are exactly the
      closed-form packets, `count` is n, the status index is n mod 3 and the
      current identifier is the (n / 3)-th one minted. */
  method Run(n: nat, ids: nat -> string, clock: nat -> WallClock) returns (sent: seq<Record>, g: GenState)
    requires forall i :: 0 <= i < n ==> ValidClock(clock(i))
    ensures |sent| == n && g.count == n
    ensures g.statusIdx == n % 3 && g.tid == ids(n / 3) && g.minted == n / 3 + 1
    ensures forall i :: 0 <= i < n ==> sent[i] == NthPacket(i, ids, clock(i))
  {
    g := Start(ids);
    sent := [];
    while g.count < n
      invariant g.count <= n && |sent| == g.count
      invariant Reached(g, ids)
      invariant forall i :: 0 <= i < g.count ==> sent[i] == NthPacket(i, ids, clock(i))
      decreases n - g.count
    {
      var e := Step(g, ids, clock(g.count));
      StepFollowsCycle(g, ids, clock(g.count));
      sent := sent + [e.packet];
      g := e.next;
    }
  }

  ghost predicate Injective(ids: nat -> string) {
    forall a: nat, b: nat :: a != b ==> ids(a) != ids(b)
  }

  /** Packets 3k, 3k+1 and 3k+2 share one identifier, and with freshly minted
      identifiers no two groups share one: the identifier changes right after
      each SUCCESS packet. */
  lemma TidGroups(i: nat, j: nat, ids: nat -> string, ci: WallClock, cj: WallClock)
    requires ValidClock(ci) && ValidClock(cj)
    ensures i / 3 == j / 3 ==> NthPacket(i, ids, ci)["Tid"] == NthPacket(j, ids, cj)["Tid"]
    ensures Injective(ids) && i / 3 != j / 3
            ==> NthPacket(i, ids, ci)["Tid"] != NthPacket(j, ids, cj)["Tid"]
    ensures i % 3 == 2 ==> NthPacket(i, ids, ci)["Status"] == "SUCCESS"
  {
  }
}
