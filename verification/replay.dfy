/** The real-time replay sender of scrips/realtime.py: it parses each log
    line, reads its `Uxt` time of day, and waits before sending so that the
    gaps between lines are reproduced, capped at one second. Times of day
    are integers counting microseconds since midnight, the resolution of
    Python's `datetime` differences. */
module Replay {
  import opened Wrappers
  import opened Text
  import opened LogLine

  const MicrosPerSecond: nat := 1_000_000
  const MicrosPerDay: nat := 86_400 * MicrosPerSecond
  /** A gap of this many microseconds or more is replayed as `Cap`. */
  const LongGap: nat := 10 * MicrosPerSecond
  const Cap: nat := MicrosPerSecond

  /** An `%H`, `%M` or `%S` field: one or two digits, at most `max`. */
  predicate ClockField(f: string, max: nat) {
    1 <= |f| <= 2 && IsDigits(f) && NumberOf(f) <= max
  }

  /** A `%f` field: one to six digits. */
  predicate FractionField(f: string) {
    1 <= |f| <= 6 && IsDigits(f)
  }

  /** Microseconds denoted by a `%f` field: the digits right-padded to six. */
  function FractionMicros(f: string): (r: nat)
    requires FractionField(f)
    ensures r < MicrosPerSecond
  {
    NumberOfBound(f);
    assert Pow10(6) == MicrosPerSecond;
    PowSplit(|f|, 6 - |f|);
    NumberOf(f) * Pow10(6 - |f|)
  }

  lemma {:induction false} PowSplit(a: nat, b: nat)
    ensures Pow10(a) * Pow10(b) == Pow10(a + b)
    decreases a
  {
    if a > 0 {
      PowSplit(a - 1, b);
    }
  }

  function TimeOfDay(h: string, m: string, s: string, f: string): nat
    requires ClockField(h, 23) && ClockField(m, 59) && ClockField(s, 59) && FractionField(f)
  {
    ((NumberOf(h) * 60 + NumberOf(m)) * 60 + NumberOf(s)) * MicrosPerSecond + FractionMicros(f)
  }

  /** `parse_uxt`: `datetime.strptime(uxt, "%H:%M:%S.%f")` reduced to its time
      of day, or None for a missing value or any text the format rejects.
      Seconds 60 and 61 pass the format's pattern but `datetime` rejects
      them, so the field is bounded by 59. */
  function ParseUxt(uxt: Option<string>): (r: Option<nat>)
    ensures uxt.None? ==> r.None?
    ensures r.Some? ==> r.value < MicrosPerDay
  {
    match uxt
    case None => None
    case Some(s) =>
      var a := Split(s, ':');
      if |a| != 3 then None
      else
        var b := Split(a[2], '.');
        if |b| != 2 then None
        else if ClockField(a[0], 23) && ClockField(a[1], 59) && ClockField(b[0], 59)
                && FractionField(b[1])
        then Some(TimeOfDay(a[0], a[1], b[0], b[1]))
        else None
  }

  /** The accepted texts: `H:M:S.F` with the four fields in range. */
  ghost predicate UxtShape(s: string, h: string, m: string, sec: string, f: string) {
    && s == h + ":" + m + ":" + sec + "." + f
    && ClockField(h, 23) && ClockField(m, 59) && ClockField(sec, 59) && FractionField(f)
  }

  lemma DigitsHaveNoSeparators(f: string)
    requires IsDigits(f)
    ensures ':' !in f && '.' !in f
  {
  }

  /** Every text of shape `H:M:S.F` parses, to the time of day it spells. */
  lemma ParseUxtAccepts(s: string, h: string, m: string, sec: string, f: string)
    requires UxtShape(s, h, m, sec, f)
    ensures ParseUxt(Some(s)) == Some(TimeOfDay(h, m, sec, f))
  {
    DigitsHaveNoSeparators(h);
    DigitsHaveNoSeparators(m);
    DigitsHaveNoSeparators(sec);
    DigitsHaveNoSeparators(f);
    var tail := sec + "." + f;
    assert ':' !in tail;
    assert s == h + [':'] + (m + [':'] + tail);
    SplitAfterHead(h, ':', m + [':'] + tail);
    SplitAfterHead(m, ':', tail);
    SplitNoSeparator(tail, ':');
    assert Split(s, ':') == [h, m, tail];
    assert tail == sec + ['.'] + f;
    SplitAfterHead(sec, '.', f);
    SplitNoSeparator(f, '.');
    assert Split(tail, '.') == [sec, f];
  }

  /** Only texts of shape `H:M:S.F` parse. */
  lemma ParseUxtOnlyShape(s: string)
    requires ParseUxt(Some(s)).Some?
    ensures exists h, m, sec, f :: UxtShape(s, h, m, sec, f)
  {
    var a := Split(s, ':');
    var b := Split(a[2], '.');
    assert a[1..][1..] == [a[2]];
    assert Join(a[1..][1..], ':') == a[2];
    assert Join(a[1..], ':') == a[1] + ":" + a[2];
    assert Join(a, ':') == a[0] + ":" + (a[1] + ":" + a[2]);
    assert b[1..] == [b[1]];
    assert Join(b, '.') == b[0] + "." + b[1];
    assert UxtShape(s, a[0], a[1], b[0], b[1]);
  }

  /** `ParseUxt` accepts exactly the texts of shape `H:M:S.F` and returns the
      time of day they denote. */
  lemma ParseUxtGrammar(s: string)
    ensures ParseUxt(Some(s)).Some? <==> exists h, m, sec, f :: UxtShape(s, h, m, sec, f)
    ensures forall h, m, sec, f :: UxtShape(s, h, m, sec, f)
              ==> ParseUxt(Some(s)) == Some(TimeOfDay(h, m, sec, f))
  {
    forall h, m, sec, f | UxtShape(s, h, m, sec, f)
      ensures ParseUxt(Some(s)) == Some(TimeOfDay(h, m, sec, f))
    {
      ParseUxtAccepts(s, h, m, sec, f);
    }
    if ParseUxt(Some(s)).Some? {
      ParseUxtOnlyShape(s);
    }
  }

  /** The pacing rule: how long to wait before sending a line whose time of
      day is `cur`, given the reference time `prev` of the last timed line. */
  function Pace(cur: Option<nat>, prev: Option<nat>): (wait: nat)
    ensures wait < LongGap
    ensures wait > 0 ==> cur.Some? && prev.Some? && prev.value < cur.value
    ensures wait <= Cap || wait == cur.value - prev.value
    ensures cur.Some? && prev.Some? && cur.value - prev.value >= LongGap ==> wait == Cap
    ensures cur.Some? && prev.Some? && 0 < cur.value - prev.value < LongGap
            ==> wait == cur.value - prev.value
  {
    if cur.Some? && prev.Some? then
      var delta := cur.value - prev.value;
      if delta >= LongGap then Cap
      else if delta > 0 then delta
      else 0
    else 0
  }

  /** The `Uxt` time of a parsed record (`parsed.get("Uxt")` then `parse_uxt`). */
  function TimeOf(rec: Record): Option<nat> {
    ParseUxt(if "Uxt" in rec then Some(rec["Uxt"]) else None)
  }

  /** One send of the replay loop: the wait before it and the record sent. */
  datatype Send = Send(wait: nat, record: Record)

  /** The records of a run of sends, in order. */
  function Records(sends: seq<Send>): (recs: seq<Record>)
    ensures |recs| == |sends|
    ensures forall i :: 0 <= i < |sends| ==> recs[i] == sends[i].record
  {
    if |sends| == 0 then [] else [sends[0].record] + Records(sends[1..])
  }

  /** A send waits less than ten seconds, and waits at all only when its
      record carries a time of day that parsed. */
  predicate Paced(s: Send) {
    s.wait < LongGap && (s.wait > 0 ==> TimeOf(s.record).Some?)
  }

  datatype Outcome = Outcome(sends: seq<Send>, reference: Option<nat>)

  /** The loop of `main`: skip lines that do not parse, otherwise wait as
      `Pace` says, send, and carry the reference time forward only when this
      line's time parsed. */
  function Replay(lines: seq<string>, reference: Option<nat>): (r: Outcome)
    ensures Records(r.sends) == PosterSends(lines)
    ensures forall i :: 0 <= i < |r.sends| ==> Paced(r.sends[i])
    ensures reference.Some? ==> r.reference.Some?
  {
    if |lines| == 0 then Outcome([], reference)
    else
      var parsed := ParseLine(lines[0]);
      if parsed.None? || parsed.value == map[] then
        assert PosterSends(lines) == PosterSends(lines[1..]);
        Replay(lines[1..], reference)
      else
        var cur := TimeOf(parsed.value);
        var rest := Replay(lines[1..], if cur.Some? then cur else reference);
        assert PosterSends(lines) == [parsed.value] + PosterSends(lines[1..]);
        var first := Send(Pace(cur, reference), parsed.value);
        assert Paced(first);
        var sends := [first] + rest.sends;
        assert sends[1..] == rest.sends;
        assert Records(sends) == [parsed.value] + Records(rest.sends);
        Outcome(sends, rest.reference)
  }

  /** The reference time after a run of records: the time of the last record
      whose time parsed, or the starting one when none did. */
  function LastTime(recs: seq<Record>, start: Option<nat>): Option<nat> {
    if |recs| == 0 then start
    else if TimeOf(recs[|recs| - 1]).Some? then TimeOf(recs[|recs| - 1])
    else LastTime(recs[..|recs| - 1], start)
  }

  lemma {:induction false} LastTimeCons(rec: Record, recs: seq<Record>, start: Option<nat>)
    ensures LastTime([rec] + recs, start)
            == LastTime(recs, if TimeOf(rec).Some? then TimeOf(rec) else start)
    decreases |recs|
  {
    var all := [rec] + recs;
    if |recs| > 0 {
      assert all[|all| - 1] == recs[|recs| - 1];
      assert all[..|all| - 1] == [rec] + recs[..|recs| - 1];
      LastTimeCons(rec, recs[..|recs| - 1], start);
    } else {
      assert all[..|all| - 1] == [];
    }
  }

  /** Lines without a usable time leave the reference untouched: after the
      loop the reference is the time of the last sent line whose time parsed. */
  lemma {:induction false} ReplayReference(lines: seq<string>, reference: Option<nat>)
    ensures Replay(lines, reference).reference == LastTime(PosterSends(lines), reference)
    decreases |lines|
  {
    if |lines| > 0 {
      var parsed := ParseLine(lines[0]);
      if parsed.None? || parsed.value == map[] {
        ReplayReference(lines[1..], reference);
      } else {
        var cur := TimeOf(parsed.value);
        ReplayReference(lines[1..], if cur.Some? then cur else reference);
        assert PosterSends(lines) == [parsed.value] + PosterSends(lines[1..]);
        LastTimeCons(parsed.value, PosterSends(lines[1..]), reference);
      }
    }
  }

  /** Each send waits `Pace` of its record's time against the reference
      carried in from the records before it. */
  predicate WaitsFollow(sends: seq<Send>, recs: seq<Record>, reference: Option<nat>) {
    |sends| == |recs|
    && forall i :: 0 <= i < |sends|
         ==> sends[i].wait == Pace(TimeOf(recs[i]), LastTime(recs[..i], reference))
  }

  /** The reference after one record: its time if that parsed, else as before. */
  function Carry(rec: Record, reference: Option<nat>): Option<nat> {
    if TimeOf(rec).Some? then TimeOf(rec) else reference
  }

  lemma WaitsFollowCons(first: Send, rest: seq<Send>, tail: seq<Record>, reference: Option<nat>)
    requires first.wait == Pace(TimeOf(first.record), reference)
    requires WaitsFollow(rest, tail, Carry(first.record, reference))
    ensures WaitsFollow([first] + rest, [first.record] + tail, reference)
  {
    var sends := [first] + rest;
    var recs := [first.record] + tail;
    forall i | 0 <= i < |sends|
      ensures sends[i].wait == Pace(TimeOf(recs[i]), LastTime(recs[..i], reference))
    {
      if i == 0 {
        assert recs[..0] == [];
      } else {
        assert sends[i] == rest[i - 1];
        assert recs[i] == tail[i - 1];
        assert recs[..i] == [first.record] + tail[..i - 1];
        LastTimeCons(first.record, tail[..i - 1], reference);
      }
    }
  }

  /** The wait before each send is `Pace` of that record's time against the
      reference left by the records sent before it. */
  lemma {:induction false} ReplayWaits(lines: seq<string>, reference: Option<nat>)
    ensures WaitsFollow(Replay(lines, reference).sends, PosterSends(lines), reference)
    decreases |lines|
  {
    if |lines| > 0 {
      var parsed := ParseLine(lines[0]);
      if parsed.None? || parsed.value == map[] {
        ReplayWaits(lines[1..], reference);
        assert PosterSends(lines) == PosterSends(lines[1..]);
      } else {
        var next := Carry(parsed.value, reference);
        ReplayWaits(lines[1..], next);
        assert PosterSends(lines) == [parsed.value] + PosterSends(lines[1..]);
        var first := Send(Pace(TimeOf(parsed.value), reference), parsed.value);
        assert Replay(lines, reference).sends == [first] + Replay(lines[1..], next).sends;
        WaitsFollowCons(first, Replay(lines[1..], next).sends, PosterSends(lines[1..]), reference);
      }
    }
  }

  function TotalWait(sends: seq<Send>): nat {
    if |sends| == 0 then 0 else sends[0].wait + TotalWait(sends[1..])
  }

  /** The timed records never go back in time from `t` onwards. */
  predicate MonotoneFrom(recs: seq<Record>, t: nat) {
    |recs| == 0 ||
    match TimeOf(recs[0])
    case None => MonotoneFrom(recs[1..], t)
    case Some(c) => t <= c && MonotoneFrom(recs[1..], c)
  }

  /** For a log whose times never go back, replay is never slower than the
      original: the total wait is at most the span from the starting
      reference time to the last line's time. */
  lemma {:induction false} ReplayNeverSlower(lines: seq<string>, t: nat)
    requires MonotoneFrom(PosterSends(lines), t)
    ensures Replay(lines, Some(t)).reference.Some?
    ensures t + TotalWait(Replay(lines, Some(t)).sends) <= Replay(lines, Some(t)).reference.value
    decreases |lines|
  {
    if |lines| > 0 {
      var parsed := ParseLine(lines[0]);
      if parsed.None? || parsed.value == map[] {
        assert PosterSends(lines) == PosterSends(lines[1..]);
        ReplayNeverSlower(lines[1..], t);
      } else {
        var recs := PosterSends(lines);
        assert recs == [parsed.value] + PosterSends(lines[1..]);
        assert recs[1..] == PosterSends(lines[1..]);
        var cur := TimeOf(parsed.value);
        var next := if cur.Some? then cur.value else t;
        ReplayNeverSlower(lines[1..], next);
        var r := Replay(lines, Some(t));
        assert r.sends[1..] == Replay(lines[1..], Some(next)).sends;
      }
    }
  }

  /** The time of the first record whose time parsed, if any. */
  function FirstTime(recs: seq<Record>): Option<nat> {
    if |recs| == 0 then None
    else if TimeOf(recs[0]).Some? then TimeOf(recs[0])
    else FirstTime(recs[1..])
  }

  /** With no starting reference, a run of records none of whose times
      parsed leaves the reference unknown. */
  lemma {:induction false} NoTimeNoReference(recs: seq<Record>)
    requires forall j :: 0 <= j < |recs| ==> TimeOf(recs[j]).None?
    ensures LastTime(recs, None) == None
    decreases |recs|
  {
    if |recs| > 0 {
      var front := recs[..|recs| - 1];
      assert forall j :: 0 <= j < |front| ==> front[j] == recs[j];
      NoTimeNoReference(front);
    }
  }

  /** From the program's start, no send waits until a record whose time
      parsed has been sent: every send up to and including the first timed
      record goes out at once. */
  lemma ReplayFromStartNoWaitBeforeFirstTime(lines: seq<string>, i: nat)
    requires i < |Replay(lines, None).sends|
    requires forall j :: 0 <= j < i ==> TimeOf(PosterSends(lines)[j]).None?
    ensures Replay(lines, None).sends[i].wait == 0
  {
    ReplayWaits(lines, None);
    var recs := PosterSends(lines);
    var before := recs[..i];
    assert forall j :: 0 <= j < |before| ==> before[j] == recs[j];
    NoTimeNoReference(before);
  }

  /** The same bound from the program's actual start, with no reference
      time: nothing waits before the first timed record, and the total wait
      is at most the span from that record's time to the last one's. */
  lemma {:induction false} ReplayFromStartNeverSlower(lines: seq<string>)
    requires MonotoneFrom(PosterSends(lines), 0)
    ensures Replay(lines, None).reference == FirstTime(PosterSends(lines)) == None
            || (Replay(lines, None).reference.Some? && FirstTime(PosterSends(lines)).Some?)
    ensures Replay(lines, None).reference.None? ==> TotalWait(Replay(lines, None).sends) == 0
    ensures Replay(lines, None).reference.Some?
            ==> FirstTime(PosterSends(lines)).Some?
                && FirstTime(PosterSends(lines)).value + TotalWait(Replay(lines, None).sends)
                   <= Replay(lines, None).reference.value
    decreases |lines|
  {
    if |lines| > 0 {
      var parsed := ParseLine(lines[0]);
      if parsed.None? || parsed.value == map[] {
        assert PosterSends(lines) == PosterSends(lines[1..]);
        ReplayFromStartNeverSlower(lines[1..]);
      } else {
        var recs := PosterSends(lines);
        var tail := PosterSends(lines[1..]);
        assert recs == [parsed.value] + tail;
        assert recs[1..] == tail;
        var cur := TimeOf(parsed.value);
        var r := Replay(lines, None);
        var rest := Replay(lines[1..], cur);
        assert r.sends == [Send(0, parsed.value)] + rest.sends;
        assert r.sends[1..] == rest.sends;
        if cur.None? {
          ReplayFromStartNeverSlower(lines[1..]);
        } else {
          ReplayNeverSlower(lines[1..], cur.value);
        }
      }
    }
  }
}
