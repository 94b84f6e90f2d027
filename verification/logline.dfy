/** The pipe-delimited log-line parser shared by the two replay senders
    (`parse_line` in poster.py and scrips/realtime.py) and the poster's
    send loop. A line `STATUS|Key:Value|Flag` becomes a map of fields. */
module LogLine {
  import opened Wrappers
  import opened Text

  type Record = map<string, string>

  /** The field name of one segment: the text before its first `:`, or the
      whole segment when it has no `:`. */
  function KeyOf(seg: string): string {
    if ':' in seg then seg[..IndexOf(seg, ':')] else seg
  }

  /** The field value of one segment: everything after its first `:` (so it
      may itself contain `:`), or the empty string when it has no `:`. */
  function ValueOf(seg: string): string {
    if ':' in seg then seg[IndexOf(seg, ':') + 1..] else ""
  }

  /** `p.split(":", 1)`: the key never holds a `:`; for a segment with a
      colon, key, colon and value put back together give the segment; a
      segment without one is its own key with the empty value. */
  lemma SegmentSplit(seg: string)
    ensures ':' !in KeyOf(seg)
    ensures ':' in seg ==> KeyOf(seg) + ":" + ValueOf(seg) == seg
    ensures ':' !in seg ==> KeyOf(seg) == seg && ValueOf(seg) == ""
  {
  }

  /** The loop over `parts[1:]`: each segment in turn stores its value under
      its key, overwriting any earlier value. */
  function Absorb(data: Record, segs: seq<string>): (r: Record)
    ensures r.Keys == data.Keys + set i | 0 <= i < |segs| :: KeyOf(segs[i])
    decreases |segs|
  {
    if |segs| == 0 then data
    else
      var r := Absorb(data[KeyOf(segs[0]) := ValueOf(segs[0])], segs[1..]);
      assert (set i | 0 <= i < |segs| :: KeyOf(segs[i]))
          == {KeyOf(segs[0])} + set i | 0 <= i < |segs[1..]| :: KeyOf(segs[1..][i]) by {
        forall i | 0 < i < |segs| ensures KeyOf(segs[i]) == KeyOf(segs[1..][i - 1]) { }
      }
      r
  }

  /** `parse_line`: None for a blank line, otherwise `Status` bound to the
      first `|`-piece of the stripped line, then every later piece absorbed. */
  function ParseLine(line: string): (r: Option<Record>)
    ensures r.None? <==> IsBlank(line)
    ensures r.Some? ==> "Status" in r.value
  {
    StripSpec(line);
    var t := Strip(line);
    if t == [] then None
    else
      var parts := Split(t, '|');
      Some(Absorb(map["Status" := parts[0]], parts[1..]))
  }

  /** True when segment `i` is the last of `segs` that carries key `k`. */
  predicate LastWithKey(segs: seq<string>, i: int, k: string) {
    0 <= i < |segs| && KeyOf(segs[i]) == k
    && forall j :: i < j < |segs| ==> KeyOf(segs[j]) != k
  }

  /** Absorbing segments leaves a key's value as the value of the LAST
      segment with that key, or as it was when no segment has that key. */
  lemma {:induction false} AbsorbLastWins(data: Record, segs: seq<string>, k: string)
    ensures (forall i :: 0 <= i < |segs| ==> KeyOf(segs[i]) != k) && k in data
            ==> Absorb(data, segs)[k] == data[k]
    ensures forall i :: LastWithKey(segs, i, k) ==> Absorb(data, segs)[k] == ValueOf(segs[i])
    decreases |segs|
  {
    if |segs| > 0 {
      var d' := data[KeyOf(segs[0]) := ValueOf(segs[0])];
      AbsorbLastWins(d', segs[1..], k);
      forall i | LastWithKey(segs, i, k) ensures Absorb(data, segs)[k] == ValueOf(segs[i]) {
        if i > 0 {
          assert LastWithKey(segs[1..], i - 1, k);
        } else {
          assert forall j :: 0 <= j < |segs[1..]| ==> KeyOf(segs[1..][j]) == KeyOf(segs[j + 1]);
        }
      }
      if (forall i :: 0 <= i < |segs| ==> KeyOf(segs[i]) != k) && k in data {
        assert forall j :: 0 <= j < |segs[1..]| ==> KeyOf(segs[1..][j]) == KeyOf(segs[j + 1]);
      }
    }
  }

  /** The `|`-pieces of a non-blank line, as `parse_line` sees them. */
  function Pieces(line: string): (parts: seq<string>)
    ensures |parts| >= 1 && forall i :: 0 <= i < |parts| ==> '|' !in parts[i]
  {
    Split(Strip(line), '|')
  }

  /** The keys of a parsed non-blank line: `Status` and the key of every
      piece after the head. */
  lemma ParseLineKeys(line: string)
    requires !IsBlank(line)
    ensures ParseLine(line).Some?
    ensures ParseLine(line).value.Keys
            == {"Status"} + set i | 1 <= i < |Pieces(line)| :: KeyOf(Pieces(line)[i])
  {
    var parts := Pieces(line);
    var segs := parts[1..];
    assert ParseLine(line).value == Absorb(map["Status" := parts[0]], segs);
    assert (set i | 1 <= i < |parts| :: KeyOf(parts[i])) == set i | 0 <= i < |segs| :: KeyOf(segs[i]) by {
      forall i | 1 <= i < |parts| ensures KeyOf(parts[i]) == KeyOf(segs[i - 1]) { }
      forall i | 0 <= i < |segs| ensures KeyOf(segs[i]) == KeyOf(parts[i + 1]) { }
    }
  }

  /** Each key of a parsed line holds the value of its last piece, and
      `Status` holds the head piece unless a later piece is keyed `Status`. */
  lemma ParseLineValues(line: string)
    requires !IsBlank(line)
    ensures ParseLine(line).Some?
    ensures forall i ::
              1 <= i < |Pieces(line)| && LastWithKey(Pieces(line), i, KeyOf(Pieces(line)[i]))
              ==> ParseLine(line).value[KeyOf(Pieces(line)[i])] == ValueOf(Pieces(line)[i])
    ensures (forall i :: 1 <= i < |Pieces(line)| ==> KeyOf(Pieces(line)[i]) != "Status")
            ==> ParseLine(line).value["Status"] == Pieces(line)[0]
  {
    var parts := Pieces(line);
    var segs := parts[1..];
    var r := ParseLine(line).value;
    assert r == Absorb(map["Status" := parts[0]], segs);
    forall i | 1 <= i < |parts| && LastWithKey(parts, i, KeyOf(parts[i]))
      ensures r[KeyOf(parts[i])] == ValueOf(parts[i])
    {
      AbsorbLastWins(map["Status" := parts[0]], segs, KeyOf(parts[i]));
      assert LastWithKey(segs, i - 1, KeyOf(parts[i]));
    }
    if forall i :: 1 <= i < |parts| ==> KeyOf(parts[i]) != "Status" {
      AbsorbLastWins(map["Status" := parts[0]], segs, "Status");
      assert forall i :: 0 <= i < |segs| ==> KeyOf(segs[i]) == KeyOf(parts[i + 1]);
    }
  }

  /** The head piece, which `Status` holds by default, is the stripped line up
      to (not including) its first `|`, or the whole stripped line. */
  lemma HeadPiece(line: string)
    ensures '|' !in Pieces(line)[0]
    ensures Pieces(line)[0] == Strip(line)
            || (|Pieces(line)[0]| < |Strip(line)|
                && Strip(line)[..|Pieces(line)[0]| + 1] == Pieces(line)[0] + "|")
  {
  }

  /** The send loop of poster.py: every line is parsed and sent when the
      result is truthy (`if parsed:`, a non-empty dict). */
  function PosterSends(lines: seq<string>): seq<Record> {
    if |lines| == 0 then []
    else
      var parsed := ParseLine(lines[0]);
      if parsed.Some? && parsed.value != map[] then [parsed.value] + PosterSends(lines[1..])
      else PosterSends(lines[1..])
  }

  /** Number of lines that are not blank. */
  function NonBlankCount(lines: seq<string>): nat {
    if |lines| == 0 then 0
    else (if IsBlank(lines[0]) then 0 else 1) + NonBlankCount(lines[1..])
  }

  /** The `if parsed:` test never filters out a parsed line: the poster sends
      one record per non-blank line, each the parse of that line, and nothing
      for blank lines. */
  lemma {:induction false} PosterSendsEveryNonBlankLine(lines: seq<string>)
    ensures |PosterSends(lines)| == NonBlankCount(lines)
    ensures forall i :: 0 <= i < |PosterSends(lines)| ==> "Status" in PosterSends(lines)[i]
    ensures |lines| > 0 && !IsBlank(lines[0])
            ==> PosterSends(lines)[0] == ParseLine(lines[0]).value
  {
    if |lines| > 0 {
      PosterSendsEveryNonBlankLine(lines[1..]);
      var parsed := ParseLine(lines[0]);
      var rest := PosterSends(lines[1..]);
      if parsed.Some? {
        assert "Status" in parsed.value;
        assert parsed.value != map[];
        assert PosterSends(lines) == [parsed.value] + rest;
      } else {
        assert PosterSends(lines) == rest;
      }
    }
  }
}
