/** Values shared by both workers: the messages a worker posts back to the page
    and the byte payloads they carry. */
module Messages {

  type byte = bv8

  datatype Option<T> = None | Some(value: T)

  /** One outbound worker message (`postMessage({type, data})`). A success always
      carries a document tagged as `application/pdf`; only its bytes are kept. */
  datatype Event =
    | Progress(percent: real)
    | Warning(message: string, description: string)
    | Error(message: string, description: string)
    | Success(data: seq<byte>)

  /** Errors and successes end a run; progress and warnings do not. */
  predicate IsTerminal(e: Event) {
    e.Error? || e.Success?
  }

  /** The percentages of the progress messages, in the order they were posted. */
  function ProgressValues(events: seq<Event>): (r: seq<real>)
    ensures |r| <= |events|
    ensures (forall k :: 0 <= k < |events| ==> !events[k].Progress?) ==> r == []
  {
    if events == [] then []
    else (if events[0].Progress? then [events[0].percent] else []) + ProgressValues(events[1..])
  }

  predicate NonDecreasing(xs: seq<real>) {
    forall i, j :: 0 <= i < j < |xs| ==> xs[i] <= xs[j]
  }

  predicate Within(xs: seq<real>, lo: real, hi: real) {
    forall i :: 0 <= i < |xs| ==> lo <= xs[i] <= hi
  }

  lemma {:induction false} ProgressValuesAppend(a: seq<Event>, b: seq<Event>)
    ensures ProgressValues(a + b) == ProgressValues(a) + ProgressValues(b)
  {
    if a != [] {
      assert (a + b)[1..] == a[1..] + b;
      ProgressValuesAppend(a[1..], b);
    } else {
      assert a + b == b;
    }
  }

  /** Two runs of progress glue into one non-decreasing run when the first ends
      no higher than where the second starts. */
  lemma NonDecreasingAppend(xs: seq<real>, ys: seq<real>, mid: real)
    requires NonDecreasing(xs) && NonDecreasing(ys)
    requires forall i :: 0 <= i < |xs| ==> xs[i] <= mid
    requires forall j :: 0 <= j < |ys| ==> mid <= ys[j]
    ensures NonDecreasing(xs + ys)
  {
  }

  /** When every message is a progress message, the percentages are exactly theirs. */
  lemma {:induction false} ProgressValuesAllProgress(events: seq<Event>)
    requires forall k :: 0 <= k < |events| ==> events[k].Progress?
    ensures |ProgressValues(events)| == |events|
    ensures forall k :: 0 <= k < |events| ==> ProgressValues(events)[k] == events[k].percent
  {
    if events != [] {
      ProgressValuesAllProgress(events[1..]);
    }
  }

  /** A run of messages so far: it opened with progress 0, nothing terminal was
      posted, and the progress never went down and has reached `hi` without
      passing it. */
  ghost predicate ProgressedTo(events: seq<Event>, hi: real) {
    var ps := ProgressValues(events);
    && |events| > 0 && events[0] == Progress(0.0)
    && |ps| > 0 && ps[0] == 0.0 && ps[|ps| - 1] == hi
    && NonDecreasing(ps) && Within(ps, 0.0, hi)
    && (forall k :: 0 <= k < |events| ==> !IsTerminal(events[k]))
  }

  /** A stretch of messages whose progress climbs from no lower than `lo` to
      exactly `hi`, with nothing terminal in it. */
  ghost predicate Climbs(tail: seq<Event>, lo: real, hi: real) {
    var ps := ProgressValues(tail);
    && |ps| > 0 && ps[|ps| - 1] == hi
    && NonDecreasing(ps) && Within(ps, lo, hi)
    && (forall k :: 0 <= k < |tail| ==> !IsTerminal(tail[k]))
  }

  lemma ProgressedThenClimbs(events: seq<Event>, tail: seq<Event>, lo: real, hi: real)
    requires ProgressedTo(events, lo) && Climbs(tail, lo, hi) && 0.0 <= lo
    ensures ProgressedTo(events + tail, hi)
  {
    ProgressValuesAppend(events, tail);
    var before, after := ProgressValues(events), ProgressValues(tail);
    var ps := ProgressValues(events + tail);
    NonDecreasingAppend(before, after, lo);
    forall k | 0 <= k < |ps| ensures 0.0 <= ps[k] <= hi {
      if k >= |before| {
        assert ps[k] == after[k - |before|];
      }
    }
    forall k | 0 <= k < |events + tail| ensures !IsTerminal((events + tail)[k]) {
      if k >= |events| {
        assert (events + tail)[k] == tail[k - |events|];
      }
    }
  }

  /** Messages without progress leave the progress where it was. */
  lemma ProgressedThenQuiet(events: seq<Event>, quiet: seq<Event>, hi: real)
    requires ProgressedTo(events, hi)
    requires forall k :: 0 <= k < |quiet| ==> quiet[k].Warning?
    ensures ProgressedTo(events + quiet, hi)
  {
    ProgressValuesAppend(events, quiet);
    forall k | 0 <= k < |events + quiet| ensures !IsTerminal((events + quiet)[k]) {
      if k >= |events| {
        assert (events + quiet)[k] == quiet[k - |events|];
      }
    }
  }

  lemma WithinWiden(xs: seq<real>, lo: real, hi: real, hi': real)
    requires Within(xs, lo, hi) && hi <= hi'
    ensures Within(xs, lo, hi')
  {
  }

  /** Messages without progress followed by one progress report of `hi` climb to `hi`. */
  lemma QuietThenReport(quiet: seq<Event>, lo: real, hi: real)
    requires lo <= hi
    requires forall k :: 0 <= k < |quiet| ==> quiet[k].Warning?
    ensures Climbs(quiet + [Progress(hi)], lo, hi)
  {
    ProgressValuesAppend(quiet, [Progress(hi)]);
    assert ProgressValues([Progress(hi)]) == [hi];
    forall k | 0 <= k < |quiet + [Progress(hi)]| ensures !IsTerminal((quiet + [Progress(hi)])[k]) {
      if k < |quiet| {
        assert (quiet + [Progress(hi)])[k] == quiet[k];
      }
    }
  }

  /** What a finished run looks like when it has progressed to `top` (at most
      100) and then ends with one terminal message, possibly after a final
      progress report of 100. */
  lemma ProgressedThenEnds(events: seq<Event>, top: real, ending: seq<Event>)
    requires ProgressedTo(events, top) && top <= 100.0
    requires |ending| > 0 && IsTerminal(ending[|ending| - 1])
    requires ending == [Progress(100.0), ending[|ending| - 1]] || |ending| == 1
    ensures var ps := ProgressValues(events + ending);
      |ps| > 0 && ps[0] == 0.0 && NonDecreasing(ps) && Within(ps, 0.0, 100.0)
  {
    ProgressValuesAppend(events, ending);
    var loop := ProgressValues(events);
    WithinWiden(loop, 0.0, top, 100.0);
    if |ending| == 1 {
      assert ProgressValues(ending) == [];
      assert ProgressValues(events + ending) == loop;
    } else {
      assert ProgressValues(ending) == [100.0];
      NonDecreasingAppend(loop, [100.0], top);
    }
  }
}
