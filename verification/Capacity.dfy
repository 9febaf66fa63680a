/** capacity_metrics.py: the figures a track derives from its timeline, and why they add up. */
module Capacity {
  import opened Options
  import opened Timeline
  import opened Sorting

  // ---- sums over the instants of a window ----

  function Total(f: int -> int, lo: int, hi: int): int
    decreases hi - lo
  {
    if hi <= lo then 0 else Total(f, lo, hi - 1) + f(hi - 1)
  }

  lemma {:induction false} TotalSplit(f: int -> int, lo: int, mid: int, hi: int)
    requires lo <= mid <= hi
    ensures Total(f, lo, hi) == Total(f, lo, mid) + Total(f, mid, hi)
    decreases hi - mid
  {
    if mid < hi { TotalSplit(f, lo, mid, hi - 1); }
  }

  lemma {:induction false} TotalSame(f: int -> int, g: int -> int, lo: int, hi: int)
    requires forall t :: lo <= t < hi ==> f(t) == g(t)
    ensures Total(f, lo, hi) == Total(g, lo, hi)
    decreases hi - lo
  {
    if lo < hi { TotalSame(f, g, lo, hi - 1); }
  }

  lemma {:induction false} TotalConstant(f: int -> int, c: int, lo: int, hi: int)
    requires lo <= hi && forall t :: lo <= t < hi ==> f(t) == c
    ensures Total(f, lo, hi) == (hi - lo) * c
    decreases hi - lo
  {
    if lo < hi {
      TotalConstant(f, c, lo, hi - 1);
      assert (hi - lo) * c == (hi - 1 - lo) * c + c;
    }
  }

  lemma {:induction false} TotalAdd(f: int -> int, g: int -> int, h: int -> int, lo: int, hi: int)
    requires forall t :: lo <= t < hi ==> h(t) == f(t) + g(t)
    ensures Total(h, lo, hi) == Total(f, lo, hi) + Total(g, lo, hi)
    decreases hi - lo
  {
    if lo < hi { TotalAdd(f, g, h, lo, hi - 1); }
  }

  lemma {:induction false} TotalAtMost(f: int -> int, g: int -> int, lo: int, hi: int)
    requires forall t :: lo <= t < hi ==> f(t) <= g(t)
    ensures Total(f, lo, hi) <= Total(g, lo, hi)
    decreases hi - lo
  {
    if lo < hi { TotalAtMost(f, g, lo, hi - 1); }
  }

  // ---- the questions a track answers ----

  function Peak(segments: seq<Segment>): int
  {
    if segments == [] then 0
    else if |segments| == 1 then segments[0].active
    else Max(Peak(segments[..|segments| - 1]), segments[|segments| - 1].active)
  }

  function BusyTime(segments: seq<Segment>): int
  {
    if segments == [] then 0
    else BusyTime(segments[..|segments| - 1]) +
         segments[|segments| - 1].Length() * segments[|segments| - 1].active
  }

  function OccupiedTime(segments: seq<Segment>): int
  {
    if segments == [] then 0
    else OccupiedTime(segments[..|segments| - 1]) +
         (if segments[|segments| - 1].active > 0 then segments[|segments| - 1].Length() else 0)
  }

  /** Of the instants in `[lo, hi)`, how many see at least `level` runs. */
  ghost function TimeAtOrAbove(runs: seq<Interval>, level: int, lo: int, hi: int): int
  {
    Total(t => if Concurrency(runs, t) >= level then 1 else 0, lo, hi)
  }

  /** The sum over every instant of the runs it sees. */
  ghost function RunTime(runs: seq<Interval>, lo: int, hi: int): int
  {
    Total(t => Concurrency(runs, t), lo, hi)
  }

  ghost predicate Measures(segments: seq<Segment>, runs: seq<Interval>)
  {
    forall i, t :: 0 <= i < |segments| && Within(segments[i], t) ==> segments[i].active == Concurrency(runs, t)
  }

  lemma TilesInit(segments: seq<Segment>, lo: int, hi: int)
    requires Tiles(segments, lo, hi) && segments != []
    ensures Tiles(segments[..|segments| - 1], lo, segments[|segments| - 1].start)
    ensures lo <= segments[|segments| - 1].start < hi == segments[|segments| - 1].end
  {
    TilesInside(segments, lo, hi);
    var init := segments[..|segments| - 1];
    assert init != [] ==> init[|init| - 1] == segments[|segments| - 2];
  }

  /** `_Track.seconds_at_or_above`: exactly the saturated instants of the asked-for range. */
  method SecondsAtOrAbove(segments: seq<Segment>, level: int, lower: int, upper: int,
                          ghost runs: seq<Interval>, ghost lo: int, ghost hi: int) returns (total: int)
    requires Tiles(segments, lo, hi) && Measures(segments, runs)
    ensures total == TimeAtOrAbove(runs, level, Max(lower, lo), Min(upper, hi))
  {
    total := 0;
    TilesInside(segments, lo, hi);
    ghost var f := t => if Concurrency(runs, t) >= level then 1 else 0;
    ghost var reached := lo;
    for i := 0 to |segments|
      invariant lo <= reached <= hi
      invariant reached == if i == 0 then lo else segments[i - 1].end
      invariant total == Total(f, Max(lower, lo), Min(upper, reached))
    {
      var s := segments[i];
      assert s.start == reached;
      var from := Max(s.start, lower);
      var to := Min(s.end, upper);
      if from < to {
        forall t | from <= t < to ensures s.active == Concurrency(runs, t) {
          assert Within(segments[i], t);
        }
        TotalConstant(f, if s.active >= level then 1 else 0, from, to);
        if Max(lower, lo) <= Min(upper, reached) {
          TotalSplit(f, Max(lower, lo), Min(upper, reached), to);
        }
      }
      if s.active >= level && to > from {
        total := total + (to - from);
      }
      reached := s.end;
    }
  }

  lemma {:induction false} BusyIsRunTime(segments: seq<Segment>, runs: seq<Interval>, lo: int, hi: int)
    requires Tiles(segments, lo, hi) && Measures(segments, runs)
    ensures BusyTime(segments) == RunTime(runs, lo, hi)
  {
    if segments != [] {
      TilesInit(segments, lo, hi);
      var n := |segments| - 1;
      var s := segments[n];
      BusyIsRunTime(segments[..n], runs, lo, s.start);
      var f := t => Concurrency(runs, t);
      forall t | s.start <= t < s.end ensures f(t) == s.active { assert Within(segments[n], t); }
      TotalConstant(f, s.active, s.start, s.end);
      TotalSplit(f, lo, s.start, hi);
    }
  }

  lemma {:induction false} OccupiedIsLevelOne(segments: seq<Segment>, runs: seq<Interval>, lo: int, hi: int)
    requires Tiles(segments, lo, hi) && Measures(segments, runs)
    ensures OccupiedTime(segments) == TimeAtOrAbove(runs, 1, lo, hi)
  {
    if segments != [] {
      TilesInit(segments, lo, hi);
      var n := |segments| - 1;
      var s := segments[n];
      OccupiedIsLevelOne(segments[..n], runs, lo, s.start);
      var f := t => if Concurrency(runs, t) >= 1 then 1 else 0;
      forall t | s.start <= t < s.end ensures f(t) == if s.active > 0 then 1 else 0 {
        assert Within(segments[n], t);
      }
      TotalConstant(f, if s.active > 0 then 1 else 0, s.start, s.end);
      TotalSplit(f, lo, s.start, hi);
    }
  }

  /** The peak is the greatest concurrency any instant sees, and some instant sees it. */
  lemma {:induction false} PeakIsMaximum(segments: seq<Segment>, runs: seq<Interval>, lo: int, hi: int)
    requires Tiles(segments, lo, hi) && Measures(segments, runs)
    ensures forall t :: lo <= t < hi ==> Concurrency(runs, t) <= Peak(segments)
    ensures lo < hi ==> exists t :: lo <= t < hi && Concurrency(runs, t) == Peak(segments)
    ensures 0 <= Peak(segments)
  {
    if segments != [] {
      TilesInit(segments, lo, hi);
      var n := |segments| - 1;
      var s := segments[n];
      PeakIsMaximum(segments[..n], runs, lo, s.start);
      assert Within(segments[n], s.start);
      forall t | lo <= t < hi ensures Concurrency(runs, t) <= Peak(segments) {
        if s.start <= t { assert Within(segments[n], t); }
      }
      if s.active == Peak(segments) {
        assert Concurrency(runs, s.start) == Peak(segments);
      } else {
        TilesInside(segments[..n], lo, s.start);
        assert lo == segments[..n][0].start;
        var t :| lo <= t < s.start && Concurrency(runs, t) == Peak(segments[..n]);
        assert Concurrency(runs, t) == Peak(segments);
      }
    }
  }

  // ---- conservation ----

  function ClippedTime(runs: seq<Interval>, w: Window): int
  {
    if runs == [] then 0
    else Max(0, Min(runs[0].end, w.end) - Max(runs[0].start, w.start)) + ClippedTime(runs[1..], w)
  }

  lemma OneRunTime(run: Interval, w: Window)
    requires w.Valid()
    ensures Total(t => if Covers(run, t) then 1 else 0, w.start, w.end)
         == Max(0, Min(run.end, w.end) - Max(run.start, w.start))
  {
    var f := t => if Covers(run, t) then 1 else 0;
    var lo, hi := Max(run.start, w.start), Min(run.end, w.end);
    if lo < hi {
      TotalSplit(f, w.start, lo, w.end);
      TotalSplit(f, lo, hi, w.end);
      TotalConstant(f, 0, w.start, lo);
      TotalConstant(f, 1, lo, hi);
      TotalConstant(f, 0, hi, w.end);
    } else {
      TotalConstant(f, 0, w.start, w.end);
    }
  }

  lemma {:induction false} RunTimeIsClippedTime(runs: seq<Interval>, w: Window)
    requires w.Valid()
    ensures RunTime(runs, w.start, w.end) == ClippedTime(runs, w)
  {
    var h := t => Concurrency(runs, t);
    if runs == [] {
      TotalConstant(h, 0, w.start, w.end);
    } else {
      RunTimeIsClippedTime(runs[1..], w);
      OneRunTime(runs[0], w);
      TotalAdd(t => if Covers(runs[0], t) then 1 else 0, t => Concurrency(runs[1..], t), h, w.start, w.end);
    }
  }

  /** `seconds_at_or_above(1) + ... + seconds_at_or_above(top)` over the whole window. */
  ghost function LevelSum(runs: seq<Interval>, top: int, lo: int, hi: int): int
    decreases top
  {
    if top <= 0 then 0 else LevelSum(runs, top - 1, lo, hi) + TimeAtOrAbove(runs, top, lo, hi)
  }

  lemma {:induction false} LevelSumIsCappedRunTime(runs: seq<Interval>, top: int, lo: int, hi: int)
    requires 0 <= top && lo <= hi
    ensures LevelSum(runs, top, lo, hi) == Total(t => Min(Concurrency(runs, t), top), lo, hi)
    decreases top
  {
    var h := t => Min(Concurrency(runs, t), top);
    if top == 0 {
      TotalConstant(h, 0, lo, hi);
    } else {
      LevelSumIsCappedRunTime(runs, top - 1, lo, hi);
      TotalAdd(t => Min(Concurrency(runs, t), top - 1), t => if Concurrency(runs, t) >= top then 1 else 0, h, lo, hi);
    }
  }

  lemma LevelsMakeUpRunTime(runs: seq<Interval>, top: int, lo: int, hi: int)
    requires 0 <= top && lo <= hi && forall t :: lo <= t < hi ==> Concurrency(runs, t) <= top
    ensures LevelSum(runs, top, lo, hi) == RunTime(runs, lo, hi)
  {
    LevelSumIsCappedRunTime(runs, top, lo, hi);
    TotalSame(t => Concurrency(runs, t), t => Min(Concurrency(runs, t), top), lo, hi);
  }

  lemma RunTimeBounds(runs: seq<Interval>, top: int, lo: int, hi: int)
    requires lo <= hi && forall t :: lo <= t < hi ==> Concurrency(runs, t) <= top
    ensures 0 <= TimeAtOrAbove(runs, 1, lo, hi) <= RunTime(runs, lo, hi) <= top * (hi - lo)
    ensures TimeAtOrAbove(runs, 1, lo, hi) <= hi - lo
    decreases hi - lo
  {
    var f := t => Concurrency(runs, t);
    var one := t => if Concurrency(runs, t) >= 1 then 1 else 0;
    TotalAtMost(one, f, lo, hi);
    TotalAtMost(f, t => top, lo, hi);
    TotalConstant(t => top, top, lo, hi);
    TotalAtMost(t => 0, one, lo, hi);
    TotalConstant(t => 0, 0, lo, hi);
    TotalAtMost(one, t => 1, lo, hi);
    TotalConstant(t => 1, 1, lo, hi);
  }

  /** Busy time is one quantity counted three ways, and it is bounded by what the window holds. */
  lemma BusyTimeConserved(segments: seq<Segment>, runs: seq<Interval>, w: Window)
    requires w.Valid() && IsTimeline(segments, runs, w)
    ensures BusyTime(segments) == ClippedTime(runs, w)
    ensures BusyTime(segments) == LevelSum(runs, Peak(segments), w.start, w.end)
    ensures 0 <= OccupiedTime(segments) <= BusyTime(segments) <= Peak(segments) * w.Length()
    ensures OccupiedTime(segments) <= w.Length()
  {
    BusyIsRunTime(segments, runs, w.start, w.end);
    RunTimeIsClippedTime(runs, w);
    PeakIsMaximum(segments, runs, w.start, w.end);
    LevelsMakeUpRunTime(runs, Peak(segments), w.start, w.end);
    OccupiedIsLevelOne(segments, runs, w.start, w.end);
    RunTimeBounds(runs, Peak(segments), w.start, w.end);
  }

  // ---- records, projects and pools ----

  /** The part of a usage record the reading pass uses; an absent timestamp was not observed. */
  datatype Record = Record(project: string, worker: string, queued: Option<int>, started: Option<int>, finished: Option<int>)
  datatype Run = Run(span: Interval, record: Record)
  datatype Coverage = Coverage(records: nat, runsTimed: nat, runsUntimed: nat, runsOutside: nat, runsClipped: nat,
                               waitsTimed: nat, waitsUntimed: nat, waitsOutside: nat)

  /** `_clip`. */
  function ClipRun(run: Interval, w: Window): Option<Interval>
  {
    if run.end <= w.start || run.start >= w.end then None else Some(Clip(run, w))
  }

  function Spans(runs: seq<Run>): seq<Interval>
  {
    if runs == [] then [] else Spans(runs[..|runs| - 1]) + [runs[|runs| - 1].span]
  }

  /** Every run whose start and finish were observed, unclipped. */
  function Observed(records: seq<Record>): seq<Interval>
  {
    if records == [] then []
    else
      var r := records[|records| - 1];
      Observed(records[..|records| - 1]) +
      (if r.started.Some? && r.finished.Some? then [Interval(r.started.value, r.finished.value)] else [])
  }

  // What a record can be to a window, as a run and as a wait. A run of no length inside the window is still timed,
  // and so is a wait of no length at its edge.

  function RunTimed(w: Window): Record -> bool
  {
    (r: Record) => r.started.Some? && r.finished.Some? && w.start < r.finished.value && r.started.value < w.end
  }

  function RunOutside(w: Window): Record -> bool
  {
    (r: Record) => r.started.Some? && r.finished.Some? && !RunTimed(w)(r)
  }

  function RunClipped(w: Window): Record -> bool
  {
    (r: Record) => RunTimed(w)(r) && (r.started.value < w.start || w.end < r.finished.value)
  }

  function RunUntimed(): Record -> bool
  {
    (r: Record) => r.started.None? || r.finished.None?
  }

  function WaitTimed(w: Window): Record -> bool
  {
    (r: Record) => r.queued.Some? && r.started.Some? && w.start <= r.started.value && r.queued.value <= w.end
  }

  function WaitOutside(w: Window): Record -> bool
  {
    (r: Record) => r.queued.Some? && r.started.Some? && !WaitTimed(w)(r)
  }

  function WaitUntimed(): Record -> bool
  {
    (r: Record) => r.queued.None? || r.started.None?
  }

  /** The record was queued and not yet started throughout some part of the window. */
  function Waited(w: Window): Record -> bool
  {
    (r: Record) => r.queued.Some? && r.started.Some? &&
                   Max(r.queued.value, w.start) < Min(r.started.value, w.end)
  }

  /** Being listed as a wait is having been queued at some instant of the window. */
  lemma WaitedMeans(r: Record, w: Window)
    ensures Waited(w)(r) <==>
            r.queued.Some? && r.started.Some? &&
            exists t :: w.start <= t < w.end && Covers(Interval(r.queued.value, r.started.value), t)
  {
    if Waited(w)(r) {
      assert Covers(Interval(r.queued.value, r.started.value), Max(r.queued.value, w.start));
    }
  }

  /** How many of the records meet the condition. */
  function Tally(records: seq<Record>, kind: Record -> bool): nat
  {
    |Filter(records, kind)|
  }

  ghost predicate Counted(c: Coverage, records: seq<Record>, w: Window)
  {
    c.runsTimed == Tally(records, RunTimed(w)) && c.runsOutside == Tally(records, RunOutside(w)) &&
    c.runsClipped == Tally(records, RunClipped(w)) && c.runsUntimed == Tally(records, RunUntimed()) &&
    c.waitsTimed == Tally(records, WaitTimed(w)) && c.waitsOutside == Tally(records, WaitOutside(w)) &&
    c.waitsUntimed == Tally(records, WaitUntimed())
  }

  /** The runs are the timed records in order, each over the part of its own span inside the window. */
  ghost predicate ListsRuns(busy: seq<Run>, timed: seq<Record>, w: Window)
  {
    |busy| == |timed| &&
    forall i :: 0 <= i < |busy| ==>
      busy[i].record == timed[i] && timed[i].started.Some? && timed[i].finished.Some? &&
      busy[i].span == Clip(Interval(timed[i].started.value, timed[i].finished.value), w)
  }

  ghost predicate ListsWaits(waits: seq<Run>, waited: seq<Record>, w: Window)
  {
    |waits| == |waited| &&
    forall i :: 0 <= i < |waits| ==>
      waits[i].record == waited[i] && waited[i].queued.Some? && waited[i].started.Some? &&
      waits[i].span == Clip(Interval(waited[i].queued.value, waited[i].started.value), w)
  }

  lemma FilterStep(seen: seq<Record>, r: Record, kind: Record -> bool)
    ensures Filter(seen + [r], kind) == Filter(seen, kind) + (if kind(r) then [r] else [])
  {
    FilterConcat(seen, [r], kind);
    assert [r][1..] == [];
  }

  function Bumped(c: Coverage, r: Record, w: Window): Coverage
  {
    c.(runsTimed := c.runsTimed + (if RunTimed(w)(r) then 1 else 0),
       runsOutside := c.runsOutside + (if RunOutside(w)(r) then 1 else 0),
       runsClipped := c.runsClipped + (if RunClipped(w)(r) then 1 else 0),
       runsUntimed := c.runsUntimed + (if RunUntimed()(r) then 1 else 0),
       waitsTimed := c.waitsTimed + (if WaitTimed(w)(r) then 1 else 0),
       waitsOutside := c.waitsOutside + (if WaitOutside(w)(r) then 1 else 0),
       waitsUntimed := c.waitsUntimed + (if WaitUntimed()(r) then 1 else 0))
  }

  lemma CountedStep(c: Coverage, seen: seq<Record>, r: Record, w: Window)
    requires Counted(c, seen, w)
    ensures Counted(Bumped(c, r, w), seen + [r], w)
  {
    FilterStep(seen, r, RunTimed(w));
    FilterStep(seen, r, RunOutside(w));
    FilterStep(seen, r, RunClipped(w));
    FilterStep(seen, r, RunUntimed());
    FilterStep(seen, r, WaitTimed(w));
    FilterStep(seen, r, WaitOutside(w));
    FilterStep(seen, r, WaitUntimed());
  }

  /** Every record is one thing as a run and one thing as a wait. */
  lemma {:induction false} CountsPartition(c: Coverage, records: seq<Record>, w: Window)
    requires Counted(c, records, w)
    ensures c.runsTimed + c.runsUntimed + c.runsOutside == |records|
    ensures c.waitsTimed + c.waitsUntimed + c.waitsOutside == |records|
    ensures c.runsClipped <= c.runsTimed && Tally(records, Waited(w)) <= c.waitsTimed
    decreases |records|
  {
    if records != [] {
      var rest := records[1..];
      CountsPartition(Coverage(0, Tally(rest, RunTimed(w)), Tally(rest, RunUntimed()), Tally(rest, RunOutside(w)),
                               Tally(rest, RunClipped(w)), Tally(rest, WaitTimed(w)), Tally(rest, WaitUntimed()),
                               Tally(rest, WaitOutside(w))), rest, w);
    }
  }

  /** `_read`: the runs and the waits are exactly the records that have one inside the window, every counter is
      the number of records of its kind, every record is accounted for once as a run and once as a wait, and
      clipping the runs changes nothing any instant of the window can see. */
  method Read(records: seq<Record>, w: Window) returns (busy: seq<Run>, waits: seq<Run>, counts: Coverage)
    requires w.Valid()
    ensures counts.records == |records| && Counted(counts, records, w)
    ensures counts.runsTimed + counts.runsUntimed + counts.runsOutside == |records|
    ensures counts.waitsTimed + counts.waitsUntimed + counts.waitsOutside == |records|
    ensures counts.runsClipped <= counts.runsTimed && |waits| <= counts.waitsTimed
    ensures ListsRuns(busy, Filter(records, RunTimed(w)), w)
    ensures ListsWaits(waits, Filter(records, Waited(w)), w)
    ensures forall t :: w.start <= t < w.end ==>
      Concurrency(Spans(busy), t) == Concurrency(Observed(records), t)
  {
    busy, waits := [], [];
    counts := Coverage(|records|, 0, 0, 0, 0, 0, 0, 0);
    for k := 0 to |records|
      invariant counts.records == |records| && Counted(counts, records[..k], w)
      invariant ListsRuns(busy, Filter(records[..k], RunTimed(w)), w)
      invariant ListsWaits(waits, Filter(records[..k], Waited(w)), w)
      invariant forall t :: w.start <= t < w.end ==>
        Concurrency(Spans(busy), t) == Concurrency(Observed(records[..k]), t)
    {
      var r := records[k];
      ghost var before, beforeWaits, beforeCounts := busy, waits, counts;
      assert records[..k + 1] == records[..k] + [r];
      if r.started.Some? && r.finished.Some? {
        var whole := Interval(r.started.value, r.finished.value);
        var span := ClipRun(whole, w);
        if span.None? {
          counts := counts.(runsOutside := counts.runsOutside + 1);
        } else {
          if span.value != whole {
            counts := counts.(runsClipped := counts.runsClipped + 1);
          }
          counts := counts.(runsTimed := counts.runsTimed + 1);
          busy := busy + [Run(span.value, r)];
        }
      } else {
        counts := counts.(runsUntimed := counts.runsUntimed + 1);
      }
      if r.queued.Some? && r.started.Some? {
        if r.started.value >= w.start && r.queued.value <= w.end {
          counts := counts.(waitsTimed := counts.waitsTimed + 1);
          var lower := Max(r.queued.value, w.start);
          var upper := Min(r.started.value, w.end);
          if upper > lower {
            waits := waits + [Run(Interval(lower, upper), r)];
          }
        } else {
          counts := counts.(waitsOutside := counts.waitsOutside + 1);
        }
      } else {
        counts := counts.(waitsUntimed := counts.waitsUntimed + 1);
      }
      assert counts == Bumped(beforeCounts, r, w);
      CountedStep(beforeCounts, records[..k], r, w);
      ReadStep(records[..k], r, before, busy, w);
      ListedStep(records[..k], r, before, busy, beforeWaits, waits, w);
    }
    assert records[..|records|] == records;
    CountsPartition(counts, records, w);
  }

  lemma ListedStep(seen: seq<Record>, r: Record, before: seq<Run>, busy: seq<Run>, beforeWaits: seq<Run>,
                   waits: seq<Run>, w: Window)
    requires ListsRuns(before, Filter(seen, RunTimed(w)), w) && ListsWaits(beforeWaits, Filter(seen, Waited(w)), w)
    requires busy == if RunTimed(w)(r)
                     then before + [Run(Clip(Interval(r.started.value, r.finished.value), w), r)] else before
    requires waits == if Waited(w)(r)
                      then beforeWaits + [Run(Clip(Interval(r.queued.value, r.started.value), w), r)] else beforeWaits
    ensures ListsRuns(busy, Filter(seen + [r], RunTimed(w)), w)
    ensures ListsWaits(waits, Filter(seen + [r], Waited(w)), w)
  {
    FilterStep(seen, r, RunTimed(w));
    FilterStep(seen, r, Waited(w));
  }

  lemma ReadStep(seen: seq<Record>, r: Record, before: seq<Run>, after: seq<Run>, w: Window)
    requires w.Valid()
    requires forall t :: w.start <= t < w.end ==> Concurrency(Spans(before), t) == Concurrency(Observed(seen), t)
    requires
      if r.started.Some? && r.finished.Some? && ClipRun(Interval(r.started.value, r.finished.value), w).Some?
      then after == before + [Run(ClipRun(Interval(r.started.value, r.finished.value), w).value, r)]
      else after == before
    ensures forall t :: w.start <= t < w.end ==>
              Concurrency(Spans(after), t) == Concurrency(Observed(seen + [r]), t)
  {
    assert (seen + [r])[..|seen|] == seen;
    forall t | w.start <= t < w.end ensures Concurrency(Spans(after), t) == Concurrency(Observed(seen + [r]), t) {
      if r.started.Some? && r.finished.Some? {
        var whole := Interval(r.started.value, r.finished.value);
        assert Observed(seen + [r]) == Observed(seen) + [whole];
        ConcurrencyAppend(Observed(seen), [whole], t);
        assert [whole][1..] == [];
        if ClipRun(whole, w).Some? {
          var run := Run(Clip(whole, w), r);
          assert (before + [run])[..|before|] == before;
          assert Spans(after) == Spans(before) + [run.span];
          ConcurrencyAppend(Spans(before), [run.span], t);
          assert [run.span][1..] == [];
        }
      } else {
        assert Observed(seen + [r]) == Observed(seen);
      }
    }
  }

  lemma {:induction false} SpansConcat(a: seq<Run>, b: seq<Run>)
    ensures Spans(a + b) == Spans(a) + Spans(b)
  {
    if b == [] {
      assert a + b == a;
    } else {
      var init := b[..|b| - 1];
      SpansConcat(a, init);
      assert (a + b)[..|a + b| - 1] == a + init;
    }
  }

  lemma {:induction false} ClippedTimeConcat(a: seq<Interval>, b: seq<Interval>, w: Window)
    ensures ClippedTime(a + b, w) == ClippedTime(a, w) + ClippedTime(b, w)
  {
    if a == [] {
      assert a + b == b;
    } else {
      ClippedTimeConcat(a[1..], b, w);
      assert (a + b)[1..] == a[1..] + b;
    }
  }

  function OfProject(runs: seq<Run>, project: string): seq<Run>
  {
    Filter(runs, (r: Run) => r.record.project == project)
  }

  function ProjectTime(runs: seq<Run>, projects: seq<string>, w: Window): int
  {
    if projects == [] then 0
    else ClippedTime(Spans(OfProject(runs, projects[0])), w) + ProjectTime(runs, projects[1..], w)
  }

  lemma {:induction false} ProjectTimeStep(run: Run, rest: seq<Run>, projects: seq<string>, w: Window)
    requires Distinct(projects)
    ensures ProjectTime([run] + rest, projects, w)
         == ProjectTime(rest, projects, w) + if run.record.project in projects then ClippedTime([run.span], w) else 0
  {
    if projects != [] {
      ProjectTimeStep(run, rest, projects[1..], w);
      assert projects == [projects[0]] + projects[1..];
      assert projects[0] !in projects[1..];
      assert ([run] + rest)[1..] == rest;
      if run.record.project == projects[0] {
        var own := OfProject(rest, projects[0]);
        assert OfProject([run] + rest, projects[0]) == [run] + own;
        SpansConcat([run], own);
        assert Spans([run]) == [run.span] by { assert [run][..0] == []; }
        ClippedTimeConcat([run.span], Spans(own), w);
      }
    }
  }

  lemma {:induction false} ProjectTimeIsClippedTime(runs: seq<Run>, projects: seq<string>, w: Window)
    requires Distinct(projects) && forall r :: r in runs ==> r.record.project in projects
    ensures ProjectTime(runs, projects, w) == ClippedTime(Spans(runs), w)
  {
    if runs == [] {
      NoProjectTime(projects, w);
    } else {
      var rest := runs[1..];
      assert runs == [runs[0]] + rest;
      ProjectTimeIsClippedTime(rest, projects, w);
      ProjectTimeStep(runs[0], rest, projects, w);
      SpansConcat([runs[0]], rest);
      assert Spans([runs[0]]) == [runs[0].span] by { assert [runs[0]][..0] == []; }
      ClippedTimeConcat([runs[0].span], Spans(rest), w);
    }
  }

  lemma {:induction false} NoProjectTime(projects: seq<string>, w: Window)
    ensures ProjectTime([], projects, w) == 0
  {
    if projects != [] { NoProjectTime(projects[1..], w); }
  }

  function BusySum(tracks: seq<seq<Segment>>): int
  {
    if tracks == [] then 0 else BusyTime(tracks[0]) + BusySum(tracks[1..])
  }

  lemma {:induction false} BusySumIsProjectTime(runs: seq<Run>, projects: seq<string>, tracks: seq<seq<Segment>>, w: Window)
    requires w.Valid() && |tracks| == |projects|
    requires forall i :: 0 <= i < |projects| ==> IsTimeline(tracks[i], Spans(OfProject(runs, projects[i])), w)
    ensures BusySum(tracks) == ProjectTime(runs, projects, w)
  {
    if projects != [] {
      BusySumIsProjectTime(runs, projects[1..], tracks[1..], w);
      BusyTimeConserved(tracks[0], Spans(OfProject(runs, projects[0])), w);
    }
  }

  /** The per-project split of the report loses and invents no busy time. */
  lemma ProjectSplitConserved(runs: seq<Run>, projects: seq<string>, tracks: seq<seq<Segment>>,
                              overall: seq<Segment>, w: Window)
    requires w.Valid() && |tracks| == |projects| && Distinct(projects)
    requires forall r :: r in runs ==> r.record.project in projects
    requires forall i :: 0 <= i < |projects| ==> IsTimeline(tracks[i], Spans(OfProject(runs, projects[i])), w)
    requires IsTimeline(overall, Spans(runs), w)
    ensures BusySum(tracks) == BusyTime(overall)
  {
    BusySumIsProjectTime(runs, projects, tracks, w);
    ProjectTimeIsClippedTime(runs, projects, w);
    BusyTimeConserved(overall, Spans(runs), w);
  }

  lemma MoreSlots(peak: int, slots: int, length: int)
    requires 0 <= peak <= slots && 0 < length && 0 < slots
    ensures peak * length <= slots * length && 0 < slots * length
  {
  }

  datatype PoolFigures = Accepted(busy: int, available: int, saturated: int) | Rejected(peak: int)

  /** The pool part of `_runner_report`: a pool is rejected exactly when some instant saw more runs
      than it has slots, and an accepted pool's utilization `busy / available` lies in [0, 1]. */
  method PoolReport(owned: seq<Interval>, slots: int, w: Window) returns (r: PoolFigures)
    requires w.Valid() && slots > 0
    ensures r.Rejected? <==> exists t :: w.start <= t < w.end && Concurrency(owned, t) > slots
    ensures r.Accepted? ==> 0 <= r.busy <= r.available == slots * w.Length() && 0 < r.available
    ensures r.Accepted? ==> r.busy == ClippedTime(owned, w)
    ensures r.Accepted? ==> r.saturated == TimeAtOrAbove(owned, slots, w.start, w.end)
    ensures r.Accepted? ==> slots * r.saturated <= r.busy
  {
    var track := ConcurrencyTimeline(owned, w);
    BusyTimeConserved(track, owned, w);
    PeakIsMaximum(track, owned, w.start, w.end);
    if Peak(track) > slots {
      return Rejected(Peak(track));
    }
    var saturated := SecondsAtOrAbove(track, slots, w.start, w.end, owned, w.start, w.end);
    BusyIsRunTime(track, owned, w.start, w.end);
    SaturationBelowBusy(owned, slots, w.start, w.end);
    MoreSlots(Peak(track), slots, w.Length());
    r := Accepted(BusyTime(track), slots * w.Length(), saturated);
  }

  lemma {:induction false} SaturationBelowBusy(runs: seq<Interval>, slots: int, lo: int, hi: int)
    requires slots > 0
    ensures slots * TimeAtOrAbove(runs, slots, lo, hi) <= RunTime(runs, lo, hi)
    decreases hi - lo
  {
    if lo < hi {
      SaturationBelowBusy(runs, slots, lo, hi - 1);
      var f := t => if Concurrency(runs, t) >= slots then 1 else 0;
      assert Total(f, lo, hi) == Total(f, lo, hi - 1) + f(hi - 1);
      TotalSame(f, t => if Concurrency(runs, t) >= slots then 1 else 0, lo, hi - 1);
      assert slots * (Total(f, lo, hi - 1) + f(hi - 1)) == slots * Total(f, lo, hi - 1) + slots * f(hi - 1);
      assert slots * f(hi - 1) == if Concurrency(runs, hi - 1) >= slots then slots else 0;
    }
  }
}
