/** capacity_metrics.py: run intervals swept into segments of constant concurrency. */
module Timeline {
  import opened Sorting

  /** Instants are whole microseconds, the grain of Python's `datetime`. */
  datatype Interval = Interval(start: int, end: int)

  datatype Window = Window(start: int, end: int) {
    predicate Valid() { start < end }
    function Length(): int { end - start }
  }

  datatype Segment = Segment(start: int, end: int, active: int) {
    function Length(): int { end - start }
  }

  datatype Event = Event(at: int, delta: int)

  function Max(a: int, b: int): int { if a < b then b else a }
  function Min(a: int, b: int): int { if a < b then a else b }

  // ---- the reference: how many intervals cover an instant ----

  predicate Covers(run: Interval, t: int)
  {
    run.start <= t < run.end
  }

  function Concurrency(runs: seq<Interval>, t: int): nat
  {
    if runs == [] then 0 else (if Covers(runs[0], t) then 1 else 0) + Concurrency(runs[1..], t)
  }

  ghost predicate Boundary(runs: seq<Interval>, t: int)
  {
    exists run :: run in runs && run.start < run.end && (t == run.start || t == run.end)
  }

  /** Non-empty segments, end to end, from `lo` to `hi`. */
  ghost predicate Tiles(segments: seq<Segment>, lo: int, hi: int)
  {
    (if segments == [] then lo == hi else segments[0].start == lo && segments[|segments| - 1].end == hi) &&
    (forall i :: 0 <= i < |segments| ==> segments[i].start < segments[i].end) &&
    (forall i, j :: 0 <= i < |segments| - 1 && j == i + 1 ==> segments[j].start == segments[i].end)
  }

  ghost predicate Within(s: Segment, t: int)
  {
    s.start <= t < s.end
  }

  ghost predicate CutAt(segments: seq<Segment>, t: int)
  {
    exists i :: 0 < i < |segments| && segments[i].start == t
  }

  /** What the sweep promises, with no mention of events: the window is tiled, each segment carries
      the true concurrency of each of its instants, and it is cut exactly where a run starts or ends. */
  ghost predicate IsTimeline(segments: seq<Segment>, runs: seq<Interval>, w: Window)
  {
    Tiles(segments, w.start, w.end) &&
    (forall i, t :: 0 <= i < |segments| && Within(segments[i], t) ==> segments[i].active == Concurrency(runs, t)) &&
    (forall t :: w.start < t < w.end ==> (CutAt(segments, t) <==> Boundary(runs, t)))
  }

  lemma {:induction false} TilesInside(segments: seq<Segment>, lo: int, hi: int)
    requires Tiles(segments, lo, hi)
    ensures forall i :: 0 <= i < |segments| ==> lo <= segments[i].start && segments[i].end <= hi
    ensures forall i, j :: 0 <= i < j < |segments| ==> segments[i].end <= segments[j].start
    ensures lo <= hi
  {
    if segments != [] {
      var init := segments[..|segments| - 1];
      if init != [] {
        assert init[|init| - 1] == segments[|segments| - 2];
        TilesInside(init, lo, init[|init| - 1].end);
      }
    }
  }

  // ---- clipping and events ----

  predicate Reaches(run: Interval, w: Window)
  {
    run.end > w.start && run.start < w.end
  }

  function Clip(run: Interval, w: Window): Interval
  {
    Interval(Max(run.start, w.start), Min(run.end, w.end))
  }

  function Clipped(runs: seq<Interval>, w: Window): seq<Interval>
  {
    if runs == [] then []
    else if Reaches(runs[0], w) then [Clip(runs[0], w)] + Clipped(runs[1..], w)
    else Clipped(runs[1..], w)
  }

  function EventPair(run: Interval): seq<Event>
  {
    if run.end > run.start then [Event(run.start, 1), Event(run.end, -1)] else []
  }

  function EventsOf(runs: seq<Interval>): seq<Event>
  {
    if runs == [] then []
    else EventsOf(runs[..|runs| - 1]) + EventPair(runs[|runs| - 1])
  }

  /** The sort key `(moment, delta)`: an end sorts before a start at the same instant. */
  predicate EventAtMost(a: Event, b: Event)
  {
    a.at < b.at || (a.at == b.at && a.delta <= b.delta)
  }

  // ---- running totals over events ----

  function Net(events: seq<Event>): int
  {
    if events == [] then 0 else events[0].delta + Net(events[1..])
  }

  function NetBy(events: seq<Event>, t: int): int
  {
    if events == [] then 0 else (if events[0].at <= t then events[0].delta else 0) + NetBy(events[1..], t)
  }

  lemma {:induction false} NetAppend(a: seq<Event>, b: seq<Event>, t: int)
    ensures Net(a + b) == Net(a) + Net(b)
    ensures NetBy(a + b, t) == NetBy(a, t) + NetBy(b, t)
  {
    if a == [] {
      assert a + b == b;
    } else {
      NetAppend(a[1..], b, t);
      assert (a + b)[1..] == a[1..] + b;
    }
  }

  lemma {:induction false} NetByInsert(x: Event, s: seq<Event>, t: int)
    ensures NetBy(Insert(x, s, EventAtMost), t) == NetBy([x] + s, t)
  {
    assert ([x] + s)[1..] == s;
    if s != [] && !EventAtMost(x, s[0]) {
      NetByInsert(x, s[1..], t);
      assert ([x] + s[1..])[1..] == s[1..];
      var rest := Insert(x, s[1..], EventAtMost);
      assert ([s[0]] + rest)[1..] == rest;
    }
  }

  lemma {:induction false} NetBySort(s: seq<Event>, t: int)
    ensures NetBy(Sort(s, EventAtMost), t) == NetBy(s, t)
  {
    if s != [] {
      NetBySort(s[1..], t);
      NetByInsert(s[0], Sort(s[1..], EventAtMost), t);
      var rest := Sort(s[1..], EventAtMost);
      assert ([s[0]] + rest)[1..] == rest;
    }
  }

  lemma {:induction false} NetByAllOrNone(s: seq<Event>, t: int)
    ensures (forall e :: e in s ==> e.at <= t) ==> NetBy(s, t) == Net(s)
    ensures (forall e :: e in s ==> t < e.at) ==> NetBy(s, t) == 0
  {
    if s != [] {
      NetByAllOrNone(s[1..], t);
      assert s == [s[0]] + s[1..];
    }
  }

  /** Splitting the events at the sweep's position gives the concurrency between two moments. */
  lemma NetByPrefix(s: seq<Event>, k: nat, t: int)
    requires k <= |s|
    requires forall j :: 0 <= j < k ==> s[j].at <= t
    requires forall j :: k <= j < |s| ==> t < s[j].at
    ensures NetBy(s, t) == Net(s[..k])
  {
    assert s == s[..k] + s[k..];
    NetAppend(s[..k], s[k..], t);
    NetByAllOrNone(s[..k], t);
    NetByAllOrNone(s[k..], t);
  }

  /** Between two neighbouring moments nothing starts or ends. */
  lemma NetHolds(s: seq<Event>, k: nat, lo: int, hi: int)
    requires k <= |s|
    requires forall j :: 0 <= j < k ==> s[j].at <= lo
    requires forall j :: k <= j < |s| ==> hi <= s[j].at
    ensures forall t :: lo <= t < hi ==> NetBy(s, t) == Net(s[..k])
  {
    forall t | lo <= t < hi ensures NetBy(s, t) == Net(s[..k]) {
      NetByPrefix(s, k, t);
    }
  }

  lemma {:induction false} ConcurrencyAppend(a: seq<Interval>, b: seq<Interval>, t: int)
    ensures Concurrency(a + b, t) == Concurrency(a, t) + Concurrency(b, t)
  {
    if a == [] {
      assert a + b == b;
    } else {
      ConcurrencyAppend(a[1..], b, t);
      assert (a + b)[1..] == a[1..] + b;
    }
  }

  lemma NetStep(events: seq<Event>, k: nat)
    requires k < |events|
    ensures Net(events[..k + 1]) == Net(events[..k]) + events[k].delta
  {
    assert events[..k + 1] == events[..k] + [events[k]];
    NetAppend(events[..k], [events[k]], 0);
    assert [events[k]][1..] == [];
  }

  lemma {:induction false} EventsCount(runs: seq<Interval>, t: int)
    ensures NetBy(EventsOf(runs), t) == Concurrency(runs, t)
  {
    if runs != [] {
      var init, run := runs[..|runs| - 1], runs[|runs| - 1];
      EventsCount(init, t);
      assert runs == init + [run];
      ConcurrencyAppend(init, [run], t);
      NetAppend(EventsOf(init), EventPair(run), t);
      PairCounts(run, t);
      assert [run][1..] == [];
    }
  }

  lemma PairCounts(run: Interval, t: int)
    ensures NetBy(EventPair(run), t) == if Covers(run, t) then 1 else 0
  {
    if run.end > run.start {
      var up, down := Event(run.start, 1), Event(run.end, -1);
      assert EventPair(run) == [up] + [down] && [up][1..] == [] && [down][1..] == [];
      NetAppend([up], [down], t);
    }
  }

  lemma {:induction false} ClippedCount(runs: seq<Interval>, w: Window, t: int)
    requires w.start <= t < w.end
    ensures Concurrency(Clipped(runs, w), t) == Concurrency(runs, t)
  {
    if runs != [] {
      ClippedCount(runs[1..], w, t);
      var rest := Clipped(runs[1..], w);
      var head := Clip(runs[0], w);
      assert ([head] + rest)[1..] == rest;
    }
  }

  lemma {:induction false} ClippedMembers(runs: seq<Interval>, w: Window)
    ensures forall c :: c in Clipped(runs, w) ==> exists run :: run in runs && Reaches(run, w) && c == Clip(run, w)
    ensures forall run :: run in runs && Reaches(run, w) ==> Clip(run, w) in Clipped(runs, w)
  {
    if runs != [] {
      ClippedMembers(runs[1..], w);
      assert runs == [runs[0]] + runs[1..];
    }
  }

  lemma {:induction false} EventMembers(runs: seq<Interval>)
    ensures forall e :: e in EventsOf(runs) ==> Boundary(runs, e.at)
    ensures forall c :: c in runs && c.start < c.end ==>
              Event(c.start, 1) in EventsOf(runs) && Event(c.end, -1) in EventsOf(runs)
  {
    if runs != [] {
      var init, run := runs[..|runs| - 1], runs[|runs| - 1];
      EventMembers(init);
      assert runs == init + [run];
      forall e | e in EventsOf(runs) ensures Boundary(runs, e.at) {
        if e in EventsOf(init) {
          assert Boundary(init, e.at);
        } else {
          assert run in runs;
        }
      }
    }
  }

  ghost predicate IsEventList(events: seq<Event>, runs: seq<Interval>, w: Window)
  {
    events == Sort(EventsOf(Clipped(runs, w)), EventAtMost)
  }

  ghost predicate MomentIn(events: seq<Event>, t: int)
  {
    exists e :: e in events && e.at == t
  }

  /** The moments the sweep visits strictly inside the window are the boundaries of the runs. */
  lemma SweepMoments(runs: seq<Interval>, w: Window, events: seq<Event>, t: int)
    requires w.Valid() && w.start < t < w.end && IsEventList(events, runs, w)
    ensures MomentIn(events, t) <==> Boundary(runs, t)
  {
    var clipped := Clipped(runs, w);
    ClippedMembers(runs, w);
    EventMembers(clipped);
    SortMembers(EventsOf(clipped), EventAtMost);
    if MomentIn(events, t) {
      assert Boundary(clipped, t);
      var c :| c in clipped && c.start < c.end && (t == c.start || t == c.end);
      var run :| run in runs && Reaches(run, w) && c == Clip(run, w);
      assert run.start < run.end && (t == run.start || t == run.end);
    }
    if Boundary(runs, t) {
      var run :| run in runs && run.start < run.end && (t == run.start || t == run.end);
      var c := Clip(run, w);
      assert c in clipped;
      var e := if t == run.start then Event(c.start, 1) else Event(c.end, -1);
      assert e in events && e.at == t;
    }
  }

  lemma SweepBounds(runs: seq<Interval>, w: Window, events: seq<Event>)
    requires w.Valid() && IsEventList(events, runs, w)
    ensures forall e :: e in events ==> w.start <= e.at <= w.end
    ensures Sorted(events, EventAtMost)
  {
    var clipped := Clipped(runs, w);
    ClippedMembers(runs, w);
    EventMembers(clipped);
    SortMembers(EventsOf(clipped), EventAtMost);
    SortSorted(EventsOf(clipped), EventAtMost);
    forall e | e in events ensures w.start <= e.at <= w.end {
      assert Boundary(clipped, e.at);
    }
  }

  lemma SweepCounts(runs: seq<Interval>, w: Window, events: seq<Event>, t: int)
    requires w.start <= t < w.end && IsEventList(events, runs, w)
    ensures NetBy(events, t) == Concurrency(runs, t)
  {
    NetBySort(EventsOf(Clipped(runs, w)), t);
    EventsCount(Clipped(runs, w), t);
    ClippedCount(runs, w, t);
  }

  // ---- the sweep ----

  /** What sweeping a sorted event list up to `hi` gives, in terms of those events. */
  ghost predicate Swept(segments: seq<Segment>, events: seq<Event>, lo: int, hi: int)
  {
    Tiles(segments, lo, hi) &&
    (forall i, t :: 0 <= i < |segments| && Within(segments[i], t) ==> segments[i].active == NetBy(events, t)) &&
    (forall i {:trigger MomentIn(events, segments[i].start)} :: 0 < i < |segments| ==>
      MomentIn(events, segments[i].start)) &&
    (forall e {:trigger CutAt(segments, e.at)} :: e in events && lo < e.at < hi ==> CutAt(segments, e.at))
  }

  lemma GrownActive(segments: seq<Segment>, events: seq<Event>, s: Segment)
    requires forall i, t :: 0 <= i < |segments| && Within(segments[i], t) ==> segments[i].active == NetBy(events, t)
    requires forall t :: Within(s, t) ==> s.active == NetBy(events, t)
    ensures var grown := segments + [s];
      forall i, t :: 0 <= i < |grown| && Within(grown[i], t) ==> grown[i].active == NetBy(events, t)
  {
    var grown := segments + [s];
    assert forall i :: 0 <= i < |segments| ==> grown[i] == segments[i];
    assert grown[|segments|] == s;
  }

  lemma SweptGrow(segments: seq<Segment>, events: seq<Event>, lo: int, hi: int, s: Segment)
    requires Swept(segments, events, lo, hi)
    requires s.start == hi < s.end
    requires forall t :: Within(s, t) ==> s.active == NetBy(events, t)
    requires forall e :: e in events ==> e.at <= hi || s.end <= e.at
    requires hi == lo || MomentIn(events, hi)
    ensures Swept(segments + [s], events, lo, s.end)
  {
    var grown := segments + [s];
    TilesInside(segments, lo, hi);
    GrownActive(segments, events, s);
    forall i | 0 < i < |grown| ensures MomentIn(events, grown[i].start) {
      assert i < |segments| ==> MomentIn(events, segments[i].start);
    }
    forall e | e in events && lo < e.at < s.end ensures CutAt(grown, e.at) {
      assert e.at < hi ==> CutAt(segments, e.at);
      GrownCuts(segments, lo, hi, s, e.at);
    }
  }

  lemma GrownCuts(segments: seq<Segment>, lo: int, hi: int, s: Segment, t: int)
    requires Tiles(segments, lo, hi) && s.start == hi && lo < t <= hi
    requires t < hi ==> CutAt(segments, t)
    ensures CutAt(segments + [s], t)
  {
    var grown := segments + [s];
    if t < hi {
      var i :| 0 < i < |segments| && segments[i].start == t;
      assert grown[i].start == t;
    } else {
      assert segments != [] && grown[|segments|].start == t;
    }
  }

  method Sweep(events: seq<Event>, w: Window) returns (segments: seq<Segment>)
    requires w.Valid() && Sorted(events, EventAtMost)
    requires forall e :: e in events ==> w.start <= e.at <= w.end
    ensures Swept(segments, events, w.start, w.end)
  {
    segments := [];
    var active := 0;
    var cursor := w.start;
    for k := 0 to |events|
      invariant w.start <= cursor <= w.end
      invariant forall j :: 0 <= j < k ==> events[j].at <= cursor
      invariant forall j :: k <= j < |events| ==> cursor <= events[j].at
      invariant active == Net(events[..k])
      invariant cursor == w.start || MomentIn(events, cursor)
      invariant Swept(segments, events, w.start, cursor)
    {
      var moment := events[k].at;
      assert events[k] in events;
      if moment > cursor {
        NetHolds(events, k, cursor, moment);
        SweptGrow(segments, events, w.start, cursor, Segment(cursor, moment, active));
        segments := segments + [Segment(cursor, moment, active)];
        cursor := moment;
      }
      NetStep(events, k);
      active := active + events[k].delta;
    }
    if cursor < w.end {
      assert events[..|events|] == events;
      NetHolds(events, |events|, cursor, w.end);
      SweptGrow(segments, events, w.start, cursor, Segment(cursor, w.end, active));
      segments := segments + [Segment(cursor, w.end, active)];
    }
  }

  lemma SweptIsTimeline(segments: seq<Segment>, runs: seq<Interval>, w: Window, events: seq<Event>)
    requires w.Valid() && IsEventList(events, runs, w) && Swept(segments, events, w.start, w.end)
    ensures IsTimeline(segments, runs, w)
  {
    TilesInside(segments, w.start, w.end);
    forall i, t | 0 <= i < |segments| && Within(segments[i], t)
      ensures segments[i].active == Concurrency(runs, t)
    {
      SweepCounts(runs, w, events, t);
    }
    forall t | w.start < t < w.end ensures CutAt(segments, t) <==> Boundary(runs, t) {
      SweepMoments(runs, w, events, t);
    }
  }

  /** `concurrency_timeline`. */
  method ConcurrencyTimeline(runs: seq<Interval>, w: Window) returns (segments: seq<Segment>)
    requires w.Valid()
    ensures IsTimeline(segments, runs, w)
  {
    var clipped := Clipped(runs, w);
    var events := [];
    for i := 0 to |clipped|
      invariant events == EventsOf(clipped[..i])
    {
      assert clipped[..i + 1][..i] == clipped[..i];
      if clipped[i].end > clipped[i].start {
        events := events + [Event(clipped[i].start, 1), Event(clipped[i].end, -1)];
      }
    }
    assert clipped[..|clipped|] == clipped;
    events := Sort(events, EventAtMost);
    SweepBounds(runs, w, events);
    segments := Sweep(events, w);
    SweptIsTimeline(segments, runs, w, events);
  }

  // ---- the timeline is a function of the set of runs ----

  lemma ConcurrencyWithout(s: seq<Interval>, i: nat, t: int)
    requires i < |s|
    ensures Concurrency(s, t) == Concurrency([s[i]] + (s[..i] + s[i + 1..]), t)
  {
    assert s == s[..i] + ([s[i]] + s[i + 1..]);
    ConcurrencyAppend(s[..i], [s[i]] + s[i + 1..], t);
    ConcurrencyAppend([s[i]], s[i + 1..], t);
    ConcurrencyAppend([s[i]], s[..i] + s[i + 1..], t);
    ConcurrencyAppend(s[..i], s[i + 1..], t);
  }

  lemma {:induction false} ConcurrencyPermuted(a: seq<Interval>, b: seq<Interval>, t: int)
    requires multiset(a) == multiset(b)
    ensures Concurrency(a, t) == Concurrency(b, t)
  {
    assert |a| == |multiset(a)| == |multiset(b)| == |b|;
    if a != [] {
      var i := MatchHead(a, b);
      var rest := b[..i] + b[i + 1..];
      ConcurrencyPermuted(a[1..], rest, t);
      ConcurrencyWithout(b, i, t);
      assert ([a[0]] + rest)[1..] == rest;
    }
  }

  lemma BoundaryPermuted(a: seq<Interval>, b: seq<Interval>, t: int)
    requires multiset(a) == multiset(b) && Boundary(a, t)
    ensures Boundary(b, t)
  {
    var run :| run in a && run.start < run.end && (t == run.start || t == run.end);
    assert run in multiset(b);
  }

  /** Runs may be read in any order: every permutation has one and the same timeline. */
  lemma TimelineOrderInsensitive(p: seq<Segment>, q: seq<Segment>, a: seq<Interval>, b: seq<Interval>, w: Window)
    requires w.Valid() && multiset(a) == multiset(b)
    requires IsTimeline(p, a, w) && IsTimeline(q, b, w)
    ensures p == q
  {
    SamePrefix(p, q, a, b, w, Min(|p|, |q|));
    TilesInside(p, w.start, w.end);
    TilesInside(q, w.start, w.end);
    var n := Min(|p|, |q|);
    assert p[n - 1] == q[n - 1];
    assert |p| == |q|;
  }

  lemma {:induction false} SamePrefix(p: seq<Segment>, q: seq<Segment>, a: seq<Interval>, b: seq<Interval>, w: Window, n: nat)
    requires w.Valid() && multiset(a) == multiset(b)
    requires IsTimeline(p, a, w) && IsTimeline(q, b, w)
    requires n <= |p| && n <= |q|
    ensures forall i :: 0 <= i < n ==> p[i] == q[i]
  {
    if n > 0 {
      SamePrefix(p, q, a, b, w, n - 1);
      var i := n - 1;
      assert i > 0 ==> p[i - 1] == q[i - 1];
      EndsNoEarlier(p, q, a, b, w, i);
      EndsNoEarlier(q, p, b, a, w, i);
      ConcurrencyPermuted(a, b, p[i].start);
      assert Within(p[i], p[i].start) && Within(q[i], q[i].start);
    }
  }

  lemma EndsNoEarlier(p: seq<Segment>, q: seq<Segment>, a: seq<Interval>, b: seq<Interval>, w: Window, i: nat)
    requires w.Valid() && multiset(a) == multiset(b)
    requires IsTimeline(p, a, w) && IsTimeline(q, b, w)
    requires i < |p| && i < |q| && p[i].start == q[i].start
    ensures p[i].end <= q[i].end
  {
    TilesInside(p, w.start, w.end);
    TilesInside(q, w.start, w.end);
    var e := q[i].end;
    NoCutInside(p, w.start, w.end, i, e);
    assert w.start < e;
    assert e < w.end ==> i + 1 < |q| && q[i + 1].start == e;
    assert e < w.end ==> CutAt(q, e);
    if e < p[i].end {
      BoundaryPermuted(b, a, e);
    }
  }

  lemma NoCutInside(p: seq<Segment>, lo: int, hi: int, i: nat, e: int)
    requires Tiles(p, lo, hi) && i < |p|
    ensures p[i].start < e < p[i].end ==> !CutAt(p, e)
  {
    TilesInside(p, lo, hi);
    if CutAt(p, e) {
      var j :| 0 < j < |p| && p[j].start == e;
      assert j < i ==> p[j].end <= p[i].start;
      assert i < j ==> p[i].end <= p[j].start;
    }
  }
}
