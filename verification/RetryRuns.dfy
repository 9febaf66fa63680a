/** Whole runs of decide-then-record: the budget holds, replays are free, exhaustion is final. */
module RetryRuns {
  import opened RetryBudget
  import opened Sorting
  import Text

  /** One recorded decision. */
  datatype Entry = Entry(target: Target, key: string, exhausted: bool, attempts: int, timestamp: string)

  datatype Run = Run(store: Store, history: seq<Entry>)

  /** One completion event handled; an error or a decision that records nothing leaves both alone. */
  function Next(run: Run, r: Request, digest: string -> nat): Run
  {
    var d := Decide(run.store, r, digest);
    if Handled(run.store, r, digest).Err? || (d.value.action != RetryFailedJobs && d.value.action != Block) then run
    else Run(Handled(run.store, r, digest).value,
             run.history + [Entry(r.target, r.eventKey, d.value.action == Block, d.value.attempts, r.timestamp)])
  }

  function RunOf(requests: seq<Request>, digest: string -> nat): Run
  {
    if requests == [] then Run(map[], [])
    else Next(RunOf(requests[..|requests| - 1], digest), requests[|requests| - 1], digest)
  }

  function EntriesFor(history: seq<Entry>, t: Target): seq<Entry>
  {
    Filter(history, (e: Entry) => e.target == t)
  }

  function KeysOf(entries: seq<Entry>): seq<string>
  {
    seq(|entries|, i requires 0 <= i < |entries| => entries[i].key)
  }

  function Min(a: int, b: int): int
  {
    if a < b then a else b
  }

  /** A record whose target saw these entries: the first `max` are retries, every later one a block. */
  ghost predicate RecordMatches(record: Record, entries: seq<Entry>, max: int)
  {
    record.events == KeysOf(entries) && Distinct(record.events) &&
    record.attempts == Min(|entries|, max) &&
    record.status == (if |entries| <= max then Retrying else Exhausted) &&
    forall i :: 0 <= i < |entries| ==>
      entries[i].exhausted == (i >= max) && entries[i].attempts == Min(i + 1, max) && entries[i].key != ""
  }

  ghost predicate TargetMatches(store: Store, entries: seq<Entry>, t: Target, max: int)
  {
    if entries == [] then KeyOf(t) !in store else KeyOf(t) in store && RecordMatches(store[KeyOf(t)], entries, max)
  }

  ghost predicate Sound(run: Run, max: int)
  {
    (forall e :: e in run.history ==> ValidTarget(e.target)) &&
    (forall t :: ValidTarget(t) ==> TargetMatches(run.store, EntriesFor(run.history, t), t, max))
  }

  lemma EntriesStep(history: seq<Entry>, e: Entry, t: Target)
    ensures EntriesFor(history + [e], t) == if e.target == t then EntriesFor(history, t) + [e] else EntriesFor(history, t)
  {
    FilterConcat(history, [e], (x: Entry) => x.target == t);
    assert [e][1..] == [];
  }

  /** Recording a fresh key extends the record by one entry. */
  lemma RecordStep(store: Store, entries: seq<Entry>, t: Target, e: Entry, max: int)
    requires TargetMatches(store, entries, t, max) && max >= 1 && e.target == t && e.key != ""
    requires !HasEvent(store, t, e.key)
    requires e.exhausted == (|entries| >= max) && e.attempts == Min(|entries| + 1, max)
    ensures RecordMatches(Record(e.attempts, KeysOf(entries) + [e.key], if e.exhausted then Exhausted else Retrying),
                          entries + [e], max)
  {
    var grown := entries + [e];
    assert KeysOf(grown) == KeysOf(entries) + [e.key];
    if entries != [] {
      assert store[KeyOf(t)].events == KeysOf(entries);
    }
    forall i | 0 <= i < |grown|
      ensures grown[i].exhausted == (i >= max) && grown[i].attempts == Min(i + 1, max) && grown[i].key != ""
    {
      if i < |entries| { assert grown[i] == entries[i]; }
    }
  }

  /** What a decision that records something must have seen. */
  lemma RecordingDecision(run: Run, r: Request, max: int, digest: string -> nat)
    requires Sound(run, max) && r.maxAttempts == max && max >= 1
    requires Next(run, r, digest) != run
    ensures var n := |EntriesFor(run.history, r.target)|;
      var d := Decide(run.store, r, digest).value;
      ValidTarget(r.target) && r.eventKey != "" && !HasEvent(run.store, r.target, r.eventKey) &&
      d.target == r.target && d.attempts == Min(n + 1, max) && (d.action == Block) == (n >= max) &&
      (d.action == RetryFailedJobs || d.action == Block) &&
      Handled(run.store, r, digest).value ==
        run.store[KeyOf(r.target) := Record(d.attempts, KeysOf(EntriesFor(run.history, r.target)) + [r.eventKey],
                                            if d.action == Block then Exhausted else Retrying)]
  {
    var entries := EntriesFor(run.history, r.target);
    assert ValidTarget(r.target);
    assert TargetMatches(run.store, entries, r.target, max);
    assert Attempts(run.store, r.target) == Min(|entries|, max);
    assert KeysOf([]) == [];
  }

  lemma SoundStep(run: Run, r: Request, max: int, digest: string -> nat)
    requires Sound(run, max) && r.maxAttempts == max && max >= 1
    ensures Sound(Next(run, r, digest), max)
  {
    if Next(run, r, digest) != run {
      RecordingDecision(run, r, max, digest);
      var d := Decide(run.store, r, digest).value;
      var e := Entry(r.target, r.eventKey, d.action == Block, d.attempts, r.timestamp);
      var next := Next(run, r, digest);
      var own := EntriesFor(run.history, r.target);
      forall t | ValidTarget(t) ensures TargetMatches(next.store, EntriesFor(next.history, t), t, max) {
        EntriesStep(run.history, e, t);
        assert TargetMatches(run.store, EntriesFor(run.history, t), t, max);
        if t == r.target {
          RecordStep(run.store, own, t, e, max);
        } else if KeyOf(t) == KeyOf(r.target) {
          KeyInjective(t, r.target);
        }
      }
    }
  }

  /** The invariant of every run with a fixed budget. */
  lemma {:induction false} RunIsSound(requests: seq<Request>, max: int, digest: string -> nat)
    requires max >= 1 && forall r :: r in requests ==> r.maxAttempts == max
    ensures Sound(RunOf(requests, digest), max)
  {
    if requests != [] {
      RunIsSound(requests[..|requests| - 1], max, digest);
      SoundStep(RunOf(requests[..|requests| - 1], digest), requests[|requests| - 1], max, digest);
    }
  }

  function Retries(entries: seq<Entry>): nat
  {
    if entries == [] then 0 else Retries(entries[..|entries| - 1]) + if entries[|entries| - 1].exhausted then 0 else 1
  }

  lemma {:induction false} RetriesCount(entries: seq<Entry>, max: int)
    requires max >= 0 && forall i :: 0 <= i < |entries| ==> entries[i].exhausted == (i >= max)
    ensures Retries(entries) == Min(|entries|, max)
  {
    if entries != [] { RetriesCount(entries[..|entries| - 1], max); }
  }

  /** Attempts are exactly the distinct event keys recorded as retries, and never pass the maximum. */
  lemma BudgetHolds(requests: seq<Request>, t: Target, max: int, digest: string -> nat)
    requires max >= 1 && ValidTarget(t) && forall r :: r in requests ==> r.maxAttempts == max
    ensures var run := RunOf(requests, digest);
      var entries := EntriesFor(run.history, t);
      Distinct(KeysOf(entries)) && Attempts(run.store, t) == Retries(entries) <= max &&
      (forall k :: HasEvent(run.store, t, k) <==> k in KeysOf(entries))
  {
    var run := RunOf(requests, digest);
    var entries := EntriesFor(run.history, t);
    RunIsSound(requests, max, digest);
    assert TargetMatches(run.store, entries, t, max);
    RetriesCount(entries, max);
  }

  /** A delivery already acted on changes nothing, however often it is replayed. */
  lemma ReplayIsFree(requests: seq<Request>, r: Request, digest: string -> nat)
    requires HasEvent(RunOf(requests, digest).store, r.target, r.eventKey) && r.eventKey != ""
    ensures RunOf(requests + [r], digest) == RunOf(requests, digest)
  {
    assert (requests + [r])[..|requests|] == requests;
    ReplayDecidesNothing(RunOf(requests, digest).store, r, digest);
  }

  lemma ReplayDecidesNothing(store: Store, r: Request, digest: string -> nat)
    requires HasEvent(store, r.target, r.eventKey) && r.eventKey != ""
    ensures var d := Decide(store, r, digest);
      d.Ok? ==> d.value.action != RetryFailedJobs && d.value.action != Block
    ensures Decide(store, r, digest).Err? ==> Handled(store, r, digest).Err?
  {
  }

  lemma {:induction false} EntriesPersist(requests: seq<Request>, n: nat, t: Target, digest: string -> nat)
    requires n <= |requests|
    ensures |EntriesFor(RunOf(requests[..n], digest).history, t)| <= |EntriesFor(RunOf(requests, digest).history, t)|
    decreases |requests|
  {
    if n < |requests| {
      var init, r := requests[..|requests| - 1], requests[|requests| - 1];
      EntriesPersist(init, n, t, digest);
      assert init[..n] == requests[..n];
      var run := RunOf(init, digest);
      if Next(run, r, digest) != run {
        var d := Decide(run.store, r, digest).value;
        EntriesStep(run.history, Entry(r.target, r.eventKey, d.action == Block, d.attempts, r.timestamp), t);
      }
    } else {
      assert requests[..n] == requests;
    }
  }

  predicate IsExhausted(store: Store, t: Target)
  {
    KeyOf(t) in store && store[KeyOf(t)].status == Exhausted
  }

  /** Once a head is exhausted it stays exhausted, and nothing is ever retried on it again. */
  lemma ExhaustionIsFinal(requests: seq<Request>, n: nat, r: Request, max: int, digest: string -> nat)
    requires max >= 1 && n <= |requests| && r.maxAttempts == max && forall q :: q in requests ==> q.maxAttempts == max
    requires ValidTarget(r.target) && IsExhausted(RunOf(requests[..n], digest).store, r.target)
    ensures IsExhausted(RunOf(requests, digest).store, r.target)
    ensures var d := Decide(RunOf(requests, digest).store, r, digest);
            d.Ok? ==> d.value.action != RetryFailedJobs
  {
    forall q | q in requests[..n] ensures q.maxAttempts == max { assert q in requests; }
    RunIsSound(requests[..n], max, digest);
    RunIsSound(requests, max, digest);
    ExhaustedMeans(RunOf(requests[..n], digest), r.target, max);
    ExhaustedMeans(RunOf(requests, digest), r.target, max);
    EntriesPersist(requests, n, r.target, digest);
    SpentMeansNoRetry(RunOf(requests, digest).store, r, digest);
  }

  lemma ExhaustedMeans(run: Run, t: Target, max: int)
    requires max >= 1 && Sound(run, max) && ValidTarget(t)
    ensures IsExhausted(run.store, t) <==> |EntriesFor(run.history, t)| > max
    ensures IsExhausted(run.store, t) ==> Attempts(run.store, t) == max
  {
    assert TargetMatches(run.store, EntriesFor(run.history, t), t, max);
  }

  lemma SpentMeansNoRetry(store: Store, r: Request, digest: string -> nat)
    requires Attempts(store, r.target) >= r.maxAttempts
    ensures Decide(store, r, digest).Ok? ==> Decide(store, r, digest).value.action != RetryFailedJobs
  {
  }

  // ---- which requests a run records ----

  /** The entry records the request: a transient failure on the head the pull request was at. */
  ghost predicate Records(e: Entry, q: Request)
  {
    e.target == q.target && e.key == q.eventKey && e.timestamp == q.timestamp && Retryable(q) && ValidRequest(q)
  }

  /** Whatever is recorded comes from such a request. */
  lemma {:induction false} RecordedIsRetryable(requests: seq<Request>, digest: string -> nat, e: Entry)
    requires e in RunOf(requests, digest).history
    ensures exists q :: q in requests && Records(e, q)
  {
    if requests != [] {
      var init, last := requests[..|requests| - 1], requests[|requests| - 1];
      assert requests == init + [last];
      var run := RunOf(init, digest);
      NextRecords(run, last, digest);
      if e in run.history {
        RecordedIsRetryable(init, digest, e);
        var q :| q in init && Records(e, q);
        assert q in requests;
      } else {
        assert Next(run, last, digest).history[|run.history|] == e;
        assert last in requests && Records(e, last);
      }
    }
  }

  lemma NextRecords(run: Run, r: Request, digest: string -> nat)
    ensures var h := Next(run, r, digest).history;
      h == run.history || (|h| == |run.history| + 1 && h[..|run.history|] == run.history && Records(h[|run.history|], r))
  {
    var d := Decide(run.store, r, digest);
    if Took(d, RetryFailedJobs) || Took(d, Block) { OnlyRetryableActs(run.store, r, digest); }
  }

  lemma OnlyRetryableActs(store: Store, r: Request, digest: string -> nat)
    requires Took(Decide(store, r, digest), RetryFailedJobs) || Took(Decide(store, r, digest), Block)
    ensures ValidRequest(r) && Retryable(r)
  {
  }

  /** A request is recorded if and only if it is valid, for the current head, transient, keyed, stamped, and not
      recorded on that head before; with attempts left its base delay must also be within the hour. Any other
      request leaves the run as it is. */
  lemma RecordedExactly(run: Run, r: Request, max: int, digest: string -> nat)
    requires Sound(run, max) && r.maxAttempts == max && max >= 1
    ensures Next(run, r, digest) != run <==>
      ValidRequest(r) && Retryable(r) && !Text.Blank(r.eventKey) && !Text.Blank(r.timestamp) &&
      (forall e :: e in run.history && e.target == r.target ==> e.key != r.eventKey) &&
      (|EntriesFor(run.history, r.target)| < max ==> r.baseDelay <= 3600)
  {
    var entries := EntriesFor(run.history, r.target);
    if ValidTarget(r.target) {
      assert TargetMatches(run.store, entries, r.target, max);
      KeysOfTarget(run.history, r.target, r.eventKey);
      DecidedExactly(run.store, r, Min(|entries|, max), digest);
    }
  }

  lemma KeysOfTarget(history: seq<Entry>, t: Target, key: string)
    ensures key in KeysOf(EntriesFor(history, t)) <==> exists e :: e in history && e.target == t && e.key == key
  {
    var entries := EntriesFor(history, t);
    FilterMembers(history, (e: Entry) => e.target == t);
    if key in KeysOf(entries) {
      var i: nat :| i < |entries| && KeysOf(entries)[i] == key;
      assert entries[i] in entries;
    }
    if e :| e in history && e.target == t && e.key == key {
      assert e in entries;
      var i: nat :| i < |entries| && entries[i] == e;
      assert KeysOf(entries)[i] == key;
    }
  }
}
