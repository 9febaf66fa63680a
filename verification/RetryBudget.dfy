/** infra_recovery.py: the exact-head retry budget, its record store and its decisions. */
module RetryBudget {
  import opened Sorting
  import Text

  datatype Target = Target(repository: string, pr: int, run: int, head: string)

  datatype FailureClass = Transient | Deterministic | ChangesRequested | PolicyBlock | Unknown
  datatype Action = RetryFailedJobs | RouteToRepair | Block | Noop
  datatype Reason = StaleHead | Substantive | NotRetryable | AlreadyActed | InFlight | BudgetExhausted | RetryUnchangedHead

  datatype Decision = Decision(action: Action, failureClass: FailureClass, reason: Reason, attempts: int,
                               maxAttempts: int, target: Target, jobs: seq<int>, delay: int, headUnchanged: bool)

  datatype Result<T> = Ok(value: T) | Err

  datatype Request = Request(target: Target, currentHead: string, failureClass: FailureClass, jobs: seq<int>,
                             maxAttempts: int, baseDelay: int, eventKey: string, timestamp: string)

  datatype Status = Unset | Retrying | Exhausted
  datatype Record = Record(attempts: int, events: seq<string>, status: Status)
  type Store = map<string, Record>

  // ---- keys ----

  function Int(n: int): string
  {
    if n < 0 then "-" + Text.Decimal(-n) else Text.Decimal(n)
  }

  /** `RetryState.key`. */
  function KeyOf(t: Target): string
  {
    t.repository + "#pr-" + Int(t.pr) + ":run-" + Int(t.run) + ":head-" + t.head
  }

  predicate IsSha(s: string)
  {
    |s| == 40 && forall i :: 0 <= i < 40 ==> '0' <= s[i] <= '9' || 'a' <= s[i] <= 'f'
  }

  predicate ExactHead(t: Target)
  {
    t.pr > 0 && t.run > 0 && IsSha(t.head)
  }

  predicate ValidTarget(t: Target)
  {
    !Text.Blank(t.repository) && ExactHead(t)
  }

  lemma NumberedUnique(a: string, b: string, lead: string, m: string, n: string)
    requires lead != "" && !Text.IsDigit(lead[|lead| - 1]) && Text.AllDigits(m) && Text.AllDigits(n)
    requires a + lead + m == b + lead + n
    ensures a == b && m == n
  {
    var init, last := lead[..|lead| - 1], lead[|lead| - 1];
    assert lead == init + [last];
    Text.Regroup(a, init, [last]);
    Text.Regroup(b, init, [last]);
    Text.DigitRunUnique(a + init, last, m, b + init, last, n);
    Text.SuffixUnique(a, lead, b, lead);
  }

  lemma KeyPartsUnique(s: Target, t: Target, pr: string, run: string, head: string)
    requires ExactHead(s) && ExactHead(t) && pr != "" && run != ""
    requires !Text.IsDigit(pr[|pr| - 1]) && !Text.IsDigit(run[|run| - 1])
    requires s.repository + pr + Int(s.pr) + run + Int(s.run) + head + s.head ==
             t.repository + pr + Int(t.pr) + run + Int(t.run) + head + t.head
    ensures s.repository == t.repository && Int(s.pr) == Int(t.pr) && Int(s.run) == Int(t.run) && s.head == t.head
  {
    var sa, ta := s.repository + pr + Int(s.pr), t.repository + pr + Int(t.pr);
    var sb, tb := sa + run + Int(s.run), ta + run + Int(t.run);
    Text.SuffixUnique(sb + head, s.head, tb + head, t.head);
    Text.SuffixUnique(sb, head, tb, head);
    NumberedUnique(sa, ta, run, Int(s.run), Int(t.run));
    NumberedUnique(s.repository, t.repository, pr, Int(s.pr), Int(t.pr));
  }

  /** Distinct targets never share a record key. */
  lemma KeyInjective(s: Target, t: Target)
    requires ExactHead(s) && ExactHead(t) && KeyOf(s) == KeyOf(t)
    ensures s == t
  {
    KeyPartsUnique(s, t, "#pr-", ":run-", ":head-");
    Text.DecimalInjective(s.pr, t.pr);
    Text.DecimalInjective(s.run, t.run);
  }

  // ---- backoff ----

  function Pow2(n: nat): nat
  {
    if n == 0 then 1 else 2 * Pow2(n - 1)
  }

  function Seed(t: Target, attempt: int): string
  {
    t.repository + ":" + Int(t.pr) + ":" + Int(t.run) + ":" + t.head + ":" + Int(attempt)
  }

  /** `backoff_delay_seconds`; `digest` is the leading 16 bits of the seed's SHA-256. */
  function Backoff(t: Target, attempt: int, base: int, max: int, digest: string -> nat): Result<int>
  {
    if attempt <= 0 || base <= 0 || max < base then Err
    else
      var delay := base * Pow2(attempt - 1) + digest(Seed(t, attempt)) % base;
      Ok(if delay < max then delay else max)
  }

  lemma Pow2Positive(n: nat)
    ensures Pow2(n) >= 1
  {
  }

  lemma Doubled(base: int, p: int)
    requires base > 0 && p >= 1
    ensures base <= base * p && base * (2 * p) == base * p + base * p
  {
  }

  /** The delay stays within [base, max] and never falls from one attempt to the next, whatever the
      jitter of each attempt. */
  lemma {:induction false} BackoffMonotone(t: Target, attempt: int, later: int, base: int, max: int, digest: string -> nat)
    requires 0 < attempt <= later && 0 < base <= max
    ensures Backoff(t, attempt, base, max, digest).Ok? && Backoff(t, later, base, max, digest).Ok?
    ensures base <= Backoff(t, attempt, base, max, digest).value
         <= Backoff(t, later, base, max, digest).value <= max
    decreases later - attempt
  {
    var p := Pow2(attempt - 1);
    Pow2Positive(attempt - 1);
    Doubled(base, p);
    var jitter := digest(Seed(t, attempt)) % base;
    assert 0 <= jitter < base;
    if attempt < later {
      assert Pow2(attempt) == 2 * p;
      BackoffMonotone(t, attempt + 1, later, base, max, digest);
    }
  }

  // ---- the store ----

  function Attempts(store: Store, t: Target): int
  {
    if KeyOf(t) in store then store[KeyOf(t)].attempts else 0
  }

  predicate IsInFlight(store: Store, t: Target)
  {
    KeyOf(t) in store && store[KeyOf(t)].status == Retrying
  }

  predicate HasEvent(store: Store, t: Target, key: string)
  {
    KeyOf(t) in store && key in store[KeyOf(t)].events
  }

  /** What `record_retry` and `record_exhaustion` both do to the record of a new event. */
  function Noted(store: Store, d: Decision, key: string, status: Status): Store
  {
    var k := KeyOf(d.target);
    var events := if k in store then store[k].events else [];
    if key in events then store else store[k := Record(d.attempts, events + [key], status)]
  }

  function RecordRetry(store: Store, d: Decision, key: string, timestamp: string): Result<Store>
  {
    if d.action != RetryFailedJobs || Text.Blank(key) || Text.Blank(timestamp) then Err
    else Ok(Noted(store, d, key, Retrying))
  }

  function RecordExhaustion(store: Store, d: Decision, key: string, timestamp: string): Result<Store>
  {
    if d.action != Block || Text.Blank(key) || Text.Blank(timestamp) then Err
    else Ok(Noted(store, d, key, Exhausted))
  }

  class RetryState {
    var records: Store

    constructor ()
      ensures records == map[]
    {
      records := map[];
    }

    method NoteRetry(d: Decision, key: string, timestamp: string) returns (ok: bool)
      modifies this
      ensures ok <==> RecordRetry(old(records), d, key, timestamp).Ok?
      ensures records == if ok then RecordRetry(old(records), d, key, timestamp).value else old(records)
    {
      if d.action != RetryFailedJobs || Text.Blank(key) || Text.Blank(timestamp) {
        return false;
      }
      Note(d, key, Retrying);
      ok := true;
    }

    method NoteExhaustion(d: Decision, key: string, timestamp: string) returns (ok: bool)
      modifies this
      ensures ok <==> RecordExhaustion(old(records), d, key, timestamp).Ok?
      ensures records == if ok then RecordExhaustion(old(records), d, key, timestamp).value else old(records)
    {
      if d.action != Block || Text.Blank(key) || Text.Blank(timestamp) {
        return false;
      }
      Note(d, key, Exhausted);
      ok := true;
    }

    method Note(d: Decision, key: string, status: Status)
      modifies this
      ensures records == Noted(old(records), d, key, status)
    {
      var k := KeyOf(d.target);
      var record := if k in records then records[k] else Record(d.attempts, [], Unset);
      if key in record.events {
        return;
      }
      records := records[k := Record(d.attempts, record.events + [key], status)];
    }

    /** One completion event: decide, then record what was decided. */
    method Handle(r: Request, digest: string -> nat) returns (ok: bool)
      modifies this
      ensures ok <==> Handled(old(records), r, digest).Ok?
      ensures records == if ok then Handled(old(records), r, digest).value else old(records)
    {
      var d := Decide(records, r, digest);
      if d.Err? {
        return false;
      }
      if d.value.action == RetryFailedJobs {
        ok := NoteRetry(d.value, r.eventKey, r.timestamp);
      } else if d.value.action == Block {
        ok := NoteExhaustion(d.value, r.eventKey, r.timestamp);
      } else {
        ok := true;
      }
    }
  }

  // ---- decisions ----

  predicate IntAtMost(a: int, b: int)
  {
    a <= b
  }

  function Once(s: seq<int>): seq<int>
  {
    if s == [] then [] else if s[0] in s[1..] then Once(s[1..]) else [s[0]] + Once(s[1..])
  }

  predicate ValidRequest(r: Request)
  {
    ValidTarget(r.target) && IsSha(r.currentHead) && 1 <= r.maxAttempts <= 20 && r.baseDelay > 0 &&
    forall i :: 0 <= i < |r.jobs| ==> r.jobs[i] > 0
  }

  const MAX_DELAY := 3600

  /** `decide_retry`. */
  function Decide(store: Store, r: Request, digest: string -> nat): Result<Decision>
  {
    if !ValidRequest(r) then Err
    else
      var attempts := Attempts(store, r.target);
      var same := r.target.head == r.currentHead;
      var plain := (action: Action, reason: Reason) =>
        Ok(Decision(action, r.failureClass, reason, attempts, r.maxAttempts, r.target, [], 0, same));
      if !same then plain(Noop, StaleHead)
      else if r.failureClass == Deterministic || r.failureClass == ChangesRequested then plain(RouteToRepair, Substantive)
      else if r.failureClass != Transient then plain(Noop, NotRetryable)
      else if r.eventKey != "" && HasEvent(store, r.target, r.eventKey) then plain(Noop, AlreadyActed)
      else if r.eventKey == "" && IsInFlight(store, r.target) then plain(Noop, InFlight)
      else if attempts >= r.maxAttempts then plain(Block, BudgetExhausted)
      else
        var delay := Backoff(r.target, attempts + 1, r.baseDelay, MAX_DELAY, digest);
        if delay.Err? then Err
        else Ok(Decision(RetryFailedJobs, r.failureClass, RetryUnchangedHead, attempts + 1, r.maxAttempts, r.target,
                         Sort(Once(r.jobs), IntAtMost), delay.value, same))
  }

  function Handled(store: Store, r: Request, digest: string -> nat): Result<Store>
  {
    var d := Decide(store, r, digest);
    if d.Err? then Err
    else if d.value.action == RetryFailedJobs then RecordRetry(store, d.value, r.eventKey, r.timestamp)
    else if d.value.action == Block then RecordExhaustion(store, d.value, r.eventKey, r.timestamp)
    else Ok(store)
  }

  /** The jobs retried are the failed ones asked for, each once, in increasing order. */
  lemma {:induction false} RetriedJobs(jobs: seq<int>)
    ensures var retried := Sort(Once(jobs), IntAtMost);
      Distinct(retried) && Sorted(retried, IntAtMost) && forall j :: j in retried <==> j in jobs
  {
    OnceFacts(jobs);
    SortMembers(Once(jobs), IntAtMost);
    SortSorted(Once(jobs), IntAtMost);
    SortDistinct(Once(jobs), IntAtMost);
  }

  lemma {:induction false} OnceFacts(s: seq<int>)
    ensures Distinct(Once(s)) && forall x :: x in Once(s) <==> x in s
  {
    if s != [] {
      OnceFacts(s[1..]);
      assert s == [s[0]] + s[1..];
    }
  }

  // ---- what is decided, and when ----

  /** The failure is one of the platform's, on the head the pull request is at. */
  predicate Retryable(r: Request)
  {
    r.target.head == r.currentHead && r.failureClass == Transient
  }

  /** No earlier delivery stands in the way: neither this event's own record nor, without a key, a running retry. */
  predicate Fresh(store: Store, r: Request)
  {
    KeyOf(r.target) in store ==>
      if r.eventKey != "" then r.eventKey !in store[KeyOf(r.target)].events
      else store[KeyOf(r.target)].status != Retrying
  }

  /** The attempts a store has on record for a target. */
  ghost predicate Recorded(store: Store, t: Target, attempts: int)
  {
    if KeyOf(t) in store then attempts == store[KeyOf(t)].attempts else attempts == 0
  }

  ghost predicate Took(d: Result<Decision>, action: Action)
  {
    d.Ok? && d.value.action == action
  }

  /** Which requests are decided, and what becomes of each: a retry needs a valid request for the current head, a
      transient failure, a fresh delivery and an attempt left; a block the same with no attempt left. */
  lemma DecidedExactly(store: Store, r: Request, attempts: int, digest: string -> nat)
    requires Recorded(store, r.target, attempts) && attempts >= 0
    ensures var d := Decide(store, r, digest);
      var due := ValidRequest(r) && Retryable(r) && Fresh(store, r);
      && (d.Err? <==> !ValidRequest(r) || (due && attempts < r.maxAttempts && r.baseDelay > 3600))
      && (Took(d, RetryFailedJobs) <==> due && attempts < r.maxAttempts && r.baseDelay <= 3600)
      && (Took(d, Block) <==> due && attempts >= r.maxAttempts)
      && (Took(d, RouteToRepair) <==>
            ValidRequest(r) && r.target.head == r.currentHead && r.failureClass in {Deterministic, ChangesRequested})
      && (Took(d, Noop) <==>
            ValidRequest(r) && (r.target.head != r.currentHead || r.failureClass in {PolicyBlock, Unknown} ||
                                (r.failureClass == Transient && !Fresh(store, r))))
  {
  }

  /** A retry counts one attempt more and names the failed jobs, each once and in order. */
  lemma RetryCarries(store: Store, r: Request, attempts: int, digest: string -> nat)
    requires Recorded(store, r.target, attempts) && attempts >= 0 && Took(Decide(store, r, digest), RetryFailedJobs)
    ensures var d := Decide(store, r, digest).value;
      && d.attempts == attempts + 1 <= r.maxAttempts
      && Distinct(d.jobs) && Sorted(d.jobs, IntAtMost) && (forall j :: j in d.jobs <==> j in r.jobs)
      && DelayOf(d.delay, attempts, r.baseDelay, 3600)
  {
    var d := Decide(store, r, digest).value;
    DecidedExactly(store, r, attempts, digest);
    assert d.jobs == Sort(Once(r.jobs), IntAtMost);
    assert d.delay == Backoff(r.target, attempts + 1, r.baseDelay, MAX_DELAY, digest).value;
    RetriedJobs(r.jobs);
    BackoffIsExponential(r.target, attempts + 1, r.baseDelay, MAX_DELAY, digest);
  }

  /** Every decision names its target, class and budget; what is no retry repeats the attempts on record. */
  lemma DecisionCarries(store: Store, r: Request, attempts: int, digest: string -> nat)
    requires Recorded(store, r.target, attempts) && Decide(store, r, digest).Ok?
    ensures var d := Decide(store, r, digest).value;
      && d.target == r.target && d.failureClass == r.failureClass && d.maxAttempts == r.maxAttempts
      && (d.headUnchanged <==> r.target.head == r.currentHead)
      && (d.action != RetryFailedJobs ==> d.attempts == attempts && d.jobs == [] && d.delay == 0)
  {
  }

  /** `doubled` is `base` doubled `times` times. */
  ghost predicate Doubles(doubled: int, times: int, base: int)
    decreases times
  {
    if times <= 0 then doubled == base else doubled % 2 == 0 && Doubles(doubled / 2, times - 1, base)
  }

  /** The base delay doubled once for each earlier attempt, plus a jitter below the base, and `max` at most. */
  ghost predicate Delayed(delay: int, doubled: int, jitter: int, earlier: int, base: int, max: int)
  {
    Doubles(doubled, earlier, base) && 0 <= jitter < base &&
    delay == (if doubled + jitter < max then doubled + jitter else max)
  }

  ghost predicate DelayOf(delay: int, earlier: int, base: int, max: int)
  {
    exists doubled, jitter :: Delayed(delay, doubled, jitter, earlier, base, max)
  }

  lemma Twice(base: int, p: int)
    ensures base * (2 * p) == 2 * (base * p)
  {
  }

  lemma DoubledOnce(half: int, n: nat, base: int)
    requires n > 0 && Doubles(half, n - 1, base)
    ensures Doubles(2 * half, n, base)
  {
    assert 2 * half / 2 == half;
  }

  lemma {:induction false} PowerDoubles(base: int, n: nat)
    ensures Doubles(base * Pow2(n), n, base)
  {
    if n > 0 {
      PowerDoubles(base, n - 1);
      DoubledOnce(base * Pow2(n - 1), n, base);
      Twice(base, Pow2(n - 1));
    } else {
      assert base * Pow2(0) == base;
    }
  }

  lemma BackoffIsExponential(t: Target, attempt: int, base: int, max: int, digest: string -> nat)
    requires 0 < attempt && 0 < base <= max
    ensures Backoff(t, attempt, base, max, digest).Ok?
    ensures DelayOf(Backoff(t, attempt, base, max, digest).value, attempt - 1, base, max)
  {
    PowerDoubles(base, attempt - 1);
    var doubled, jitter := base * Pow2(attempt - 1), digest(Seed(t, attempt)) % base;
    assert Delayed(Backoff(t, attempt, base, max, digest).value, doubled, jitter, attempt - 1, base, max);
  }

  /** The arguments that are refused before anything is decided. */
  lemma BadArgumentsAreRefused(store: Store, r: Request, digest: string -> nat)
    requires Text.Blank(r.target.repository) || r.target.pr <= 0 || r.target.run <= 0 ||
      |r.target.head| != 40 || |r.currentHead| != 40 || r.maxAttempts < 1 || r.maxAttempts > 20 || r.baseDelay <= 0 ||
      exists j :: j in r.jobs && j <= 0
    ensures Decide(store, r, digest).Err?
  {
  }

  /** A head is forty lower-case hexadecimal digits. */
  lemma HeadsAreHexadecimal(head: string)
    ensures IsSha(head) <==>
      |head| == 40 && forall c :: c in head ==> c in {'0', '1', '2', '3', '4', '5', '6', '7', '8', '9', 'a', 'b', 'c', 'd', 'e', 'f'}
  {
    if IsSha(head) {
      forall c | c in head ensures '0' <= c <= '9' || 'a' <= c <= 'f' {
        var i :| 0 <= i < |head| && head[i] == c;
      }
    }
    assert forall i :: 0 <= i < |head| ==> head[i] in head;
  }

  /** Any other arguments are decided: with a head the pull request has left, always. */
  lemma GoodArgumentsAreDecided(store: Store, r: Request, digest: string -> nat)
    requires !Text.Blank(r.target.repository) && r.target.pr > 0 && r.target.run > 0
    requires IsSha(r.target.head) && IsSha(r.currentHead) && r.target.head != r.currentHead
    requires 1 <= r.maxAttempts <= 20 && r.baseDelay > 0 && forall j :: j in r.jobs ==> j > 0
    ensures Took(Decide(store, r, digest), Noop)
  {
    assert forall i :: 0 <= i < |r.jobs| ==> r.jobs[i] in r.jobs;
  }
}
