/** The state a run builds and the state rebuilt from its comments drive the same decisions. */
module RetryRebuild {
  import opened Options
  import opened RetryBudget
  import opened RetryPayload
  import opened RetryRuns
  import opened RetrySummary
  import opened RetryComments
  import opened Sorting
  import Text

  /** Which comments count as evidence, and how their payloads are spelled and read. */
  datatype Channel = Channel(trusted: string -> bool, loads: Reader, names: Names)

  ghost predicate Usable(ch: Channel)
  {
    PlainNames(ch.names) && ReadsBack(ch.loads, ch.names)
  }

  predicate Tells(p: Payload, e: Entry)
  {
    p.target == e.target && p.key == e.key && p.attempts == e.attempts && p.exhausted == e.exhausted
  }

  /** `c` is the trusted comment rendered for entry `e`, in whatever harmless words. */
  ghost predicate Renders(c: Comment, e: Entry, r: Report, w: Wording, ch: Channel)
  {
    Tells(FactsOf(r), e) && r.timestamp == e.timestamp && Harmless(w) && ch.trusted(c.login) &&
    Render(r, ch.names, w) == Some(c.body)
  }

  ghost predicate Written(c: Comment, e: Entry, ch: Channel)
  {
    exists r, w :: Renders(c, e, r, w, ch)
  }

  /** Whether `render_retry_comment` renders the entry or refuses its event key. */
  predicate Renderable(e: Entry)
  {
    !Contains(e.key, CLOSE)
  }

  /** Every entry that renders has its comment. A trusted comment renders an entry or gives no evidence, and
      untrusted ones are anything at all. */
  ghost predicate Reports(comments: seq<Comment>, history: seq<Entry>, ch: Channel)
  {
    (forall e :: e in history && Renderable(e) ==> exists c :: c in comments && Written(c, e, ch)) &&
    (forall c :: c in comments && ch.trusted(c.login) ==>
       Parsed(FindMarkers(c.body), ch.loads) == [] || exists e :: e in history && Written(c, e, ch))
  }

  lemma {:induction false} RecordedIsNotBlank(requests: seq<Request>, digest: string -> nat, e: Entry)
    requires e in RunOf(requests, digest).history
    ensures !Text.Blank(e.key) && !Text.Blank(e.timestamp)
  {
    if requests != [] {
      var init := requests[..|requests| - 1];
      if e in RunOf(init, digest).history { RecordedIsNotBlank(init, digest, e); }
    }
  }

  /** A recorded entry fails to render for its event key only. */
  lemma RecordedRenders(requests: seq<Request>, digest: string -> nat, e: Entry, r: Report, n: Names, w: Wording)
    requires e in RunOf(requests, digest).history && Tells(FactsOf(r), e) && r.timestamp == e.timestamp
    ensures Render(r, n, w).Some? <==> Renderable(e)
  {
    RecordedIsNotBlank(requests, digest, e);
  }

  function ReportOf(e: Entry): Report
  {
    Report(e.target, e.key, e.timestamp, e.attempts, 0, [], e.exhausted, "")
  }

  /** One comment for every entry that renders. */
  function Published(history: seq<Entry>, login: string, n: Names): seq<Comment>
  {
    if history == [] then []
    else
      var body := Render(ReportOf(history[|history| - 1]), n, Wording("", "", ""));
      Published(history[..|history| - 1], login, n) + if body.Some? then [Comment(login, body.value)] else []
  }

  /** Every run has comments that report it. */
  lemma {:induction false} RunsCanBeReported(history: seq<Entry>, login: string, ch: Channel)
    requires ch.trusted(login) && forall e :: e in history ==> !Text.Blank(e.key) && !Text.Blank(e.timestamp)
    ensures Reports(Published(history, login, ch.names), history, ch)
  {
    if history != [] {
      var init, e := history[..|history| - 1], history[|history| - 1];
      var w := Wording("", "", "");
      assert history == init + [e];
      RunsCanBeReported(init, login, ch);
      assert Harmless(w);
      var body := Render(ReportOf(e), ch.names, w);
      var earlier, all := Published(init, login, ch.names), Published(history, login, ch.names);
      if body.Some? {
        var c := Comment(login, body.value);
        assert Renders(c, e, ReportOf(e), w, ch);
        assert c in all && Written(c, e, ch);
      }
      assert forall c :: c in earlier ==> c in all;
      ReportsGrow(earlier, all, init, e, ch);
    }
  }

  lemma ReportsGrow(earlier: seq<Comment>, all: seq<Comment>, init: seq<Entry>, e: Entry, ch: Channel)
    requires Reports(earlier, init, ch) && forall c :: c in earlier ==> c in all
    requires Renderable(e) ==> exists c :: c in all && Written(c, e, ch)
    requires forall c :: c in all && c !in earlier ==> Written(c, e, ch)
    ensures Reports(all, init + [e], ch)
  {
    forall d | d in init + [e] && Renderable(d) ensures exists c :: c in all && Written(c, d, ch) {
      if d in init {
        var c :| c in earlier && Written(c, d, ch);
        assert c in all;
      }
    }
    forall c | c in all && ch.trusted(c.login)
      ensures Parsed(FindMarkers(c.body), ch.loads) == [] || exists d :: d in init + [e] && Written(c, d, ch)
    {
      if c in earlier {
        if Parsed(FindMarkers(c.body), ch.loads) != [] {
          var d :| d in init && Written(c, d, ch);
          assert d in init + [e];
        }
      } else {
        assert e in init + [e];
      }
    }
  }

  ghost predicate GoodEntries(history: seq<Entry>)
  {
    forall e :: e in history ==> ValidTarget(e.target) && e.key != "" && e.attempts > 0
  }

  /** The entry's comment is rendered, and it is read back. */
  predicate Kept(e: Entry)
  {
    Renderable(e) && Readable(e.target.repository, e.timestamp)
  }

  ghost predicate AllKept(history: seq<Entry>)
  {
    forall e :: e in history ==> Kept(e)
  }

  lemma RenderedIsParsed(c: Comment, e: Entry, r: Report, w: Wording, ch: Channel)
    requires Usable(ch) && Renders(c, e, r, w, ch)
    requires ValidTarget(e.target) && e.key != "" && e.attempts > 0
    ensures Parsed(FindMarkers(c.body), ch.loads) == if Kept(e) then [FactsOf(r)] else []
  {
    var text := PayloadText(r, ch.names);
    if Kept(e) {
      CommentIsReadBack(r, ch.names, w);
      assert [text][..0] == [];
      assert ch.loads(text) == Some(FactsOf(r));
      assert r.target.repository != "";
      assert ParseMarker(text, ch.loads) == Some(FactsOf(r));
    } else {
      UnreadableIsInParts(r, ch.names, w);
      forall m | m in FindMarkers(c.body) ensures ch.loads(m).None? {
        assert IsPart(m, text);
      }
      NothingParsed(FindMarkers(c.body), ch.loads);
    }
  }

  lemma {:induction false} NothingParsed(raws: seq<string>, loads: Reader)
    requires forall m :: m in raws ==> loads(m).None?
    ensures Parsed(raws, loads) == []
  {
    if raws != [] {
      assert raws[|raws| - 1] in raws;
      NothingParsed(raws[..|raws| - 1], loads);
    }
  }

  ghost predicate Told(p: Payload, history: seq<Entry>)
  {
    exists e :: e in history && Kept(e) && Tells(p, e)
  }

  /** All the evidence there is comes from entries whose comments are read back. */
  lemma {:induction false} EvidenceIsTold(comments: seq<Comment>, history: seq<Entry>, ch: Channel)
    requires Usable(ch) && GoodEntries(history)
    requires forall c :: c in comments && ch.trusted(c.login) ==>
      Parsed(FindMarkers(c.body), ch.loads) == [] || exists e :: e in history && Written(c, e, ch)
    ensures forall p :: p in Evidence(comments, ch.trusted, ch.loads) ==> Told(p, history)
  {
    if comments != [] {
      var init, c := comments[..|comments| - 1], comments[|comments| - 1];
      assert comments == init + [c];
      EvidenceIsTold(init, history, ch);
      if ch.trusted(c.login) && Parsed(FindMarkers(c.body), ch.loads) != [] {
        var e :| e in history && Written(c, e, ch);
        var r, w :| Renders(c, e, r, w, ch);
        RenderedIsParsed(c, e, r, w, ch);
        assert Told(FactsOf(r), history);
      }
    }
  }

  lemma {:induction false} WrittenIsEvidence(comments: seq<Comment>, c: Comment, e: Entry, r: Report, w: Wording,
                                             ch: Channel)
    requires Usable(ch) && c in comments && Renders(c, e, r, w, ch) && Kept(e)
    requires ValidTarget(e.target) && e.key != "" && e.attempts > 0
    ensures FactsOf(r) in Evidence(comments, ch.trusted, ch.loads)
  {
    var init, last := comments[..|comments| - 1], comments[|comments| - 1];
    assert comments == init + [last];
    if last == c {
      RenderedIsParsed(c, e, r, w, ch);
    } else {
      WrittenIsEvidence(init, c, e, r, w, ch);
    }
  }

  // ---- agreement ----

  ghost predicate Covered(e: Entry, payloads: seq<Payload>)
  {
    exists p :: p in payloads && Tells(p, e)
  }

  /** The payloads tell the entries of the history, all of them and nothing else. */
  ghost predicate FromRun(payloads: seq<Payload>, history: seq<Entry>)
  {
    (forall p {:trigger Told(p, history)} :: p in payloads ==> Told(p, history)) &&
    (forall e {:trigger Covered(e, payloads)} :: e in history ==> Covered(e, payloads))
  }

  ghost predicate SameView(a: Store, b: Store, t: Target)
  {
    Attempts(a, t) == Attempts(b, t) && (IsInFlight(a, t) <==> IsInFlight(b, t)) &&
    (IsExhausted(a, t) <==> IsExhausted(b, t)) && forall k :: HasEvent(a, t, k) <==> HasEvent(b, t, k)
  }

  lemma SameViewDecidesAlike(a: Store, b: Store, r: Request, digest: string -> nat)
    requires ValidTarget(r.target) ==> SameView(a, b, r.target)
    ensures Decide(a, r, digest) == Decide(b, r, digest)
  {
    if ValidTarget(r.target) {
      assert HasEvent(a, r.target, r.eventKey) <==> HasEvent(b, r.target, r.eventKey);
    }
  }

  lemma EntryIn(history: seq<Entry>, e: Entry) returns (i: nat)
    requires e in history
    ensures i < |EntriesFor(history, e.target)| && EntriesFor(history, e.target)[i] == e
  {
    FilterMembers(history, (x: Entry) => x.target == e.target);
    var es := EntriesFor(history, e.target);
    assert e in es;
    i :| 0 <= i < |es| && es[i] == e;
  }

  lemma SoundEntriesAreGood(run: Run, max: int)
    requires Sound(run, max) && max >= 1
    ensures GoodEntries(run.history)
  {
    forall e | e in run.history ensures ValidTarget(e.target) && e.key != "" && e.attempts > 0 {
      var i := EntryIn(run.history, e);
      assert TargetMatches(run.store, EntriesFor(run.history, e.target), e.target, max);
    }
  }

  /** The facts one target's payloads inherit from the run. */
  lemma PayloadOfTarget(run: Run, max: int, payloads: seq<Payload>, t: Target, p: Payload)
    requires Sound(run, max) && max >= 1 && ValidTarget(t)
    requires p in payloads && p.target == t && FromRun(payloads, run.history)
    ensures var es := EntriesFor(run.history, t);
      p.key in KeysOf(es) && 0 < p.attempts <= Min(|es|, max) && (p.exhausted ==> |es| > max) && es != []
  {
    var es := EntriesFor(run.history, t);
    assert Told(p, run.history);
    var e :| e in run.history && Kept(e) && Tells(p, e);
    assert e.target == t;
    var i := EntryIn(run.history, e);
    assert TargetMatches(run.store, es, t, max);
    assert KeysOf(es)[i] == p.key;
  }

  lemma PayloadForEntry(run: Run, payloads: seq<Payload>, t: Target, i: nat) returns (p: Payload)
    requires FromRun(payloads, run.history)
    requires i < |EntriesFor(run.history, t)|
    ensures p in payloads && p.target == t && Tells(p, EntriesFor(run.history, t)[i])
  {
    FilterMembers(run.history, (x: Entry) => x.target == t);
    var e := EntriesFor(run.history, t)[i];
    assert e in EntriesFor(run.history, t);
    assert e in run.history && e.target == t && Covered(e, payloads);
    p :| p in payloads && Tells(p, e);
  }

  lemma UnmentionedAgrees(run: Run, max: int, store: Store, payloads: seq<Payload>, t: Target)
    requires Sound(run, max) && max >= 1 && ValidTarget(t) && FromRun(payloads, run.history)
    requires Joins(store, payloads, t)
    ensures EntriesFor(run.history, t) == [] <==> KeyOf(t) !in store
    ensures KeyOf(t) in run.store <==> KeyOf(t) in store
  {
    var es := EntriesFor(run.history, t);
    assert TargetMatches(run.store, es, t, max);
    if es == [] {
      if Mentions(payloads, t) {
        var p :| p in payloads && p.target == t;
        PayloadOfTarget(run, max, payloads, t, p);
      }
    } else {
      var last := PayloadForEntry(run, payloads, t, |es| - 1);
      assert Mentions(payloads, t);
    }
  }

  lemma AttemptsAgree(run: Run, max: int, store: Store, payloads: seq<Payload>, t: Target)
    requires Sound(run, max) && max >= 1 && ValidTarget(t) && FromRun(payloads, run.history)
    requires Joins(store, payloads, t) && KeyOf(t) in store && KeyOf(t) in run.store
    ensures run.store[KeyOf(t)].attempts == store[KeyOf(t)].attempts
    ensures run.store[KeyOf(t)].status == store[KeyOf(t)].status
  {
    var es, k := EntriesFor(run.history, t), KeyOf(t);
    assert TargetMatches(run.store, es, t, max);
    var last := PayloadForEntry(run, payloads, t, |es| - 1);
    var top :| top in payloads && top.target == t && top.attempts == store[k].attempts;
    PayloadOfTarget(run, max, payloads, t, top);
    assert last.attempts == Min(|es|, max);
    assert |es| > max ==> last.exhausted;
    if p :| p in payloads && p.target == t && p.exhausted {
      PayloadOfTarget(run, max, payloads, t, p);
    }
  }

  lemma EventsAgree(run: Run, max: int, store: Store, payloads: seq<Payload>, t: Target, key: string)
    requires Sound(run, max) && max >= 1 && ValidTarget(t) && FromRun(payloads, run.history)
    requires Joins(store, payloads, t) && KeyOf(t) in store && KeyOf(t) in run.store
    ensures key in run.store[KeyOf(t)].events <==> key in store[KeyOf(t)].events
  {
    var es, k := EntriesFor(run.history, t), KeyOf(t);
    assert TargetMatches(run.store, es, t, max);
    if key in store[k].events {
      var p :| p in payloads && p.target == t && p.key == key;
      PayloadOfTarget(run, max, payloads, t, p);
    }
    if key in KeysOf(es) {
      var i: nat :| i < |es| && KeysOf(es)[i] == key;
      var p := PayloadForEntry(run, payloads, t, i);
    }
  }

  lemma JoinAgrees(run: Run, max: int, store: Store, payloads: seq<Payload>, t: Target)
    requires Sound(run, max) && max >= 1 && ValidTarget(t) && FromRun(payloads, run.history)
    requires Joins(store, payloads, t)
    ensures SameView(run.store, store, t)
  {
    UnmentionedAgrees(run, max, store, payloads, t);
    if KeyOf(t) in store {
      AttemptsAgree(run, max, store, payloads, t);
      forall k ensures HasEvent(run.store, t, k) <==> HasEvent(store, t, k) {
        EventsAgree(run, max, store, payloads, t, k);
      }
    }
  }

  // ---- the rebuilt store ----

  function Rebuilt(comments: seq<Comment>, ch: Channel): Store
  {
    MergedAll(Evidence(comments, ch.trusted, ch.loads))
  }

  lemma EvidenceIsGood(comments: seq<Comment>, run: Run, max: int, ch: Channel)
    requires Sound(run, max) && max >= 1 && Usable(ch) && Reports(comments, run.history, ch)
    ensures GoodEntries(run.history)
    ensures forall p :: p in Evidence(comments, ch.trusted, ch.loads) ==>
      Told(p, run.history) && ExactHead(p.target) && p.attempts > 0
  {
    SoundEntriesAreGood(run, max);
    EvidenceIsTold(comments, run.history, ch);
  }

  lemma KeptRunAgrees(comments: seq<Comment>, run: Run, max: int, ch: Channel, t: Target)
    requires Sound(run, max) && max >= 1 && Usable(ch) && Reports(comments, run.history, ch)
    requires AllKept(run.history) && ValidTarget(t)
    ensures SameView(run.store, Rebuilt(comments, ch), t)
  {
    var payloads := Evidence(comments, ch.trusted, ch.loads);
    EvidenceIsGood(comments, run, max, ch);
    forall e | e in run.history ensures Covered(e, payloads) {
      assert Renderable(e);
      var c :| c in comments && Written(c, e, ch);
      var report, w :| Renders(c, e, report, w, ch);
      WrittenIsEvidence(comments, c, e, report, w, ch);
      assert Tells(FactsOf(report), e);
    }
    MergeJoins(payloads, t);
    JoinAgrees(run, max, MergedAll(payloads), payloads, t);
  }

  /** The store a run built and the store rebuilt from its comments -- in any order, with any duplicates and any
      untrusted noise -- agree on every exact head, so they decide alike, when every recorded entry is kept. */
  lemma RebuiltStateDecidesAlike(requests: seq<Request>, comments: seq<Comment>, r: Request, max: int,
                                 ch: Channel, digest: string -> nat)
    requires max >= 1 && forall q :: q in requests ==> q.maxAttempts == max
    requires Usable(ch) && Reports(comments, RunOf(requests, digest).history, ch)
    requires AllKept(RunOf(requests, digest).history)
    ensures forall t :: ValidTarget(t) ==> SameView(RunOf(requests, digest).store, Rebuilt(comments, ch), t)
    ensures Decide(RunOf(requests, digest).store, r, digest) == Decide(Rebuilt(comments, ch), r, digest)
  {
    var run := RunOf(requests, digest);
    RunIsSound(requests, max, digest);
    forall t | ValidTarget(t) ensures SameView(run.store, Rebuilt(comments, ch), t) {
      KeptRunAgrees(comments, run, max, ch, t);
    }
    SameViewDecidesAlike(run.store, Rebuilt(comments, ch), r, digest);
  }

  // ---- what an entry that is not kept costs ----

  lemma KeysTellEntriesApart(run: Run, max: int, d: Entry, e: Entry)
    requires Sound(run, max) && max >= 1 && d in run.history && e in run.history
    requires d.target == e.target && d.key == e.key
    ensures d == e
  {
    var es := EntriesFor(run.history, e.target);
    assert TargetMatches(run.store, es, e.target, max);
    var i := EntryIn(run.history, d);
    var j := EntryIn(run.history, e);
    assert KeysOf(es)[i] == d.key && KeysOf(es)[j] == e.key;
  }

  /** An entry that is not kept leaves its event in the run's store and nowhere else. */
  lemma LostEvent(comments: seq<Comment>, run: Run, max: int, ch: Channel, e: Entry)
    requires Sound(run, max) && max >= 1 && Usable(ch) && Reports(comments, run.history, ch)
    requires e in run.history && !Kept(e)
    ensures ValidTarget(e.target) && e.key != ""
    ensures HasEvent(run.store, e.target, e.key) && !HasEvent(Rebuilt(comments, ch), e.target, e.key)
  {
    var payloads, es := Evidence(comments, ch.trusted, ch.loads), EntriesFor(run.history, e.target);
    EvidenceIsGood(comments, run, max, ch);
    var i := EntryIn(run.history, e);
    assert TargetMatches(run.store, es, e.target, max);
    assert KeysOf(es)[i] == e.key;
    MergeJoins(payloads, e.target);
    if HasEvent(Rebuilt(comments, ch), e.target, e.key) {
      var p :| p in payloads && p.target == e.target && p.key == e.key;
      assert Told(p, run.history);
      var d :| d in run.history && Kept(d) && Tells(p, d);
      KeysTellEntriesApart(run, max, d, e);
    }
  }

  /** The same failure, delivered again. */
  function Redelivery(e: Entry): Request
  {
    Request(e.target, e.target.head, Transient, [], 3, 60, e.key, e.timestamp)
  }

  /** A lost event is acted on again when it is delivered again. */
  lemma LostEventIsActedOnAgain(a: Store, b: Store, e: Entry, digest: string -> nat)
    requires ValidTarget(e.target) && e.key != ""
    requires HasEvent(a, e.target, e.key) && !HasEvent(b, e.target, e.key)
    ensures Decide(a, Redelivery(e), digest) != Decide(b, Redelivery(e), digest)
  {
  }

  /** Which runs are rebuilt is decided by their recorded entries alone: the store rebuilt from the comments agrees
      with the store the run built on every exact head, and decides every request alike, if and only if no entry
      has an event key that closes a comment, or a repository or timestamp that breaks the marker. */
  lemma RebuiltExactlyWhenKept(requests: seq<Request>, comments: seq<Comment>, max: int, ch: Channel,
                               digest: string -> nat)
    requires max >= 1 && forall q :: q in requests ==> q.maxAttempts == max
    requires Usable(ch) && Reports(comments, RunOf(requests, digest).history, ch)
    ensures (forall t :: ValidTarget(t) ==> SameView(RunOf(requests, digest).store, Rebuilt(comments, ch), t)) <==>
            AllKept(RunOf(requests, digest).history)
    ensures (forall r :: Decide(RunOf(requests, digest).store, r, digest) == Decide(Rebuilt(comments, ch), r, digest)) <==>
            AllKept(RunOf(requests, digest).history)
  {
    var run := RunOf(requests, digest);
    RunIsSound(requests, max, digest);
    if AllKept(run.history) {
      forall r ensures Decide(run.store, r, digest) == Decide(Rebuilt(comments, ch), r, digest) {
        RebuiltStateDecidesAlike(requests, comments, r, max, ch, digest);
      }
      forall t | ValidTarget(t) ensures SameView(run.store, Rebuilt(comments, ch), t) {
        KeptRunAgrees(comments, run, max, ch, t);
      }
    } else {
      var e :| e in run.history && !Kept(e);
      LostEvent(comments, run, max, ch, e);
      LostEventIsActedOnAgain(run.store, Rebuilt(comments, ch), e, digest);
      assert !SameView(run.store, Rebuilt(comments, ch), e.target);
    }
  }

  // ---- two deliveries that are recorded and lost ----

  /** The first transient failure of a run, on an exact head. */
  function Delivery(key: string, timestamp: string): Request
  {
    var head := seq(40, i => '0');
    Request(Target("o/r", 1, 1, head), head, Transient, [1], 3, 60, key, timestamp)
  }

  lemma DeliveryIsRecorded(key: string, timestamp: string, digest: string -> nat)
    requires !Text.Blank(key) && !Text.Blank(timestamp)
    ensures var q := Delivery(key, timestamp);
      RunOf([q], digest).history == [Entry(q.target, key, false, 1, timestamp)] &&
      Attempts(RunOf([q], digest).store, q.target) == 1
  {
    var q := Delivery(key, timestamp);
    assert [q][..0] == [] && RunOf([], digest) == Run(map[], []);
    assert q.target.repository[0] == 'o' && !Text.Blank(q.target.repository);
    assert ValidRequest(q);
    assert key != "";
  }

  lemma DeliveryIsLost(key: string, timestamp: string, comments: seq<Comment>, ch: Channel, digest: string -> nat)
    requires !Text.Blank(key) && !Text.Blank(timestamp)
    requires Usable(ch) && Reports(comments, RunOf([Delivery(key, timestamp)], digest).history, ch)
    requires !Kept(Entry(Delivery(key, timestamp).target, key, false, 1, timestamp))
    ensures Attempts(Rebuilt(comments, ch), Delivery(key, timestamp).target) == 0
  {
    var q := Delivery(key, timestamp);
    var run := RunOf([q], digest);
    DeliveryIsRecorded(key, timestamp, digest);
    RunIsSound([q], 3, digest);
    var payloads := Evidence(comments, ch.trusted, ch.loads);
    assert payloads != [] ==> payloads[0] in payloads;
    forall p: Payload ensures !Told(p, run.history) {
    }
    EvidenceIsGood(comments, run, 3, ch);
  }

  /** The timestamp `} -->` is recorded with a retry, and loses it: its marker is cut. */
  lemma BraceTimestampLosesTheRetry(comments: seq<Comment>, ch: Channel, digest: string -> nat)
    requires Usable(ch) && Reports(comments, RunOf([Delivery("k", "} -->")], digest).history, ch)
    ensures Attempts(RunOf([Delivery("k", "} -->")], digest).store, Delivery("k", "} -->").target) == 1
    ensures Attempts(Rebuilt(comments, ch), Delivery("k", "} -->").target) == 0
  {
    var key, timestamp := "k", "} -->";
    BraceBreaks();
    assert !Text.IsSpace(key[0]) && !Text.IsSpace(timestamp[0]);
    DeliveryIsRecorded(key, timestamp, digest);
    DeliveryIsLost(key, timestamp, comments, ch, digest);
  }

  /** The event key `k-->` is recorded with a retry, and loses it: no comment is ever rendered for it. */
  lemma CloseKeyLosesTheRetry(comments: seq<Comment>, ch: Channel, digest: string -> nat)
    requires Usable(ch) && Reports(comments, RunOf([Delivery("k-->", "t")], digest).history, ch)
    ensures Attempts(RunOf([Delivery("k-->", "t")], digest).store, Delivery("k-->", "t").target) == 1
    ensures Attempts(Rebuilt(comments, ch), Delivery("k-->", "t").target) == 0
    ensures forall r: Report, n, w :: r.key == "k-->" ==> Render(r, n, w).None?
  {
    var key := "k-->";
    assert key[1..] == CLOSE && CLOSE <= key[1..];
    assert Contains(key[1..], CLOSE);
    assert !Text.IsSpace(key[0]) && !Text.IsSpace("t"[0]);
    DeliveryIsRecorded(key, "t", digest);
    DeliveryIsLost(key, "t", comments, ch, digest);
  }

  lemma BraceBreaks()
    ensures Breaks("} -->")
  {
    var s := "} -->";
    assert s[1..] == " -->" && s[1..][1..] == "-->";
    assert CLOSE <= SkipBlanks(s[1..]);
  }
}
