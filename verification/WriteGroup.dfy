/** cli.py, `_write_group`: a set of files replaced as a group, or not at all. */
module WriteGroup {
  import opened Options
  import Text

  type Path = string
  type Files = map<Path, string>

  /** A rendered document and where it goes; no output means standard output. */
  datatype Document = Document(data: string, output: Option<Path>)

  datatype Staged = Staged(temp: Path, dest: Path, data: string)
  datatype Replaced = Replaced(backup: Option<Path>, dest: Path)

  // ---- the file system ----

  /** Regular files by resolved path. A step that may fail either does all of its work or, except for
      a half-written staging file, none of it. */
  class FileSystem {
    var files: Files
    var stdout: seq<string>
    var faults: nat              // how many steps the system has failed
    const dirs: set<Path>

    constructor (files: Files, dirs: set<Path>)
      ensures this.files == files && this.dirs == dirs && stdout == [] && faults == 0
    {
      this.files, this.dirs, stdout, faults := files, dirs, [], 0;
    }

    predicate Exists(p: Path)
      reads this
    {
      p in files || p in dirs
    }

    /** `os.replace`. */
    method Replace(from: Path, to: Path, mayFail: bool) returns (ok: bool)
      requires from in files
      modifies this`files, this`faults
      ensures !mayFail ==> ok
      ensures faults == old(faults) + (if ok then 0 else 1)
      ensures files == if ok then Moved(old(files), from, to) else old(files)
    {
      ok := *;
      ok := ok || !mayFail;
      if ok {
        files := Moved(files, from, to);
      } else {
        faults := faults + 1;
      }
    }

    /** `unlink(missing_ok=True)`. */
    method Unlink(p: Path)
      modifies this`files
      ensures files == old(files) - {p}
    {
      files := files - {p};
    }

    /** Exclusive creation and the write that follows; a failure may leave a partial file behind. */
    method Create(p: Path, data: string) returns (ok: bool)
      requires p !in files
      modifies this`files, this`faults
      ensures faults == old(faults) + (if ok then 0 else 1)
      ensures ok ==> files == old(files)[p := data]
      ensures !ok ==> files - {p} == old(files)
    {
      var created: bool := *;
      ok := *;
      ok := ok && created;
      if ok {
        files := files[p := data];
      } else {
        faults := faults + 1;
        if created {
          var written :| 0 <= written <= |data|;
          files := files[p := data[..written]];
        }
      }
    }
  }

  function Moved(files: Files, from: Path, to: Path): Files
    requires from in files
  {
    (files - {from})[to := files[from]]
  }

  // ---- scratch names ----

  function Candidate(dest: Path, tag: string, pid: nat, counter: nat): Path
  {
    dest + "." + tag + "-" + Text.Decimal(pid) + "-" + Text.Decimal(counter)
  }

  lemma CandidateInjective(dest: Path, tag: string, pid: nat, m: nat, n: nat)
    requires Candidate(dest, tag, pid, m) == Candidate(dest, tag, pid, n)
    ensures m == n
  {
    var stem := dest + "." + tag + "-" + Text.Decimal(pid) + "-";
    assert Text.Decimal(m) == Candidate(dest, tag, pid, m)[|stem|..];
    assert Text.Decimal(n) == Candidate(dest, tag, pid, n)[|stem|..];
    Text.DecimalInjective(m, n);
  }

  lemma {:induction false} SubsetSize<T>(a: set<T>, b: set<T>)
    requires a <= b
    ensures |a| <= |b|
  {
    if a != {} {
      var x :| x in a;
      SubsetSize(a - {x}, b - {x});
    }
  }

  /** `_scratch`: the search ends because distinct counters give distinct names and only finitely many
      names are in use. */
  method Scratch(fs: FileSystem, dest: Path, tag: string, pid: nat, dests: set<Path>, taken: set<Path>) returns (p: Path)
    ensures !fs.Exists(p) && p !in dests && p !in taken
  {
    var counter := 0;
    ghost var used := fs.files.Keys + fs.dirs + dests + taken;
    ghost var tried: set<Path> := {};
    while true
      invariant tried <= used && |tried| == counter
      invariant forall q :: q in tried ==> exists n: nat :: n < counter && q == Candidate(dest, tag, pid, n)
      decreases |used| - counter
    {
      p := Candidate(dest, tag, pid, counter);
      if p !in dests && p !in taken && !fs.Exists(p) {
        return;
      }
      if p in tried {
        var n: nat :| n < counter && p == Candidate(dest, tag, pid, n);
        CandidateInjective(dest, tag, pid, n, counter);
      }
      tried := tried + {p};
      SubsetSize(tried, used);
      counter := counter + 1;
    }
  }

  // ---- what the phases leave on disk, as values ----

  /** The files with every pending staging file in place. */
  function Overlay(base: Files, pending: seq<Staged>): Files
  {
    if pending == [] then base else Overlay(base, pending[1..])[pending[0].temp := pending[0].data]
  }

  function Temps(staged: seq<Staged>): set<Path>
  {
    set i | 0 <= i < |staged| :: staged[i].temp
  }

  function Backups(replaced: seq<Replaced>): set<Path>
  {
    set i | 0 <= i < |replaced| && replaced[i].backup.Some? :: replaced[i].backup.value
  }

  function Targets(replaced: seq<Replaced>): set<Path>
  {
    set i | 0 <= i < |replaced| :: replaced[i].dest
  }

  /** The group's outcome: every document at its destination, the last one where two share it. */
  function Written(base: Files, staged: seq<Staged>): Files
  {
    if staged == [] then base
    else Written(base, staged[..|staged| - 1])[staged[|staged| - 1].dest := staged[|staged| - 1].data]
  }

  function OneBack(files: Files, r: Replaced): Files
  {
    if r.backup.Some? && r.backup.value in files then Moved(files, r.backup.value, r.dest) else files - {r.dest}
  }

  /** Undoing the replacements newest first. */
  function Restored(files: Files, replaced: seq<Replaced>): Files
    decreases |replaced|
  {
    if replaced == [] then files
    else Restored(OneBack(files, replaced[|replaced| - 1]), replaced[..|replaced| - 1])
  }

  ghost predicate Fresh(staged: seq<Staged>, avoid: set<Path>)
  {
    (forall i :: 0 <= i < |staged| ==> staged[i].temp !in avoid) &&
    (forall i, j :: 0 <= i < j < |staged| ==> staged[i].temp != staged[j].temp)
  }

  lemma TempsTail(pending: seq<Staged>)
    requires pending != []
    ensures Temps(pending) == Temps(pending[1..]) + {pending[0].temp}
  {
    forall p | p in Temps(pending) ensures p in Temps(pending[1..]) + {pending[0].temp} {
      var i :| 0 <= i < |pending| && pending[i].temp == p;
      if i > 0 { assert pending[1..][i - 1] == pending[i]; }
    }
    forall p | p in Temps(pending[1..]) ensures p in Temps(pending) {
      var i :| 0 <= i < |pending[1..]| && pending[1..][i].temp == p;
      assert pending[i + 1].temp == p;
    }
  }

  lemma HeadTempFresh(pending: seq<Staged>)
    requires pending != [] && Fresh(pending, {})
    ensures pending[0].temp !in Temps(pending[1..])
  {
    forall i | 0 <= i < |pending[1..]| ensures pending[1..][i].temp != pending[0].temp {
      assert pending[1..][i] == pending[i + 1];
    }
  }

  lemma {:induction false} OverlayKeys(base: Files, pending: seq<Staged>)
    ensures Overlay(base, pending).Keys == base.Keys + Temps(pending)
    ensures forall p :: p in base && p !in Temps(pending) ==> Overlay(base, pending)[p] == base[p]
  {
    if pending != [] {
      OverlayKeys(base, pending[1..]);
      TempsTail(pending);
    }
  }

  lemma {:induction false} OverlayAppend(base: Files, pending: seq<Staged>, s: Staged)
    requires Fresh(pending + [s], {})
    ensures Overlay(base, pending + [s]) == Overlay(base, pending)[s.temp := s.data]
  {
    if pending == [] {
      assert pending + [s] == [s] && [s][1..] == [];
    } else {
      assert (pending + [s])[1..] == pending[1..] + [s];
      assert forall i :: 0 <= i < |pending[1..] + [s]| ==> (pending[1..] + [s])[i] == (pending + [s])[i + 1];
      OverlayAppend(base, pending[1..], s);
      assert (pending + [s])[0] == pending[0] && (pending + [s])[|pending|] == s;
      WritesCommute(Overlay(base, pending[1..]), s, pending[0]);
    }
  }

  lemma WritesCommute(files: Files, s: Staged, t: Staged)
    requires s.temp != t.temp
    ensures files[s.temp := s.data][t.temp := t.data] == files[t.temp := t.data][s.temp := s.data]
  {
  }

  /** Clearing the staging litter leaves the base. */
  lemma OverlayCleared(base: Files, pending: seq<Staged>, files: Files, all: set<Path>)
    requires files == Overlay(base, pending) && Temps(pending) <= all && all !! base.Keys
    ensures files - all == base
  {
    OverlayKeys(base, pending);
  }

  lemma OverlayHead(base: Files, pending: seq<Staged>)
    requires pending != [] && Fresh(pending, base.Keys)
    ensures Overlay(base, pending) - {pending[0].temp} == Overlay(base, pending[1..])
    ensures pending[0].temp in Overlay(base, pending) && Overlay(base, pending)[pending[0].temp] == pending[0].data
  {
    OverlayKeys(base, pending[1..]);
    HeadTempFresh(pending);
  }

  lemma {:induction false} OverlayWrite(base: Files, pending: seq<Staged>, d: Path, data: string)
    requires d !in Temps(pending)
    ensures Overlay(base, pending)[d := data] == Overlay(base[d := data], pending)
  {
    if pending != [] {
      TempsTail(pending);
      OverlayWrite(base, pending[1..], d, data);
    }
  }

  lemma {:induction false} RestoredFrame(files: Files, replaced: seq<Replaced>, t: Path)
    requires t !in Backups(replaced) && t !in Targets(replaced)
    ensures Restored(files - {t}, replaced) == Restored(files, replaced) - {t}
    decreases |replaced|
  {
    if replaced != [] {
      var init, r := replaced[..|replaced| - 1], replaced[|replaced| - 1];
      assert r.dest in Targets(replaced) && (r.backup.Some? ==> r.backup.value in Backups(replaced));
      assert t !in Backups(init) by { BackupsInit(replaced); }
      assert t !in Targets(init) by { TargetsInit(replaced); }
      RestoredFrame(OneBack(files, r), init, t);
      assert OneBack(files - {t}, r) == OneBack(files, r) - {t};
    }
  }

  lemma BackupsInit(replaced: seq<Replaced>)
    requires replaced != []
    ensures Backups(replaced[..|replaced| - 1]) <= Backups(replaced)
  {
    var init := replaced[..|replaced| - 1];
    forall p | p in Backups(init) ensures p in Backups(replaced) {
      var i :| 0 <= i < |init| && init[i].backup.Some? && init[i].backup.value == p;
      assert replaced[i] == init[i];
    }
  }

  lemma TargetsInit(replaced: seq<Replaced>)
    requires replaced != []
    ensures Targets(replaced[..|replaced| - 1]) <= Targets(replaced)
  {
    var init := replaced[..|replaced| - 1];
    forall p | p in Targets(init) ensures p in Targets(replaced) {
      var i :| 0 <= i < |init| && init[i].dest == p;
      assert replaced[i] == init[i];
    }
  }

  lemma AppendBackups(replaced: seq<Replaced>, r: Replaced)
    ensures Backups(replaced + [r]) == Backups(replaced) + if r.backup.Some? then {r.backup.value} else {}
  {
    var all := replaced + [r];
    assert all[..|replaced|] == replaced && all[|replaced|] == r;
    BackupsInit(all);
    forall p | p in Backups(all) ensures p in Backups(replaced) || (r.backup.Some? && p == r.backup.value) {
      var i :| 0 <= i < |all| && all[i].backup.Some? && all[i].backup.value == p;
      assert i < |replaced| ==> replaced[i] == all[i];
    }
    assert r.backup.Some? ==> r.backup.value in Backups(all);
  }

  lemma AppendTargets(replaced: seq<Replaced>, r: Replaced)
    ensures Targets(replaced + [r]) == Targets(replaced) + {r.dest}
  {
    var all := replaced + [r];
    assert all[..|replaced|] == replaced && all[|replaced|] == r;
    TargetsInit(all);
    forall p | p in Targets(all) ensures p in Targets(replaced) || p == r.dest {
      var i :| 0 <= i < |all| && all[i].dest == p;
      assert i < |replaced| ==> replaced[i] == all[i];
    }
  }

  lemma AppendRestored(files: Files, replaced: seq<Replaced>, r: Replaced)
    ensures Restored(files, replaced + [r]) == Restored(OneBack(files, r), replaced)
  {
    var all := replaced + [r];
    assert all[..|replaced|] == replaced && all[|replaced|] == r;
  }

  /** The two moves of one replacement, and what undoing it at either point gives. */
  lemma MoveUndone(files: Files, replaced: seq<Replaced>, s: Staged, backup: Option<Path>)
    requires s.temp in files && s.temp != s.dest && s.temp !in Backups(replaced) && s.temp !in Targets(replaced)
    requires backup.Some? <==> s.dest in files
    requires backup.Some? ==> backup.value !in files && backup.value != s.dest && backup.value != s.temp
    ensures var r := Replaced(backup, s.dest);
      var aside := if backup.Some? then Moved(files, s.dest, backup.value) else files;
      Restored(aside, replaced + [r]) == Restored(files, replaced) &&
      s.temp in aside &&
      Restored(Moved(aside, s.temp, s.dest), replaced + [r]) == Restored(files, replaced) - {s.temp}
  {
    var r := Replaced(backup, s.dest);
    var aside := if backup.Some? then Moved(files, s.dest, backup.value) else files;
    AppendRestored(aside, replaced, r);
    assert OneBack(aside, r) == files;
    AppendRestored(Moved(aside, s.temp, s.dest), replaced, r);
    assert OneBack(Moved(aside, s.temp, s.dest), r) == files - {s.temp};
    RestoredFrame(files, replaced, s.temp);
  }

  /** What a completed replacement adds to the group's outcome, backups aside. */
  lemma MoveAdvances(files: Files, base: Files, replaced: seq<Replaced>, pending: seq<Staged>, backup: Option<Path>)
    requires pending != [] && Fresh(pending, base.Keys)
    requires var s := pending[0];
      s.temp in files && s.temp != s.dest && s.dest !in Temps(pending) && s.dest !in Backups(replaced) &&
      (backup.Some? <==> s.dest in files) &&
      (backup.Some? ==> backup.value !in files && backup.value != s.dest && backup.value != s.temp) &&
      s.temp !in Backups(replaced)
    requires files - Backups(replaced) == Overlay(base, pending)
    ensures var s := pending[0];
      var aside := if backup.Some? then Moved(files, s.dest, backup.value) else files;
      s.temp in aside &&
      Moved(aside, s.temp, s.dest) - Backups(replaced + [Replaced(backup, s.dest)])
        == Overlay(base[s.dest := s.data], pending[1..])
  {
    var s := pending[0];
    var aside := if backup.Some? then Moved(files, s.dest, backup.value) else files;
    AppendBackups(replaced, Replaced(backup, s.dest));
    OverlayHead(base, pending);
    TempsTail(pending);
    OverlayWrite(base, pending[1..], s.dest, s.data);
    var done := Moved(aside, s.temp, s.dest) - Backups(replaced + [Replaced(backup, s.dest)]);
    assert files[s.temp] == s.data by { assert (files - Backups(replaced))[s.temp] == s.data; }
    assert done == ((files - Backups(replaced)) - {s.temp})[s.dest := s.data];
  }

  // ---- the group write ----

  /** Every scratch name in use, against the destinations and the files the group started from. */
  ghost predicate Apart(taken: set<Path>, dests: set<Path>, base: Files)
  {
    taken !! dests && taken !! base.Keys
  }

  method RemoveAll(fs: FileSystem, staged: seq<Staged>)
    modifies fs`files
    ensures fs.files == old(fs.files) - Temps(staged)
  {
    for i := 0 to |staged|
      invariant fs.files == old(fs.files) - Temps(staged[..i])
    {
      fs.Unlink(staged[i].temp);
      TempsAppend(staged[..i], staged[i]);
      assert staged[..i + 1] == staged[..i] + [staged[i]];
    }
    assert staged[..|staged|] == staged;
  }

  lemma TempsAppend(staged: seq<Staged>, s: Staged)
    ensures Temps(staged + [s]) == Temps(staged) + {s.temp}
  {
    var all := staged + [s];
    assert all[|staged|] == s;
    forall p | p in Temps(staged) ensures p in Temps(all) {
      var i :| 0 <= i < |staged| && staged[i].temp == p;
      assert all[i].temp == p;
    }
  }

  lemma TempsOf(staged: seq<Staged>, i: nat)
    requires i < |staged|
    ensures staged[i].temp in Temps(staged)
  {
  }

  /** Staging files stand beside their destinations, disjoint from everything that matters. */
  ghost predicate Planned(staged: seq<Staged>, documents: seq<Document>, base: Files, dests: set<Path>, dirs: set<Path>)
  {
    |staged| <= |documents| && Fresh(staged, base.Keys) &&
    Apart(Temps(staged), dests, base) && Temps(staged) !! dirs &&
    forall k :: 0 <= k < |staged| ==>
      documents[k].output == Some(staged[k].dest) && staged[k].data == documents[k].data &&
      staged[k].dest in dests && staged[k].dest !in dirs
  }

  lemma PlanGrows(staged: seq<Staged>, s: Staged, documents: seq<Document>, base: Files, dests: set<Path>, dirs: set<Path>)
    requires Planned(staged, documents, base, dests, dirs) && |staged| < |documents|
    requires documents[|staged|].output == Some(s.dest) && s.data == documents[|staged|].data
    requires s.dest in dests && s.dest !in dirs
    requires s.temp !in Temps(staged) && s.temp !in dests && s.temp !in base && s.temp !in dirs
    ensures Planned(staged + [s], documents, base, dests, dirs)
  {
    var grown := staged + [s];
    TempsAppend(staged, s);
    forall k | 0 <= k < |staged| ensures grown[k] == staged[k] && staged[k].temp != s.temp { TempsOf(staged, k); }
  }

  method StageOne(fs: FileSystem, document: Document, dest: Path, pid: nat, dests: set<Path>, taken: set<Path>)
    returns (ok: bool, s: Staged)
    modifies fs`files, fs`faults
    ensures fs.faults == old(fs.faults) + (if ok then 0 else 1)
    ensures s.dest == dest && s.data == document.data
    ensures s.temp !in old(fs.files) && s.temp !in fs.dirs && s.temp !in dests && s.temp !in taken
    ensures ok ==> fs.files == old(fs.files)[s.temp := s.data]
    ensures !ok ==> fs.files - {s.temp} == old(fs.files)
  {
    var temp := Scratch(fs, dest, "staged", pid, dests, taken);
    s := Staged(temp, dest, document.data);
    ok := fs.Create(temp, document.data);
  }

  /** Staging: every document is written beside its destination; a failure removes what was staged. */
  method Stage(fs: FileSystem, documents: seq<Document>, pid: nat, dests: set<Path>)
    returns (ok: bool, staged: seq<Staged>, taken: set<Path>)
    requires forall d :: d in documents ==> d.output.Some? && d.output.value in dests
    modifies fs`files, fs`faults
    ensures ok <==> fs.faults == old(fs.faults) && forall d :: d in documents ==> d.output.value !in fs.dirs
    ensures !ok ==> fs.files == old(fs.files)
    ensures ok ==> fs.files == Overlay(old(fs.files), staged) && |staged| == |documents| && taken == Temps(staged)
    ensures ok ==> Planned(staged, documents, old(fs.files), dests, fs.dirs)
  {
    ghost var base := fs.files;
    staged, taken := [], {};
    for i := 0 to |documents|
      invariant fs.files == Overlay(base, staged) && |staged| == i && taken == Temps(staged)
      invariant Planned(staged, documents, base, dests, fs.dirs)
      invariant fs.faults == old(fs.faults) && forall j :: 0 <= j < i ==> documents[j].output.value !in fs.dirs
    {
      assert documents[i] in documents;
      var dest := documents[i].output.value;
      OverlayKeys(base, staged);
      if dest in fs.dirs {
        OverlayCleared(base, staged, fs.files, taken);
        RemoveAll(fs, staged);
        return false, staged, taken;
      }
      ghost var before, earlier := fs.files, staged;
      var written, s := StageOne(fs, documents[i], dest, pid, dests, taken);
      PlanGrows(staged, s, documents, base, dests, fs.dirs);
      TempsAppend(staged, s);
      staged := staged + [s];
      taken := taken + {s.temp};
      if !written {
        assert fs.files - taken == (fs.files - {s.temp}) - Temps(earlier);
        OverlayCleared(base, earlier, before, Temps(earlier));
        RemoveAll(fs, staged);
        return false, staged, taken;
      }
      OverlayAppend(base, earlier, s);
    }
    ok := true;
  }

  ghost predicate Intact(files: Files, replaced: seq<Replaced>, dests: set<Path>)
  {
    (forall i :: 0 <= i < |replaced| ==> replaced[i].dest in dests) &&
    (forall i :: 0 <= i < |replaced| && replaced[i].backup.Some? ==>
       replaced[i].backup.value in files && replaced[i].backup.value !in dests) &&
    (forall i, j :: 0 <= i < j < |replaced| && replaced[i].backup.Some? && replaced[j].backup.Some? ==>
       replaced[i].backup.value != replaced[j].backup.value)
  }

  /** Rollback, newest first. */
  method RollBack(fs: FileSystem, replaced: seq<Replaced>, ghost dests: set<Path>)
    requires Intact(fs.files, replaced, dests)
    modifies fs`files, fs`faults
    ensures fs.faults == old(fs.faults)
    ensures fs.files == Restored(old(fs.files), replaced)
  {
    var n := |replaced|;
    assert replaced[..n] == replaced;
    while n > 0
      invariant fs.faults == old(fs.faults)
      invariant 0 <= n <= |replaced|
      invariant Intact(fs.files, replaced[..n], dests)
      invariant Restored(fs.files, replaced[..n]) == Restored(old(fs.files), replaced)
    {
      var r := replaced[n - 1];
      ghost var current := replaced[..n];
      assert current[n - 1] == r && current[..n - 1] == replaced[..n - 1];
      if r.backup.Some? {
        var _ := fs.Replace(r.backup.value, r.dest, false);
      } else {
        fs.Unlink(r.dest);
      }
      n := n - 1;
    }
  }

  method DropBackups(fs: FileSystem, replaced: seq<Replaced>)
    modifies fs`files
    ensures fs.files == old(fs.files) - Backups(replaced)
  {
    for i := 0 to |replaced|
      invariant fs.files == old(fs.files) - Backups(replaced[..i])
    {
      if replaced[i].backup.Some? {
        fs.Unlink(replaced[i].backup.value);
      }
      AppendBackups(replaced[..i], replaced[i]);
      assert replaced[..i + 1] == replaced[..i] + [replaced[i]];
    }
    assert replaced[..|replaced|] == replaced;
  }

  /** The replace phase after `k` replacements: undoing it gives back the staged group, and, backups
      aside, the first `k` documents are in place. */
  ghost predicate Progress(files: Files, base: Files, staged: seq<Staged>, k: nat, replaced: seq<Replaced>,
                           dests: set<Path>, taken: set<Path>)
  {
    k <= |staged| && Intact(files, replaced, dests) &&
    Backups(replaced) <= taken && Backups(replaced) !! Temps(staged) && Temps(staged) <= taken &&
    Targets(replaced) <= dests && taken !! dests &&
    Restored(files, replaced) == Overlay(base, staged[k..]) &&
    files - Backups(replaced) == Overlay(Written(base, staged[..k]), staged[k..])
  }

  /** What one replacement may rely on. */
  ghost predicate Ready(staged: seq<Staged>, base: Files, dests: set<Path>)
  {
    Fresh(staged, base.Keys) && Temps(staged) !! base.Keys && Temps(staged) !! dests &&
    forall i :: 0 <= i < |staged| ==> staged[i].dest in dests
  }

  lemma {:induction false} WrittenKeys(base: Files, staged: seq<Staged>, dests: set<Path>)
    requires forall i :: 0 <= i < |staged| ==> staged[i].dest in dests
    ensures Written(base, staged).Keys <= base.Keys + dests
  {
    if staged != [] { WrittenKeys(base, staged[..|staged| - 1], dests); }
  }

  lemma PendingFacts(staged: seq<Staged>, k: nat, base: Files, dests: set<Path>)
    requires Ready(staged, base, dests) && k < |staged|
    ensures Fresh(staged[k..], base.Keys) && Fresh(staged[k..], Written(base, staged[..k]).Keys)
    ensures Temps(staged[k..]) <= Temps(staged) && staged[k].temp in Temps(staged) && staged[k].temp !in dests
  {
    var pending := staged[k..];
    TempsOf(staged, k);
    WrittenKeys(base, staged[..k], dests);
    forall i | 0 <= i < |pending| ensures pending[i].temp in Temps(staged) {
      assert pending[i] == staged[k + i];
    }
  }

  lemma PendingTemps(staged: seq<Staged>, k: nat)
    requires k <= |staged|
    ensures Temps(staged[k..]) <= Temps(staged)
  {
    forall p | p in Temps(staged[k..]) ensures p in Temps(staged) {
      var i :| 0 <= i < |staged[k..]| && staged[k..][i].temp == p;
      assert staged[k + i].temp == p;
    }
  }

  /** What the two moves of replacement `k` may rely on. */
  lemma MovesEnabled(files: Files, base: Files, staged: seq<Staged>, k: nat, replaced: seq<Replaced>,
                     dests: set<Path>, taken: set<Path>)
    requires Ready(staged, base, dests) && Progress(files, base, staged, k, replaced, dests, taken) && k < |staged|
    ensures staged[k].temp in files && staged[k].temp != staged[k].dest
    ensures staged[k].temp !in Backups(replaced) && staged[k].temp !in Targets(replaced)
    ensures staged[k].dest !in Temps(staged[k..]) && staged[k].dest !in Backups(replaced)
  {
    PendingFacts(staged, k, base, dests);
    OverlayHead(Written(base, staged[..k]), staged[k..]);
    assert staged[k..][0] == staged[k];
  }

  lemma IntactGrows(files: Files, next: Files, replaced: seq<Replaced>, r: Replaced, dests: set<Path>)
    requires Intact(files, replaced, dests) && r.dest in dests
    requires forall p :: p in Backups(replaced) ==> p in next
    requires r.backup.Some? ==> r.backup.value in next && r.backup.value !in dests && r.backup.value !in Backups(replaced)
    ensures Intact(next, replaced + [r], dests)
  {
    forall i | 0 <= i < |replaced| && replaced[i].backup.Some? ensures replaced[i].backup.value in Backups(replaced) {
    }
  }

  lemma ProgressStep(files: Files, base: Files, staged: seq<Staged>, k: nat, replaced: seq<Replaced>,
                     dests: set<Path>, taken: set<Path>, backup: Option<Path>)
    requires Ready(staged, base, dests) && Progress(files, base, staged, k, replaced, dests, taken) && k < |staged|
    requires backup.Some? <==> staged[k].dest in files
    requires backup.Some? ==> backup.value !in files && backup.value !in dests && backup.value !in taken
    ensures var s, r := staged[k], Replaced(backup, staged[k].dest);
      var aside := if backup.Some? then Moved(files, s.dest, backup.value) else files;
      s.temp in aside &&
      Intact(aside, replaced + [r], dests) &&
      Restored(aside, replaced + [r]) == Overlay(base, staged[k..]) &&
      Progress(Moved(aside, s.temp, s.dest), base, staged, k + 1, replaced + [r], dests,
               if backup.Some? then taken + {backup.value} else taken)
  {
    var s, r := staged[k], Replaced(backup, staged[k].dest);
    var aside := if backup.Some? then Moved(files, s.dest, backup.value) else files;
    var pending := staged[k..];
    assert pending[0] == s && pending[1..] == staged[k + 1..];
    MovesEnabled(files, base, staged, k, replaced, dests, taken);
    PendingFacts(staged, k, base, dests);
    MoveUndone(files, replaced, s, backup);
    MoveAdvances(files, Written(base, staged[..k]), replaced, pending, backup);
    OverlayHead(base, pending);
    AppendBackups(replaced, r);
    AppendTargets(replaced, r);
    assert staged[..k + 1][..k] == staged[..k];
    assert Written(base, staged[..k + 1]) == Written(base, staged[..k])[s.dest := s.data];
    forall p | p in Backups(replaced) ensures p in files {
      var i :| 0 <= i < |replaced| && replaced[i].backup.Some? && replaced[i].backup.value == p;
    }
    IntactGrows(files, aside, replaced, r, dests);
    IntactGrows(files, Moved(aside, s.temp, s.dest), replaced, r, dests);
  }

  /** Undo the replacements, drop the litter, and the group never happened. */
  method Abandon(fs: FileSystem, staged: seq<Staged>, replaced: seq<Replaced>, ghost k: nat,
                 ghost base: Files, ghost dests: set<Path>)
    requires Intact(fs.files, replaced, dests) && Ready(staged, base, dests) && k <= |staged|
    requires Restored(fs.files, replaced) == Overlay(base, staged[k..])
    modifies fs`files, fs`faults
    ensures fs.faults == old(fs.faults)
    ensures fs.files == base
  {
    RollBack(fs, replaced, dests);
    PendingTemps(staged, k);
    OverlayCleared(base, staged[k..], fs.files, Temps(staged));
    RemoveAll(fs, staged);
  }

  method ReplaceAll(fs: FileSystem, staged: seq<Staged>, pid: nat, dests: set<Path>, scratch: set<Path>, ghost base: Files)
    returns (ok: bool)
    requires Ready(staged, base, dests) && fs.files == Overlay(base, staged)
    requires scratch == Temps(staged)
    requires forall i :: 0 <= i < |staged| ==> staged[i].dest !in fs.dirs
    modifies fs`files, fs`faults
    ensures ok <==> fs.faults == old(fs.faults)
    ensures fs.files == if ok then Written(base, staged) else base
  {
    var taken, replaced := scratch, [];
    assert staged[0..] == staged && fs.files - Backups(replaced) == fs.files;
    for k := 0 to |staged|
      invariant Progress(fs.files, base, staged, k, replaced, dests, taken)
      invariant fs.faults == old(fs.faults)
    {
      var s := staged[k];
      ghost var files := fs.files;
      var backup: Option<Path> := None;
      MovesEnabled(files, base, staged, k, replaced, dests, taken);
      if fs.Exists(s.dest) {
        var aside := Scratch(fs, s.dest, "backup", pid, dests, taken);
        backup := Some(aside);
        ProgressStep(files, base, staged, k, replaced, dests, taken, backup);
        taken := taken + {aside};
        var moved := fs.Replace(s.dest, aside, true);
        if !moved {
          Abandon(fs, staged, replaced, k, base, dests);
          return false;
        }
      } else {
        ProgressStep(files, base, staged, k, replaced, dests, taken, backup);
      }
      replaced := replaced + [Replaced(backup, s.dest)];
      var placed := fs.Replace(s.temp, s.dest, true);
      if !placed {
        Abandon(fs, staged, replaced, k, base, dests);
        return false;
      }
    }
    assert staged[..|staged|] == staged;
    DropBackups(fs, replaced);
    ok := true;
  }

  // ---- the outcome in terms of the documents ----

  predicate AllFiles(documents: seq<Document>)
  {
    forall d :: d in documents ==> d.output.Some?
  }

  predicate AllStdout(documents: seq<Document>)
  {
    forall d :: d in documents ==> d.output.None?
  }

  function Exported(base: Files, documents: seq<Document>): Files
    requires AllFiles(documents)
  {
    if documents == [] then base
    else
      var last := documents[|documents| - 1];
      assert forall d :: d in documents[..|documents| - 1] ==> d in documents;
      Exported(base, documents[..|documents| - 1])[last.output.value := last.data]
  }

  function Printed(documents: seq<Document>): seq<string>
  {
    seq(|documents|, i requires 0 <= i < |documents| => documents[i].data)
  }

  function Lookup(files: Files, p: Path): Option<string>
  {
    if p in files then Some(files[p]) else None
  }

  /** The data of the last document that names `p`. */
  function LastFor(documents: seq<Document>, p: Path): Option<string>
  {
    if documents == [] then None
    else if documents[|documents| - 1].output == Some(p) then Some(documents[|documents| - 1].data)
    else LastFor(documents[..|documents| - 1], p)
  }

  /** A path holds the data of the last document naming it, and otherwise what it held before. */
  lemma {:induction false} ExportedMeans(base: Files, documents: seq<Document>, p: Path)
    requires AllFiles(documents)
    ensures Lookup(Exported(base, documents), p)
         == if LastFor(documents, p).Some? then LastFor(documents, p) else Lookup(base, p)
  {
    if documents != [] {
      var init := documents[..|documents| - 1];
      assert forall d :: d in init ==> d in documents;
      ExportedMeans(base, init, p);
    }
  }

  lemma {:induction false} WrittenIsExported(base: Files, staged: seq<Staged>, documents: seq<Document>)
    requires AllFiles(documents) && |staged| == |documents|
    requires forall i :: 0 <= i < |staged| ==> documents[i].output == Some(staged[i].dest) && staged[i].data == documents[i].data
    ensures Written(base, staged) == Exported(base, documents)
  {
    if staged != [] {
      var init := documents[..|documents| - 1];
      assert forall d :: d in init ==> d in documents;
      WrittenIsExported(base, staged[..|staged| - 1], init);
    }
  }

  /** `_write_group`: all of the group, or nothing of it; all of it, unless the outputs are mixed, one of them is a
      directory, or the system fails a step. */
  method WriteAll(fs: FileSystem, documents: seq<Document>, pid: nat) returns (ok: bool)
    modifies fs`files, fs`stdout, fs`faults
    ensures ok <==> fs.faults == old(fs.faults) && (AllFiles(documents) || AllStdout(documents)) &&
                    forall d :: d in documents && d.output.Some? ==> d.output.value !in fs.dirs
    ensures !ok ==> fs.files == old(fs.files) && fs.stdout == old(fs.stdout)
    ensures ok ==> AllFiles(documents) || AllStdout(documents)
    ensures ok && AllFiles(documents) ==> fs.files == Exported(old(fs.files), documents) && fs.stdout == old(fs.stdout)
    ensures ok && AllStdout(documents) ==> fs.stdout == old(fs.stdout) + Printed(documents) && fs.files == old(fs.files)
  {
    ghost var base := fs.files;
    if AllStdout(documents) {
      for i := 0 to |documents|
        invariant fs.stdout == old(fs.stdout) + Printed(documents)[..i] && fs.files == old(fs.files)
      invariant fs.faults == old(fs.faults)
      {
        fs.stdout := fs.stdout + [documents[i].data];
      }
      return true;
    }
    if !AllFiles(documents) {
      return false;
    }
    var dests := set i | 0 <= i < |documents| :: documents[i].output.value;
    forall d | d in documents ensures d.output.Some? && d.output.value in dests {
      var i :| 0 <= i < |documents| && documents[i] == d;
    }
    var staged, taken;
    ok, staged, taken := Stage(fs, documents, pid, dests);
    if !ok {
      return false;
    }
    ok := ReplaceAll(fs, staged, pid, dests, taken, base);
    WrittenIsExported(base, staged, documents);
  }
}
