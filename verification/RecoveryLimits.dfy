/** Where recovery ends: what happens without a checkpoint, when the drain ends
    too early and when the file number is read too late, each with the exact
    condition and with a run of the program that gets there. */
module RecoveryLimits {
  import opened Options
  import opened JournalRecords
  import opened Recovery
  import opened RecoverySafety

  /** Any list of steps the program can take, proper or not. */
  ghost predicate Taken(st: State, steps: seq<Step>, end: State)
    decreases |steps|
  {
    if steps == [] then st == end
    else Shaped(st) && Enabled(st, steps[0]) && Taken(Next(st, steps[0]), steps[1..], end)
  }

  lemma {:induction false} TakenConcat(a: State, s1: seq<Step>, b: State, s2: seq<Step>, c: State)
    requires Taken(a, s1, b) && Taken(b, s2, c)
    ensures Taken(a, s1 + s2, c)
    decreases |s1|
  {
    if s1 == [] {
      assert s1 + s2 == s2;
    } else {
      TakenConcat(Next(a, s1[0]), s1[1..], b, s2, c);
      assert (s1 + s2)[1..] == s1[1..] + s2;
    }
  }

  lemma {:induction false} RunsTaken(a: State, steps: seq<Step>, b: State)
    requires Runs(a, steps, b)
    ensures Taken(a, steps, b)
    decreases |steps|
  {
    if steps != [] {
      RunsTaken(Next(a, steps[0]), steps[1..], b);
    }
  }

  lemma TakenNone(st: State)
    ensures Taken(st, [], st) && Runs(st, [], st)
  {
  }

  lemma RunsFirst(st: State, step: Step, rest: seq<Step>, end: State)
    requires Shaped(st) && Enabled(st, step) && Proper(st, step) && Runs(Next(st, step), rest, end)
    ensures Runs(st, [step] + rest, end)
  {
    hide Next, Enabled, Proper;
    assert ([step] + rest)[1..] == rest;
  }

  lemma TakenFirst(st: State, step: Step, rest: seq<Step>, end: State)
    requires Shaped(st) && Enabled(st, step) && Taken(Next(st, step), rest, end)
    ensures Taken(st, [step] + rest, end)
  {
    hide Next, Enabled;
    assert ([step] + rest)[1..] == rest;
  }

  /** A crash now, whatever it leaves of the unsynced tail, loses nothing. */
  ghost predicate Survives(st: State) {
    Shaped(st) && forall n :: st.synced <= n <= |st.LastFile()| ==>
      Within(st.born, Cut(st.journal, n)) && Restores(Cut(st.journal, n), st.gone, st.cloud, st.born)
  }

  lemma {:induction false} JournaledSeen(recs: seq<Rec>, k: nat)
    requires k < |recs| && recs[k].Inode?
    ensures recs[k].inum in Last(recs)
    decreases |recs|
  {
    var n := |recs| - 1;
    if k < n {
      JournaledSeen(recs[..n], k);
    }
  }

  // ------------------------------------------------ no checkpoint yet

  /** A file system that crashes before its first checkpoint starts over: the
      journal is not consulted. */
  lemma CrashBeforeFirstCheckpoint(root: Version)
    ensures !Restores(Init(root).journal, {}, None, START)
  {
    FreshVersions([], root);
    assert [] + [[Inode(ROOT, root)]] == Init(root).journal;
    hide Last, From;
    assert ROOT in Last(From(Init(root).journal, START));
  }

  // ------------------------------------------------ the file number, read late

  /** The files numbered below `s`. */
  function Below(s: nat): (r: set<nat>)
    ensures forall f :: f in r <==> 0 <= f < s
  {
    if s == 0 then {} else Below(s - 1) + {s - 1}
  }

  /** The scan for a commit record looks only at the files from `s` on. */
  lemma {:induction false} FoundAbove(j: Journal, s: nat, gone: set<nat>)
    requires FindCommit(j, Below(s)) != START && gone <= Below(s)
    ensures FindCommit(j, gone) == FindCommit(j, Below(s))
    decreases |j|
  {
    var n := |j| - 1;
    if n in Below(s) {
      NothingAbove(j, s);
      assert false;
    }
    var found := LastCommit(j[n]);
    if !(found.Some? && found.value != START) {
      FoundAbove(j[..n], s, gone);
    }
  }

  lemma {:induction false} NothingAbove(j: Journal, s: nat)
    requires |j| <= s
    ensures FindCommit(j, Below(s)) == START
    decreases |j|
  {
    if j != [] {
      NothingAbove(j[..|j| - 1], s);
    }
  }

  lemma FindCommitPush(j: Journal, r: Rec, gone: set<nat>)
    requires j != []
    ensures !r.Commit? ==> FindCommit(Push(j, r), gone) == FindCommit(j, gone)
    ensures r.Commit? && r.point != START && |j| - 1 !in gone ==> FindCommit(Push(j, r), gone) == r.point
  {
    var n := |j| - 1;
    assert Push(j, r)[..n] == j[..n];
    CommitOfConcat(j[n], [r]);
    assert [r][..0] == [];
  }

  lemma FindCommitNewFile(j: Journal, gone: set<nat>)
    ensures FindCommit(j + [[]], gone) == FindCommit(j, gone)
  {
    assert (j + [[]])[..|j|] == j;
  }

  /** Commit points lie before the end of the journal. */
  lemma {:induction false} PointSeg(j: Journal)
    requires j != [] && forall f, k :: 0 <= f < |j| && 0 <= k < |j[f]| && j[f][k].Commit? ==> j[f][k].point.seg <= f
    ensures PointOf(j).seg < |j|
    decreases |j|
  {
    var n := |j| - 1;
    AllOfPrefix(j);
    CommitOfConcat(All(j[..n]), j[n]);
    if LastCommit(j[n]).Some? {
      var k := LastCommitMember(j[n]);
    } else if n > 0 {
      PointSeg(j[..n]);
    } else {
      assert All(j[..n]) == [];
    }
  }

  lemma PointBeforeEnd(j: Journal)
    requires j != [] && CommitsBackward(j) && |j[0]| > 0
    ensures PointOf(j) != End(j)
  {
    var n := |j| - 1;
    AllOfPrefix(j);
    CommitOfConcat(All(j[..n]), j[n]);
    if LastCommit(j[n]).Some? {
      var k := LastCommitMember(j[n]);
      assert AtOrBefore(j[n][k].point, Pos(n, k));
    } else if n > 0 {
      PointSeg(j[..n]);
    } else {
      assert All(j[..n]) == [];
    }
  }

  /** Up to the commit record the commit point is an older one than the marker;
      the commit record goes to a file from `seqStart` on. */
  ghost predicate SequenceOk(st: State)
    requires Shaped(st)
  {
    match st.pass
    case Idle => true
    case Marking(mark) => st.Point() != mark && AtOrBefore(st.born, mark)
    case Committing(mark, s) =>
      && AtOrBefore(st.born, mark)
      && forall n :: st.synced <= n <= |st.LastFile()| && PointOf(Cut(st.journal, n)) == mark ==>
           FindCommit(Cut(st.journal, n), Below(s)) == mark
    case _ => st.Point() != st.pass.mark && AtOrBefore(st.born, st.pass.mark) && st.pass.seqStart < |st.journal|
  }

  /** The invariant of the flush protocol, and where its commit records go. */
  ghost predicate Sequenced(st: State) {
    Inv(st) && SequenceOk(st)
  }

  lemma SequencePush(st: State, st': State, r: Rec)
    requires Sequenced(st) && !r.Commit?
    requires st'.journal == Push(st.journal, r) && st'.synced == st.synced && st'.pass == st.pass && st'.born == st.born
    ensures Shaped(st') && SequenceOk(st')
  {
    hide Last, From, PointOf, LastCommit, Covered, Placed, Safe, TailInFlight, Accounted, Queued, FindCommit, PassOk;
    var j, last := st.journal, |st.LastFile()|;
    CutPushed(j, r, st.synced);
    if st.pass.Committing? {
      forall n | st.synced <= n <= last + 1 && PointOf(Cut(st'.journal, n)) == st.pass.mark
        ensures FindCommit(Cut(st'.journal, n), Below(st.pass.seqStart)) == st.pass.mark
      {
        if n <= last {
          CutPushed(j, r, n);
        } else {
          CutPushed(j, r, last);
          CutWhole(j);
          PointOfPush(j, r);
          FindCommitPush(j, r, Below(st.pass.seqStart));
        }
      }
    }
  }

  lemma SequenceFsync(st: State)
    requires Sequenced(st)
    ensures Shaped(AfterFsync(st)) && SequenceOk(AfterFsync(st))
  {
    hide Last, From, PointOf, LastCommit, Covered, Placed, Safe, TailInFlight, Accounted, Queued, FindCommit;
    CutWhole(st.journal);
    PointWhenSynced(st);
  }

  lemma SequenceNewFile(st: State)
    requires Sequenced(st) && st.synced == |st.LastFile()|
    ensures var st' := st.(journal := st.journal + [[]], synced := 0);
      Shaped(st') && SequenceOk(st')
  {
    hide Last, From, PointOf, LastCommit, Covered, Safe, TailInFlight, Accounted, Queued, FindCommit, PassOk;
    CutWhole(st.journal);
    SeenFromNewFile(st.journal, st.born);
    if st.pass.Committing? {
      FindCommitNewFile(st.journal, Below(st.pass.seqStart));
    }
  }

  lemma SequenceRotate(st: State)
    requires Sequenced(st)
    ensures Shaped(AfterRotate(st)) && SequenceOk(AfterRotate(st))
  {
    hide Last, From, PointOf, LastCommit, Covered, Placed, Safe, TailInFlight, Accounted, Queued, FindCommit, PassOk;
    SequenceFsync(st);
    KeepsFsync(st);
    SequenceNewFile(AfterFsync(st));
  }

  lemma SequenceBegin(st: State)
    requires Sequenced(st) && st.pass.Idle?
    ensures Shaped(AfterBeginPass(st)) && SequenceOk(AfterBeginPass(st))
  {
    hide Last, From, PointOf, LastCommit, Covered, Safe, TailInFlight, Accounted, Queued, FindCommit, CommitsBackward;
    PointWhenSynced(st);
    PointBeforeEnd(st.journal);
    PointOfPush(st.journal, Marker);
    CutWhole(Push(st.journal, Marker));
  }

  lemma SequenceCommit(st: State)
    requires Sequenced(st) && st.pass.Published?
    ensures Shaped(AfterWriteCommit(st)) && SequenceOk(AfterWriteCommit(st))
  {
    hide Last, From, PointOf, LastCommit, Covered, Safe, TailInFlight, Accounted, Queued, FindCommit, CommitsBackward;
    var j, r, last := st.journal, Commit(st.pass.mark), |st.LastFile()|;
    CommitCuts(st);
    CutPushed(j, r, last);
    FindCommitPush(j, r, Below(st.pass.seqStart));
  }

  lemma SequenceKeeps(st: State, step: Step)
    requires Sequenced(st) && Enabled(st, step) && Proper(st, step)
    ensures Sequenced(Next(st, step))
  {
    hide Last, From, PointOf, LastCommit, Placed, Safe, TailInFlight, Accounted, Queued, FindCommit, PassOk, Covered;
    StepKeeps(st, step);
    match step
    case Write(i, v) => SequencePush(st, AfterWrite(st, i, v), Inode(i, v));
    case Fsync => SequenceFsync(st);
    case Rotate => SequenceRotate(st);
    case BeginPass => SequenceBegin(st);
    case WriteCommit => SequenceCommit(st);
    case _ =>
  }

  lemma {:induction false} SequenceRun(st: State, steps: seq<Step>, end: State)
    requires Sequenced(st) && Runs(st, steps, end)
    ensures Sequenced(end) && (st.cloud.Some? ==> end.cloud.Some?)
    decreases |steps|
  {
    hide Sequenced;
    if steps != [] {
      assert Shaped(st) && Enabled(st, steps[0]) && Proper(st, steps[0]);
      SequenceKeeps(st, steps[0]);
      CloudStays(st, steps[0]);
      hide Next, Enabled, Proper;
      SequenceRun(Next(st, steps[0]), steps[1..], end);
    }
  }

  lemma CloudStays(st: State, step: Step)
    requires Shaped(st) && Enabled(st, step)
    ensures st.cloud.Some? ==> Next(st, step).cloud.Some?
  {
  }

  lemma {:induction false} Unused(used: set<nat>) returns (i: nat)
    ensures i !in used && forall k :: k in used ==> k < i
    decreases |used|
  {
    if used == {} {
      i := 0;
    } else {
      var x :| x in used;
      var j := Unused(used - {x});
      i := if j <= x then x + 1 else j;
      assert forall k :: k in used ==> k == x || k in used - {x};
    }
  }

  /** Replay from a missing file reads nothing. */
  lemma MissingStart(j: Journal, gone: set<nat>, p: Pos)
    requires Within(p, j) && p.seg in gone
    ensures ReplayFrom(j, gone, p) == [] && Last(ReplayFrom(j, gone, p)) == map[]
  {
  }

  /** With the marker's file gone, a version the cloud does not have is lost. */
  lemma PointDeleted(j: Journal, gone: set<nat>, born: Pos, cloud: Versions, mark: Pos, s: nat, r: Rec)
    requires j != [] && Within(mark, j) && Within(born, j) && mark != START && FindCommit(j, Below(s)) == mark
    requires gone <= Below(s) && mark.seg in gone
    requires r.Inode? && (r.inum in cloud ==> cloud[r.inum] != r.version)
    ensures Within(born, Push(j, r)) && !Restores(Push(j, r), gone, Some(cloud), born)
  {
    hide Last, From, FindCommit, ReplayFrom;
    FindCommitPush(j, r, Below(s));
    FoundAbove(Push(j, r), s, gone);
    LastOfPush(j, r, born);
    LastOfPush(j, r, mark);
    MissingStart(Push(j, r), gone, mark);
    assert Recover(Push(j, r), gone, Some(cloud)) == cloud;
    assert r.inum in Last(From(Push(j, r), born));
  }

  /** The end of a pass that read the file number too late, before the next
      crash: one more sync and the deletion of the marker's file lose it. */
  lemma LateSequenceLoses(st: State) returns (steps: seq<Step>, end: State)
    requires Sequenced(st) && Enabled(st, EndPass) && st.cloud.Some? && st.pass.seqStart > st.pass.mark.seg
    ensures Runs(AfterEndPass(st), steps, end) && !Survives(end)
  {
    hide Last, From, PointOf, Inv, SequenceOk, FindCommit, Runs, Restores, AllDurable;
    PointOfLate(st);
    var mark, s := st.pass.mark, st.pass.seqStart;
    var i := Unused(st.inflight.Keys);
    var v := if i in st.cloud.value then st.cloud.value[i] + 1 else 0;
    var st1 := AfterEndPass(st);
    end := AfterCollect(AfterFsync(AfterWrite(st1, i, v)), mark.seg);
    steps := [Write(i, v)] + ([Fsync] + ([Collect(mark.seg)] + []));
    LateRun(st1, i, v, mark.seg);
    PointDeleted(st.journal, end.gone, st.born, st.cloud.value, mark, s, Inode(i, v));
    CutWhole(end.journal);
    NotSurviving(end);
  }

  lemma NotSurviving(st: State)
    requires st.journal != [] && st.synced == |st.LastFile()| && Within(st.born, st.journal)
    requires !Restores(st.journal, st.gone, st.cloud, st.born)
    ensures !Survives(st)
  {
    hide Restores;
    CutWhole(st.journal);
    assert Cut(st.journal, st.synced) == st.journal;
  }

  lemma LateRun(st: State, i: Inum, v: Version, f: nat)
    requires Shaped(st) && i !in st.inflight && f < st.watermark
    ensures Runs(st, [Write(i, v)] + ([Fsync] + ([Collect(f)] + [])), AfterCollect(AfterFsync(AfterWrite(st, i, v)), f))
  {
    var st2 := AfterWrite(st, i, v);
    var st3 := AfterFsync(st2);
    var end := AfterCollect(st3, f);
    RunsFirst(st3, Collect(f), [], end);
    RunsFirst(st2, Fsync, [Collect(f)] + [], end);
    RunsFirst(st, Write(i, v), [Fsync] + ([Collect(f)] + []), end);
  }

  lemma PointOfLate(st: State)
    requires Sequenced(st) && Enabled(st, EndPass)
    ensures FindCommit(st.journal, Below(st.pass.seqStart)) == st.pass.mark && st.pass.mark != START
    ensures Shaped(st) && Within(st.pass.mark, st.journal) && Within(st.born, st.journal)
    ensures forall f :: f in st.gone ==> f < st.pass.mark.seg
    ensures forall n :: st.synced <= n <= |st.LastFile()| ==> PointOf(Cut(st.journal, n)) == st.pass.mark
  {
    hide Last, From, PointOf, LastCommit, Covered, Safe, TailInFlight, Accounted, Queued, FindCommit, CommitsBackward;
    CutWhole(st.journal);
    PointWhenSynced(st);
    assert PointOf(Cut(st.journal, |st.LastFile()|)) == st.pass.mark;
  }

  /** A pass may end, whatever follows, exactly when its file number was read
      while the log was still in the marker's file. */
  lemma LateSequenceExact(st: State)
    requires Sequenced(st) && Enabled(st, EndPass) && st.cloud.Some?
    ensures (forall steps, end :: Runs(AfterEndPass(st), steps, end) ==> Survives(end))
       <==> st.pass.seqStart <= st.pass.mark.seg
  {
    hide Runs, Survives, Sequenced;
    if st.pass.seqStart <= st.pass.mark.seg {
      SequenceKeeps(st, EndPass);
      forall steps, end | Runs(AfterEndPass(st), steps, end)
        ensures Survives(end)
      {
        SequenceRun(AfterEndPass(st), steps, end);
        SurvivesInv(end);
      }
    } else {
      var steps, end := LateSequenceLoses(st);
    }
  }

  lemma SurvivesInv(st: State)
    requires Sequenced(st) && st.cloud.Some?
    ensures Survives(st)
  {
    hide Inv, Survives, SequenceOk;
    CheckpointSurvives(st);
  }

  // ------------------------------------------------ which deletions lose

  /** Every version journaled from the marker on is in the cloud, and none of
      the files that may be missing ends with an older one. */
  ghost predicate UpToDate(j: Journal, mark: Pos, s: nat, cloud: Versions)
    requires Within(mark, j)
  {
    && Agrees(Last(From(j, mark)), cloud)
    && forall m :: mark.seg < m < s ==> Agrees(Last(ReplayFrom(j, {m}, mark)), Last(From(j, mark)))
  }

  /** What `m` says, `m'` says. */
  ghost predicate Agrees(m: Versions, m': Versions) {
    forall i :: i in m ==> i in m' && m'[i] == m[i]
  }

  /** Replay stops at the first missing file. */
  lemma {:induction false} FirstMissing(j: Journal, gone: set<nat>, p: Pos) returns (m: nat)
    requires p.seg < |j| ==> p.idx <= |j[p.seg]|
    ensures ReplayFrom(j, gone, p) == ReplayFrom(j, {m}, p)
    ensures m >= p.seg && (m in gone || m >= |j|)
    decreases |j| - p.seg
  {
    if p.seg >= |j| || p.seg in gone {
      m := p.seg;
    } else {
      m := FirstMissing(j, gone, Pos(p.seg + 1, 0));
    }
  }

  lemma {:induction false} ReplayPrefix(j: Journal, m: nat, p: Pos) returns (rest: seq<Rec>)
    requires p.seg < |j| ==> p.idx <= |j[p.seg]|
    ensures From(j, p) == ReplayFrom(j, {m}, p) + rest
    decreases |j| - p.seg
  {
    if p.seg >= |j| || p.seg == m {
      rest := From(j, p);
    } else {
      rest := ReplayPrefix(j, m, Pos(p.seg + 1, 0));
    }
  }

  lemma {:induction false} ReplayAll(j: Journal, m: nat, p: Pos)
    requires (p.seg < |j| ==> p.idx <= |j[p.seg]|) && m >= |j|
    ensures ReplayFrom(j, {m}, p) == From(j, p)
    decreases |j| - p.seg
  {
    if p.seg < |j| {
      ReplayAll(j, m, Pos(p.seg + 1, 0));
    }
  }

  lemma {:induction false} ReplayIgnores(j: Journal, gone: set<nat>, m: nat, p: Pos)
    requires (p.seg < |j| ==> p.idx <= |j[p.seg]|) && forall f :: f in gone ==> f < p.seg
    ensures ReplayFrom(j, gone + {m}, p) == ReplayFrom(j, {m}, p)
    decreases |j| - p.seg
  {
    if p.seg < |j| {
      ReplayIgnores(j, gone, m, Pos(p.seg + 1, 0));
    }
  }

  /** A disk whose commit point is `mark`, with the commit record in a file from
      `s` on. */
  ghost predicate PassDone(j: Journal, born: Pos, mark: Pos, s: nat, cloud: Versions, gone: set<nat>) {
    && Covered(j, born, mark, cloud) && AtOrBefore(born, mark) && mark != START
    && CommitsBackward(j) && PointOf(j) == mark && FindCommit(j, Below(s)) == mark
    && forall f :: f in gone ==> f < mark.seg
  }

  lemma ScanStill(j: Journal, born: Pos, mark: Pos, s: nat, cloud: Versions, gone: set<nat>, g: set<nat>)
    requires PassDone(j, born, mark, s, cloud, gone) && g <= Below(s)
    ensures FindCommit(j, gone + g) == mark
  {
    hide PointOf, FindCommit, Covered;
    if s <= mark.seg {
      FindsLastCommit(j, gone + g);
    } else {
      FoundAbove(j, s, gone + g);
    }
  }

  /** What replaying the prefix before file `m` over the cloud gives. */
  lemma Recovered(j: Journal, gone: set<nat>, cloud: Versions, mark: Pos, m: nat)
    requires Within(mark, j) && FindCommit(j, gone) == mark && ReplayFrom(j, gone, mark) == ReplayFrom(j, {m}, mark)
    ensures Recover(j, gone, Some(cloud)) == cloud + Last(ReplayFrom(j, {m}, mark))
  {
    hide Last, ReplayFrom, FindCommit;
  }

  lemma DeletionKeeps(j: Journal, born: Pos, mark: Pos, s: nat, cloud: Versions, gone: set<nat>, g: set<nat>)
    requires PassDone(j, born, mark, s, cloud, gone) && g <= Below(s)
    requires s <= mark.seg || UpToDate(j, mark, s, cloud)
    ensures Restores(j, gone + g, Some(cloud), born)
  {
    hide Last, From, PointOf, FindCommit, ReplayFrom, CommitsBackward, Recover;
    ScanStill(j, born, mark, s, cloud, gone, g);
    var m := FirstMissing(j, gone + g, mark);
    Recovered(j, gone + g, cloud, mark, m);
    LastFromLater(j, born, mark);
    if m >= |j| {
      ReplayAll(j, m, mark);
    } else if m == mark.seg {
      MissingStart(j, {m}, mark);
    }
  }

  lemma DeletionNeeds(j: Journal, born: Pos, mark: Pos, s: nat, cloud: Versions, gone: set<nat>)
    requires PassDone(j, born, mark, s, cloud, gone) && mark.seg < s
    requires forall m :: mark.seg <= m < s ==> Restores(j, gone + {m}, Some(cloud), born)
    ensures UpToDate(j, mark, s, cloud)
  {
    hide Last, From, PointOf, FindCommit, ReplayFrom, CommitsBackward, Recover;
    forall m | mark.seg <= m < s
      ensures m == mark.seg ==> Agrees(Last(From(j, mark)), cloud)
      ensures Agrees(Last(ReplayFrom(j, {m}, mark)), Last(From(j, mark)))
    {
      PrefixAgrees(j, born, mark, s, cloud, gone, m);
    }
    PrefixAgrees(j, born, mark, s, cloud, gone, mark.seg);
  }

  lemma PrefixAgrees(j: Journal, born: Pos, mark: Pos, s: nat, cloud: Versions, gone: set<nat>, m: nat)
    requires PassDone(j, born, mark, s, cloud, gone) && mark.seg <= m < s
    requires Restores(j, gone + {m}, Some(cloud), born)
    ensures m == mark.seg ==> Agrees(Last(From(j, mark)), cloud)
    ensures Agrees(Last(ReplayFrom(j, {m}, mark)), Last(From(j, mark)))
  {
    hide Last, From, PointOf, FindCommit, ReplayFrom, CommitsBackward, Recover;
    ScanStill(j, born, mark, s, cloud, gone, {m});
    ReplayIgnores(j, gone, m, mark);
    Recovered(j, gone + {m}, cloud, mark, m);
    LastFromLater(j, born, mark);
    var rest := ReplayPrefix(j, m, mark);
    LastOfConcat(ReplayFrom(j, {m}, mark), rest);
    if m == mark.seg {
      MissingStart(j, {m}, mark);
    }
  }

  lemma LateFacts(st: State, n: nat)
    requires Sequenced(st) && Enabled(st, EndPass) && st.cloud.Some? && st.synced <= n <= |st.LastFile()|
    ensures PassDone(Cut(st.journal, n), st.born, st.pass.mark, st.pass.seqStart, st.cloud.value, st.gone)
  {
    hide Last, From, PointOf, LastCommit, Covered, TailInFlight, Accounted, Queued, FindCommit, CommitsBackward;
    PointOfLate(st);
    PointAfterCrash(st, n);
    CommitsBackwardCut(st.journal, n);
  }

  /** Any of the files below `s` may go. */
  ghost predicate Dispensable(j: Journal, s: nat, gone: set<nat>, cloud: Versions, born: Pos) {
    Within(born, j) && forall g :: g <= Below(s) ==> Restores(j, gone + g, Some(cloud), born)
  }

  /** At the end of a pass, whatever part of the unsynced tail survives: every
      set of files below the number read may be deleted exactly when that number
      is not past the marker's file, or when everything from the marker on is up
      to date without them. */
  lemma LateDeletionExact(st: State, n: nat)
    requires Shaped(st) && st.pass.Committing? && st.cloud.Some? && st.synced <= n <= |st.LastFile()|
    requires Sequenced(st) && Enabled(st, EndPass)
    ensures Within(st.pass.mark, Cut(st.journal, n))
    ensures Dispensable(Cut(st.journal, n), st.pass.seqStart, st.gone, st.cloud.value, st.born)
       <==> (st.pass.seqStart <= st.pass.mark.seg
             || UpToDate(Cut(st.journal, n), st.pass.mark, st.pass.seqStart, st.cloud.value))
  {
    hide Last, From, PointOf, LastCommit, Placed, Safe, TailInFlight, Accounted, Queued, FindCommit, ReplayFrom, PassOk,
      Restores, UpToDate, SequenceOk, Recover;
    LateFacts(st, n);
    DispensableExact(Cut(st.journal, n), st.born, st.pass.mark, st.pass.seqStart, st.cloud.value, st.gone);
  }

  lemma DispensableExact(j: Journal, born: Pos, mark: Pos, s: nat, cloud: Versions, gone: set<nat>)
    requires PassDone(j, born, mark, s, cloud, gone)
    ensures Within(mark, j)
    ensures Dispensable(j, s, gone, cloud, born) <==> (s <= mark.seg || UpToDate(j, mark, s, cloud))
  {
    hide Last, From, PointOf, FindCommit, ReplayFrom, Restores, UpToDate, Recover;
    if s <= mark.seg || UpToDate(j, mark, s, cloud) {
      forall g | g <= Below(s)
        ensures Restores(j, gone + g, Some(cloud), born)
      {
        DeletionKeeps(j, born, mark, s, cloud, gone, g);
      }
    }
    if mark.seg < s && Dispensable(j, s, gone, cloud, born) {
      forall m | mark.seg <= m < s
        ensures Restores(j, gone + {m}, Some(cloud), born)
      {
        assert {m} <= Below(s);
      }
      DeletionNeeds(j, born, mark, s, cloud, gone);
    }
  }

  // ------------------------------------------------ a run that gets there

  lemma {:induction false} RunsConcat(a: State, s1: seq<Step>, b: State, s2: seq<Step>, c: State)
    requires Runs(a, s1, b) && Runs(b, s2, c)
    ensures Runs(a, s1 + s2, c)
    decreases |s1|
  {
    if s1 == [] {
      assert s1 + s2 == s2;
    } else {
      RunsConcat(Next(a, s1[0]), s1[1..], b, s2, c);
      assert (s1 + s2)[1..] == s1[1..] + s2;
    }
  }

  lemma Emptied(k: Inum, v: Version)
    ensures map[k := v] - {k} == map[]
  {
  }

  /** The log moves on between the marker and the reading of the file number. */
  const LATE_START: seq<Step> := [BeginPass] + ([Rotate] + ([ReadSequence] + []))

  lemma LateStart(root: Version) returns (st: State)
    ensures Runs(Init(root), LATE_START, st) && Shaped(st)
    ensures st.pass == Draining(Pos(0, 1), 1, map[]) && st.dirty == map[ROOT := root] && st.inflight == map[]
  {
    hide Last, From, PointOf;
    var s0 := Init(root);
    var s1 := AfterBeginPass(s0);
    var s2 := AfterRotate(s1);
    st := AfterReadSequence(s2);
    assert s1.inflight == map[] && s2.inflight == map[];
    hide Runs;
    TakenNone(st);
    RunsFirst(s2, ReadSequence, [], st);
    RunsFirst(s1, Rotate, [ReadSequence] + [], st);
    RunsFirst(s0, BeginPass, [Rotate] + ([ReadSequence] + []), st);
  }

  function ThroughSteps(i: Inum): (steps: seq<Step>) {
    [DrainOne(i)] + ([EndDrain] + ([Publish] + ([WriteCommit] + ([Fsync] + []))))
  }

  /** A pass with one dirty inode and no sync in progress goes through. */
  lemma PassThrough(st: State, i: Inum, v: Version) returns (end: State)
    requires Inv(st) && st.pass.Draining? && st.dirty == map[i := v] && st.inflight == map[]
    ensures Runs(st, ThroughSteps(i), end) && Shaped(end) && end.synced == |end.LastFile()|
    ensures end.pass == Committing(st.pass.mark, st.pass.seqStart) && end.cloud.Some?
  {
    hide Last, From, PointOf, Runs, Inv;
    MarkWithin(st);
    Emptied(i, v);
    var s1 := AfterDrainOne(st, i);
    var s2 := AfterEndDrain(s1);
    var s3 := AfterPublish(s2);
    var s4 := AfterWriteCommit(s3);
    end := AfterFsync(s4);
    TakenNone(end);
    RunsFirst(s4, Fsync, [], end);
    RunsFirst(s3, WriteCommit, [Fsync] + [], end);
    RunsFirst(s2, Publish, [WriteCommit] + ([Fsync] + []), end);
    RunsFirst(s1, EndDrain, [Publish] + ([WriteCommit] + ([Fsync] + [])), end);
    RunsFirst(st, DrainOne(i), [EndDrain] + ([Publish] + ([WriteCommit] + ([Fsync] + []))), end);
  }

  lemma MarkWithin(st: State)
    requires Inv(st) && st.pass.Draining?
    ensures Shaped(st) && Within(st.pass.mark, st.journal)
  {
    hide Last, From, PointOf, LastCommit, CommitsBackward, Safe, TailInFlight, Accounted, Queued;
    DurableKeys(st, st.pass.mark);
  }

  lemma LateReached(root: Version) returns (st: State)
    ensures Runs(Init(root), LATE_START + ThroughSteps(ROOT), st)
    ensures Shaped(st) && Sequenced(st) && Enabled(st, EndPass) && st.cloud.Some?
    ensures st.pass == Committing(Pos(0, 1), 1)
  {
    hide Runs, Inv, SequenceOk, PointOf;
    var mid := LateStart(root);
    InitHolds(root);
    InitSequenced(root);
    SequenceRun(Init(root), LATE_START, mid);
    st := PassThrough(mid, ROOT, root);
    SequenceRun(mid, ThroughSteps(ROOT), st);
    RunsConcat(Init(root), LATE_START, mid, ThroughSteps(ROOT), st);
    PointWhenSynced(st);
    CutWhole(st.journal);
  }

  lemma InitSequenced(root: Version)
    requires Inv(Init(root))
    ensures Sequenced(Init(root))
  {
  }

  /** From a new file system: the file number is read after the log has moved on,
      the marker's file is deleted, and the next synced inode is lost. */
  lemma LateSequenceNumberLoses(root: Version) returns (steps: seq<Step>, end: State)
    ensures Taken(Init(root), steps, end) && !Survives(end)
  {
    hide Runs, Taken, Survives, Sequenced;
    var st := LateReached(root);
    var first := LATE_START + ThroughSteps(ROOT);
    var more, last := LateSequenceLoses(st);
    RunsTaken(Init(root), first, st);
    RunsTaken(AfterEndPass(st), more, last);
    TakenFirst(st, EndPass, more, last);
    TakenConcat(Init(root), first, st, [EndPass] + more, last);
    steps, end := first + ([EndPass] + more), last;
  }

  // ------------------------------------------------ the drain, ended early

  /** Once the dirty list is empty, the marker is a good commit point exactly
      when no sync from before it is still in progress with a version the cloud
      will not hold. */
  lemma DrainExact(st: State)
    requires Inv(st) && st.pass.Draining? && st.dirty == map[]
    ensures Within(st.pass.mark, st.journal)
    ensures Covered(st.journal, st.born, st.pass.mark, st.View()) <==> Proper(st, EndDrain)
  {
    hide Last, From, PointOf, LastCommit, CommitsBackward, Safe, TailInFlight;
    DurableKeys(st, st.pass.mark);
  }

  const DRAIN_STEPS: seq<Step> := [Publish] + ([WriteCommit] + ([Fsync] + []))

  /** If one is, ending the drain loses it: the pass goes through and the commit
      point lies behind its record. */
  lemma UnfinishedSyncLoses(st: State, i: Inum) returns (end: State)
    requires Inv(st) && Enabled(st, EndDrain) && i in st.inflight
    requires Within(st.pass.mark, st.journal) && i !in st.Since(st.pass.mark)
    requires !Held(st.View(), i, st.inflight[i].version)
    ensures Runs(AfterEndDrain(st), DRAIN_STEPS, end) && !Survives(end)
    ensures end.cloud == AfterPublish(AfterEndDrain(st)).cloud
  {
    hide Last, From, PointOf, LastCommit, FindCommit, Safe, TailInFlight, Accounted, CommitsBackward, Runs, Restores;
    var s1 := AfterEndDrain(st);
    var s2 := AfterPublish(s1);
    var s3 := AfterWriteCommit(s2);
    end := AfterFsync(s3);
    DrainRun(s1, s2, s3, end);
    var r := Commit(st.pass.mark);
    assert i in st.Now() && st.Now()[i] == st.inflight[i].version;
    BehindCommit(st.journal, st.gone, st.born, end.cloud, st.pass.mark, i, st.inflight[i].version);
    NotSurviving(end);
  }

  /** A drain may end, whatever follows, exactly when every sync from before the
      marker that is still in progress has its version on the way to the cloud. */
  lemma EndDrainExact(st: State)
    requires Inv(st) && Enabled(st, EndDrain) && AfterPublish(AfterEndDrain(st)).cloud.Some?
    ensures Proper(st, EndDrain) <==>
      forall steps, end :: Runs(AfterEndDrain(st), steps, end) && end.cloud.Some? ==> Survives(end)
  {
    assert Shaped(st);
    hide Runs, Survives, Inv, AfterPublish;
    MarkWithinJournal(st);
    if Proper(st, EndDrain) {
      StepKeeps(st, EndDrain);
      forall steps, end | Runs(AfterEndDrain(st), steps, end) && end.cloud.Some?
        ensures Survives(end)
      {
        RunKeeps(AfterEndDrain(st), steps, end);
        CheckpointSurvives(end);
      }
    } else {
      var i :| i in st.inflight && i !in Last(From(st.journal, st.pass.mark))
        && !Held(st.View(), i, st.inflight[i].version);
      var end := UnfinishedSyncLoses(st, i);
    }
  }

  lemma MarkWithinJournal(st: State)
    requires Inv(st) && st.pass.Draining?
    ensures Within(st.pass.mark, st.journal)
  {
    hide Last, From, PointOf, LastCommit, CommitsBackward, Safe, TailInFlight, Covered, Accounted, Queued;
    DurableKeys(st, st.pass.mark);
  }

  lemma CheckpointSurvives(st: State)
    requires Inv(st) && st.cloud.Some?
    ensures Survives(st)
  {
    hide Restores, Last, From, PointOf, Placed, Safe, PassOk, Accounted, Queued, TailInFlight;
    forall n | st.synced <= n <= |st.LastFile()|
      ensures Within(st.born, Cut(st.journal, n)) && Restores(Cut(st.journal, n), st.gone, st.cloud, st.born)
    {
      RecoveryExact(st, n);
    }
  }

  /** A version from before the commit point that the cloud does not have. */
  lemma BehindCommit(j: Journal, gone: set<nat>, born: Pos, cloud: Option<Versions>, mark: Pos, i: Inum, v: Version)
    requires j != [] && Within(mark, j) && Within(born, j) && mark != START
    requires forall f :: f in gone ==> f < mark.seg
    requires i in Last(From(j, born)) && Last(From(j, born))[i] == v && i !in Last(From(j, mark))
    requires cloud.Some? && i in cloud.value ==> cloud.value[i] != v
    ensures Within(born, Push(j, Commit(mark))) && !Restores(Push(j, Commit(mark)), gone, cloud, born)
  {
    hide Last, From, FindCommit, ReplayFrom;
    var j' := Push(j, Commit(mark));
    FindCommitPush(j, Commit(mark), gone);
    LastOfPush(j, Commit(mark), born);
    LastOfPush(j, Commit(mark), mark);
    ReplayWhole(j', gone, mark);
  }

  lemma DrainRun(s1: State, s2: State, s3: State, s4: State)
    requires Shaped(s1) && Enabled(s1, Publish) && s2 == Next(s1, Publish)
    requires Shaped(s2) && Enabled(s2, WriteCommit) && s3 == Next(s2, WriteCommit)
    requires Shaped(s3) && Enabled(s3, Fsync) && s4 == Next(s3, Fsync)
    ensures Runs(s1, DRAIN_STEPS, s4)
  {
    hide Next, Enabled, Last, From;
    TakenNone(s4);
    RunsFirst(s3, Fsync, [], s4);
    RunsFirst(s2, WriteCommit, [Fsync] + [], s4);
    RunsFirst(s1, Publish, [WriteCommit] + ([Fsync] + []), s4);
  }

  const EARLY_STEPS: seq<Step> := [Write(2, 7)] + ([BeginPass] + ([ReadSequence] + ([DrainOne(ROOT)] + [])))

  /** From a new file system: an inode is journaled, the pass begins, and the
      drain ends before the sync has put the inode on the dirty list. */
  lemma EarlyDrainLoses(root: Version) returns (steps: seq<Step>, end: State)
    ensures Taken(Init(root), steps, end) && !Survives(end)
  {
    hide Taken, Runs, Survives, Inv;
    var st := EarlyReached(root);
    end := UnfinishedSyncLoses(st, 2);
    RunsTaken(AfterEndDrain(st), DRAIN_STEPS, end);
    TakenFirst(st, EndDrain, DRAIN_STEPS, end);
    TakenConcat(Init(root), EARLY_STEPS, st, [EndDrain] + DRAIN_STEPS, end);
    steps := EARLY_STEPS + ([EndDrain] + DRAIN_STEPS);
  }

  lemma EarlyReached(root: Version) returns (st: State)
    ensures Taken(Init(root), EARLY_STEPS, st) && Inv(st) && Shaped(st) && Enabled(st, EndDrain) && 2 in st.inflight
    ensures Within(st.pass.mark, st.journal) && 2 !in st.Since(st.pass.mark) && 2 !in st.View()
  {
    hide Last, From, Taken, PointOf, FindCommit, Inv, Runs;
    var s0 := Init(root);
    InitHolds(root);
    var s1 := AfterWrite(s0, 2, 7);
    KeepsWrite(s0, 2, 7);
    var s2 := AfterBeginPass(s1);
    KeepsBeginPass(s1);
    var s3 := AfterReadSequence(s2);
    KeepsReadSequence(s2);
    st := AfterDrainOne(s3, ROOT);
    KeepsDrainOne(s3, ROOT);
    assert s1.LastFile() == [Inode(ROOT, root), Inode(2, 7)];
    assert s2.LastFile() == s1.LastFile() + [Marker];
    assert |s2.journal| == 1 && s2.journal[0] == s2.LastFile();
    Emptied(ROOT, root);
    TakenNone(st);
    TakenFirst(s3, DrainOne(ROOT), [], st);
    TakenFirst(s2, ReadSequence, [DrainOne(ROOT)] + [], st);
    TakenFirst(s1, BeginPass, [ReadSequence] + ([DrainOne(ROOT)] + []), st);
    TakenFirst(s0, Write(2, 7), [BeginPass] + ([ReadSequence] + ([DrainOne(ROOT)] + [])), st);
    MarkerOnly(st.journal);
  }

  lemma MarkerOnly(j: Journal)
    requires |j| == 1 && |j[0]| == 3 && j[0][2] == Marker
    ensures Last(From(j, Pos(0, 2))) == map[]
  {
    assert From(j, Pos(0, 2)) == j[0][2..] + From(j, Pos(1, 0)) == [Marker];
    LastOfNext([], Marker);
    assert [] + [Marker] == [Marker];
  }
}
