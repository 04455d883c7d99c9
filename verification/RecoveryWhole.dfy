/** The other direction of recovery: what comes back beside the last journaled
    versions.  Nothing does in a file system that has not been started over;
    after one that has, inodes of the older history can return. */
module RecoveryWhole {
  import opened Options
  import opened JournalRecords
  import opened Recovery
  import opened RecoverySafety
  import opened RecoveryLimits

  /** The inodes with a record on disk, of whatever history. */
  function OnDisk(st: State): (r: set<Inum>)
    requires Shaped(st)
  {
    Last(All(st.Durable())).Keys
  }

  /** Whatever waits for the cloud, is on its way there or is there has a record
      on disk. */
  ghost predicate Journaled(st: State)
    requires Shaped(st)
  {
    st.dirty.Keys <= OnDisk(st) && st.View().Keys <= OnDisk(st)
  }

  // ------------------------------------------------ the disk only gains inodes

  lemma StartWithin(j: Journal)
    requires j != []
    ensures Within(START, j)
  {
  }

  /** A longer part of the same journal has the inodes of the shorter. */
  lemma LongerHas(j: Journal, m: nat, n: nat)
    requires j != [] && m <= n <= |Newest(j)|
    ensures Last(All(Cut(j, m))).Keys <= Last(All(Cut(j, n))).Keys
  {
    hide Last, From;
    StartWithin(Cut(j, m));
    CutKeys(j, m, n, START);
  }

  lemma PushHas(j: Journal, r: Rec)
    requires j != []
    ensures Last(All(j)).Keys <= Last(All(Push(j, r))).Keys
  {
    hide Last, From;
    StartWithin(j);
    LastOfPush(j, r, START);
  }

  lemma NewFileHas(j: Journal, f: seq<Rec>)
    requires j != []
    ensures Last(All(j + [f])) == Last(All(j)) + Last(f)
  {
    hide Last, From;
    StartWithin(j);
    FromNewFile(j, f, START);
    LastOfConcat(All(j), f);
  }

  lemma SyncedHas(st: State)
    requires Shaped(st)
    ensures OnDisk(st) <= Last(All(st.journal)).Keys
  {
    hide Last, From;
    LongerHas(st.journal, st.synced, |st.LastFile()|);
    CutWhole(st.journal);
  }

  lemma DiskGrows(st: State, step: Step)
    requires Inv(st) && Enabled(st, step) && Shaped(Next(st, step)) && !step.Crash?
    ensures OnDisk(st) <= OnDisk(Next(st, step))
  {
    hide Last, From, PointOf, Safe, PassOk, Accounted, Queued, TailInFlight, Placed, Covered;
    SyncedHas(st);
    match step
    case Write(i, v) => CutPushed(st.journal, Inode(i, v), st.synced);
    case WriteCommit => CutPushed(st.journal, Commit(st.pass.mark), st.synced);
    case Fsync => CutWhole(st.journal);
    case Rotate =>
      NewFileHas(st.journal, []);
      assert Cut(st.journal + [[]], 0) == st.journal + [[]];
    case BeginPass =>
      PushHas(st.journal, Marker);
      CutWhole(Push(st.journal, Marker));
    case _ =>
  }

  /** A sync that may finish has its record on disk. */
  lemma FinishedOnDisk(st: State, i: Inum)
    requires Inv(st) && i in st.inflight && st.inflight[i].durable
    ensures i in OnDisk(st)
  {
    hide Last, From, PointOf, Safe, PassOk, Accounted, Placed, Covered;
    StartWithin(st.Durable());
    StartWithin(st.journal);
    assert i in st.Now();
    LastFromLater(st.journal, START, st.born);
    DurableSyncSeen(st, i, START);
  }

  lemma JournaledKeeps(st: State, step: Step)
    requires Inv(st) && Journaled(st) && Enabled(st, step) && Proper(st, step)
    ensures Shaped(Next(st, step)) && Journaled(Next(st, step))
  {
    hide Inv, OnDisk;
    InvShaped(st);
    StepKeeps(st, step);
    var st' := Next(st, step);
    assert Shaped(st') by { InvShaped(st'); }
    if step.Crash? {
      CrashJournaled(st, step.kept, step.root);
    } else {
      DiskGrows(st, step);
      if step.Finish? {
        FinishedOnDisk(st, step.inum);
      }
    }
  }

  lemma InvShaped(st: State)
    requires Inv(st)
    ensures Shaped(st)
  {
  }

  lemma CrashJournaled(st: State, n: nat, v: Version)
    requires Inv(st) && Journaled(st) && st.synced <= n <= |st.LastFile()|
    ensures var st' := Restart(Cut(st.journal, n), st.gone, st.cloud, st.born, v);
      Shaped(st') && Journaled(st')
  {
    hide Last, From, PointOf, Safe, PassOk, Accounted, Queued, TailInFlight, Placed, FindCommit, ReplayFrom;
    var j := Cut(st.journal, n);
    var st' := Restart(j, st.gone, st.cloud, st.born, v);
    LongerHas(st.journal, st.synced, n);
    if st.cloud.Some? {
      PointAfterCrash(st, n);
      NewFileHas(j, []);
      LastFromLater(j, START, PointOf(j));
      assert Cut(j + [[]], 0) == j + [[]];
    } else {
      NewFileHas(j, [Inode(ROOT, v)]);
      RootLast(v);
      CutWhole(j + [[Inode(ROOT, v)]]);
    }
  }

  lemma RootLast(v: Version)
    ensures Last([Inode(ROOT, v)]) == map[ROOT := v] && Last([]) == map[]
  {
    LastOfNext([], Inode(ROOT, v));
    assert [] + [Inode(ROOT, v)] == [Inode(ROOT, v)];
  }

  lemma {:induction false} RunJournaled(st: State, steps: seq<Step>, end: State)
    requires Inv(st) && Shaped(st) && Journaled(st) && Runs(st, steps, end)
    ensures Inv(end) && Shaped(end) && Journaled(end)
    decreases |steps|
  {
    hide Inv, Journaled, Enabled, Next, Proper;
    if steps != [] {
      StepKeeps(st, steps[0]);
      JournaledKeeps(st, steps[0]);
      RunJournaled(Next(st, steps[0]), steps[1..], end);
    }
  }

  lemma InitJournaled(root: Version)
    ensures Inv(Init(root)) && Shaped(Init(root)) && Journaled(Init(root))
  {
    InitHolds(root);
    FreshVersions([], root);
    assert [] + [[Inode(ROOT, root)]] == Init(root).journal;
    CutWhole(Init(root).journal);
  }

  // ------------------------------------------------ what comes back

  /** No inode of an older history is in the cloud or replayed. */
  ghost predicate OneHistory(j: Journal, born: Pos, cloud: Versions)
    requires Within(born, j) && Within(PointOf(j), j)
  {
    cloud.Keys + Last(From(j, PointOf(j))).Keys <= Last(From(j, born)).Keys
  }

  /** Exactly the last journaled versions come back, and nothing else, if and only
      if no inode of an older history is in the cloud or behind the commit point. */
  lemma RecoverExact(st: State, n: nat)
    requires Inv(st) && st.cloud.Some? && st.synced <= n <= |st.LastFile()|
    ensures var j := Cut(st.journal, n);
      && Within(st.born, j) && Within(PointOf(j), j)
      && (Recover(j, st.gone, st.cloud) == Last(From(j, st.born)) <==> OneHistory(j, st.born, st.cloud.value))
  {
    hide Last, From, PointOf, FindCommit, ReplayFrom, Safe, PassOk, Accounted, Queued, Placed, TailInFlight;
    var j := Cut(st.journal, n);
    PointAfterCrash(st, n);
    RecoveryExact(st, n);
    var found, last := Recover(j, st.gone, st.cloud), Last(From(j, st.born));
    assert found.Keys == st.cloud.value.Keys + Last(From(j, PointOf(j))).Keys;
    SameWhenNoMore(found, last);
  }

  lemma SameWhenNoMore(found: Versions, last: Versions)
    requires forall i :: i in last ==> i in found && found[i] == last[i]
    ensures found == last <==> found.Keys <= last.Keys
  {
    if found.Keys <= last.Keys {
      assert found.Keys == last.Keys;
    }
  }

  /** After any run and any crash, nothing comes back that was never journaled;
      and if the file system has not been started over, what comes back is exactly
      the last journaled version of every inode. */
  lemma RecoveryComplete(root: Version, steps: seq<Step>, end: State, n: nat)
    requires Runs(Init(root), steps, end) && end.cloud.Some?
    requires Shaped(end) && end.synced <= n <= |end.LastFile()|
    ensures var j := Cut(end.journal, n);
      && Recover(j, end.gone, end.cloud).Keys <= Last(All(j)).Keys
      && (end.born == START ==> Recover(j, end.gone, end.cloud) == Last(All(j)))
  {
    hide Runs, Last, From, PointOf, FindCommit, ReplayFrom, Safe, PassOk, Accounted, Queued, Placed, TailInFlight,
      OneHistory;
    InitJournaled(root);
    RunJournaled(Init(root), steps, end);
    var j := Cut(end.journal, n);
    PointAfterCrash(end, n);
    LongerHas(end.journal, end.synced, n);
    LastFromLater(j, START, PointOf(j));
    if end.born == START {
      RecoverExact(end, n);
      assert OneHistory(j, START, end.cloud.value) by { Unmixed(j, end.cloud.value); }
    }
  }

  lemma Unmixed(j: Journal, cloud: Versions)
    requires j != [] && Within(PointOf(j), j)
    requires cloud.Keys + Last(From(j, PointOf(j))).Keys <= Last(All(j)).Keys
    ensures OneHistory(j, START, cloud)
  {
  }

  // ------------------------------------------------ an inode that returns

  const OLD_STEPS: seq<Step> := [Write(2, 7)] + ([Fsync] + ([Crash(2, 0)] + []))

  const FIRST_PASS: seq<Step> :=
    [BeginPass] + ([ReadSequence] + ([DrainOne(ROOT)] + ([EndDrain] + ([Publish] + []))))

  /** From a new file system: an inode is journaled, a crash before the first
      checkpoint starts the file system over, and a crash after the first
      checkpoint, but before its commit record, brings the inode back. */
  lemma OldInodeReturns(root: Version) returns (end: State)
    ensures Runs(Init(root), OLD_STEPS + FIRST_PASS, end) && Shaped(end) && end.cloud.Some?
    ensures end.synced == |end.LastFile()| && Within(end.born, end.journal)
    ensures 2 in Recover(end.journal, end.gone, end.cloud) && 2 !in Last(From(end.journal, end.born))
  {
    hide Runs, Recover, Last, From;
    var mid := StartedOver(root);
    end := Published(mid, root);
    RunsConcat(Init(root), OLD_STEPS, mid, FIRST_PASS, end);
    var j := end.journal;
    RootOnly(j);
    OldReplayed(j, end.cloud, root);
  }

  /** The file system made by the second start-up. */
  function Second(root: Version): (st: State) {
    State([[Inode(ROOT, root), Inode(2, 7)], [Inode(ROOT, 0)]], 1, {}, 0, map[], map[ROOT := 0], None, Idle, Pos(1, 0),
          map[ROOT := 0])
  }

  lemma StartedOver(root: Version) returns (st: State)
    ensures Runs(Init(root), OLD_STEPS, st) && st == Second(root)
  {
    var s0 := Init(root);
    var s1 := AfterWrite(s0, 2, 7);
    var s2 := AfterFsync(s1);
    assert s1.journal[0] == [Inode(ROOT, root)] + [Inode(2, 7)] == [Inode(ROOT, root), Inode(2, 7)];
    CutWhole(s2.journal);
    st := Next(s2, Crash(2, 0));
    assert st.journal == s1.journal + [[Inode(ROOT, 0)]];
    assert st.journal == Second(root).journal;
    hide Runs, Next;
    TakenNone(st);
    RunsFirst(s2, Crash(2, 0), [], st);
    RunsFirst(s1, Fsync, [Crash(2, 0)] + [], st);
    RunsFirst(s0, Write(2, 7), [Fsync] + ([Crash(2, 0)] + []), st);
  }

  /** The first flush pass of that file system, its root still to be drained. */
  function Flushing(root: Version): (st: State) {
    State([[Inode(ROOT, root), Inode(2, 7)], [Inode(ROOT, 0), Marker]], 2, {}, 0, map[], map[ROOT := 0], None,
          Draining(Pos(1, 1), 1, map[]), Pos(1, 0), map[ROOT := 0])
  }

  lemma Published(s0: State, root: Version) returns (end: State)
    requires s0 == Second(root)
    ensures Runs(s0, FIRST_PASS, end) && Shaped(end) && end.cloud.Some? && end.gone == {}
    ensures end.journal == [[Inode(ROOT, root), Inode(2, 7)], [Inode(ROOT, 0), Marker]]
    ensures end.synced == |end.LastFile()| && end.born == Pos(1, 0)
  {
    var s1 := AfterBeginPass(s0);
    var s2 := AfterReadSequence(s1);
    assert s1.journal[1] == [Inode(ROOT, 0)] + [Marker] == [Inode(ROOT, 0), Marker];
    assert s2.journal == Flushing(root).journal && s2.inflight == map[];
    hide Runs, Last, From, PointOf, Flushing;
    end := Drained(root);
    RunsFirst(s1, ReadSequence, [DrainOne(ROOT)] + ([EndDrain] + ([Publish] + [])), end);
    RunsFirst(s0, BeginPass, [ReadSequence] + ([DrainOne(ROOT)] + ([EndDrain] + ([Publish] + []))), end);
  }

  lemma Drained(root: Version) returns (end: State)
    ensures Runs(Flushing(root), [DrainOne(ROOT)] + ([EndDrain] + ([Publish] + [])), end)
    ensures Shaped(end) && end.cloud.Some? && end.gone == {} && end.journal == Flushing(root).journal
    ensures end.synced == |end.LastFile()| && end.born == Pos(1, 0)
  {
    var s2 := Flushing(root);
    var s3 := AfterDrainOne(s2, ROOT);
    var s4 := AfterEndDrain(s3);
    end := AfterPublish(s4);
    Emptied(ROOT, 0);
    assert s3.dirty == map[] && s3.inflight == map[];
    hide Runs, Last, From, PointOf;
    TakenNone(end);
    RunsFirst(s4, Publish, [], end);
    RunsFirst(s3, EndDrain, [Publish] + [], end);
    RunsFirst(s2, DrainOne(ROOT), [EndDrain] + ([Publish] + []), end);
  }

  lemma RootOnly(j: Journal)
    requires |j| == 2 && j[1] == [Inode(ROOT, 0), Marker]
    ensures 2 !in Last(From(j, Pos(1, 0)))
  {
    assert From(j, Pos(1, 0)) == j[1][0..] + From(j, Pos(2, 0)) == [Inode(ROOT, 0), Marker];
    RootLast(0);
    LastOfNext([Inode(ROOT, 0)], Marker);
    assert [Inode(ROOT, 0)] + [Marker] == [Inode(ROOT, 0), Marker];
  }

  lemma OldReplayed(j: Journal, cloud: Option<Versions>, root: Version)
    requires j == [[Inode(ROOT, root), Inode(2, 7)], [Inode(ROOT, 0), Marker]] && cloud.Some?
    ensures 2 in Recover(j, {}, cloud)
  {
    var all := All(j);
    assert From(j, Pos(1, 0)) == j[1][0..] + From(j, Pos(2, 0)) == j[1];
    assert all == j[0][0..] + From(j, Pos(1, 0)) == j[0] + j[1];
    assert all == [Inode(ROOT, root), Inode(2, 7), Inode(ROOT, 0), Marker];
    NoCommits(all);
    hide Last, From, LastCommit, FindCommit, ReplayFrom;
    FindsLastCommit(j, {});
    ReplayWhole(j, {}, START);
    JournaledSeen(all, 1);
  }
}
