/** The proofs about the flush protocol: every step keeps the invariant, and the
    invariant makes recovery complete. */
module RecoverySafety {
  import opened Options
  import opened JournalRecords
  import opened Recovery

  // ------------------------------------------------ journal facts

  lemma {:induction false} NotAmong(recs: seq<Rec>, i: Inum)
    requires forall k :: 0 <= k < |recs| ==> recs[k].Inode? ==> recs[k].inum != i
    ensures i !in Last(recs)
  {
    if recs != [] {
      NotAmong(recs[..|recs| - 1], i);
    }
  }

  lemma CutOfCut(j: Journal, m: nat, n: nat)
    requires j != [] && m <= n <= |j[|j| - 1]|
    ensures Cut(Cut(j, n), m) == Cut(j, m)
    ensures Cut(j, n)[|j| - 1][m..] == j[|j| - 1][m..n]
  {
    assert j[|j| - 1][..n][..m] == j[|j| - 1][..m];
  }

  /** Records between two cuts, as seen from a position before both. */
  lemma FromLongerCut(j: Journal, m: nat, n: nat, p: Pos)
    requires j != [] && m <= n <= |j[|j| - 1]| && Within(p, Cut(j, m))
    ensures Within(p, Cut(j, n))
    ensures From(Cut(j, n), p) == From(Cut(j, m), p) + j[|j| - 1][m..n]
  {
    CutOfCut(j, m, n);
    FromCut(Cut(j, n), m, p);
  }

  /** An inode with no record between two cuts looks the same in both. */
  lemma SameInBothCuts(j: Journal, m: nat, n: nat, p: Pos, i: Inum)
    requires j != [] && m <= n <= |j[|j| - 1]| && Within(p, Cut(j, m))
    requires forall k :: m <= k < n && Newest(j)[k].Inode? ==> Newest(j)[k].inum != i
    ensures Within(p, Cut(j, n))
    ensures i in Last(From(Cut(j, n), p)) <==> i in Last(From(Cut(j, m), p))
    ensures i in Last(From(Cut(j, m), p)) ==> Last(From(Cut(j, n), p))[i] == Last(From(Cut(j, m), p))[i]
  {
    var more := Newest(j)[m..n];
    FromLongerCut(j, m, n, p);
    LastOfConcat(From(Cut(j, m), p), more);
    NotAmong(more, i);
  }

  lemma PointOfPush(j: Journal, r: Rec)
    requires j != []
    ensures PointOf(Push(j, r)) == if r.Commit? then r.point else PointOf(j)
  {
    FromPush(j, r, START);
    CommitOfConcat(All(j), [r]);
    assert [r][..0] == [];
  }

  lemma LastOfPush(j: Journal, r: Rec, p: Pos)
    requires j != [] && Within(p, j)
    ensures Within(p, Push(j, r))
    ensures Last(From(Push(j, r), p))
         == if r.Inode? then Last(From(j, p))[r.inum := r.version] else Last(From(j, p))
  {
    FromPush(j, r, p);
    LastOfNext(From(j, p), r);
  }

  lemma CoveredPush(j: Journal, born: Pos, p: Pos, cloud: Versions, r: Rec)
    requires j != [] && Covered(j, born, p, cloud)
    ensures Covered(Push(j, r), born, p, cloud)
  {
    LastOfPush(j, r, born);
    LastOfPush(j, r, p);
  }

  lemma CoveredNewFile(j: Journal, born: Pos, p: Pos, cloud: Versions)
    requires j != [] && Covered(j, born, p, cloud)
    ensures Covered(j + [[]], born, p, cloud)
  {
    FromNewFile(j, [], born);
    FromNewFile(j, [], p);
    assert From(j, born) + [] == From(j, born) && From(j, p) + [] == From(j, p);
  }

  lemma CommitsBackwardPush(j: Journal, r: Rec)
    requires j != [] && CommitsBackward(j)
    requires r.Commit? ==> r.point != START && Within(r.point, j)
    ensures CommitsBackward(Push(j, r))
  {
    var j': seq<seq<Rec>> := Push(j, r);
    forall f: int, k: int | 0 <= f < |j'| && 0 <= k < |j'[f]| && j'[f][k].Commit?
      ensures j'[f][k].point != START && Within(j'[f][k].point, j') && AtOrBefore(j'[f][k].point, Pos(f, k))
    {
      if f == |j| - 1 && k == |j[f]| {
        assert j'[f][k] == r;
      } else {
        assert j'[f][k] == j[f][k];
      }
    }
  }

  lemma CommitsBackwardCut(j: Journal, n: nat)
    requires j != [] && CommitsBackward(j) && n <= |j[|j| - 1]|
    ensures CommitsBackward(Cut(j, n))
  {
    var c: seq<seq<Rec>> := Cut(j, n);
    forall f: int, k: int | 0 <= f < |c| && 0 <= k < |c[f]| && c[f][k].Commit?
      ensures c[f][k].point != START && Within(c[f][k].point, c) && AtOrBefore(c[f][k].point, Pos(f, k))
    {
      assert c[f][k] == j[f][k];
    }
  }

  // ------------------------------------------------ appending a record

  /** Every cut of the longer journal is a cut of the old one or the whole. */
  lemma SafePush(st: State, r: Rec)
    requires Inv(st) && !r.Commit?
    ensures forall n :: st.synced <= n <= |st.LastFile()| + 1 ==>
      Covered(Cut(Push(st.journal, r), n), st.born, PointOf(Cut(Push(st.journal, r), n)), st.Checkpoint())
  {
    hide Last, From, PointOf, LastCommit, Covered, Placed, PassOk, CommitsBackward, Accounted, Queued, TailInFlight;
    var j, last := st.journal, |st.LastFile()|;
    forall n | st.synced <= n <= last + 1
      ensures Covered(Cut(Push(j, r), n), st.born, PointOf(Cut(Push(j, r), n)), st.Checkpoint())
    {
      if n <= last {
        CutPushed(j, r, n);
      } else {
        CutPushed(j, r, last);
        CutWhole(j);
        assert Covered(Cut(j, last), st.born, PointOf(Cut(j, last)), st.Checkpoint());
        PointOfPush(j, r);
        CoveredPush(j, st.born, PointOf(j), st.Checkpoint(), r);
      }
    }
  }

  /** What a new record leaves as it was. */
  lemma PlacedPush(st: State, st': State, r: Rec)
    requires Inv(st) && !r.Commit?
    requires st' == st.(journal := Push(st.journal, r), inflight := st'.inflight)
    ensures Shaped(st') && st'.Durable() == st.Durable()
    ensures Placed(st') && Within(st'.born, st'.journal) && Within(st'.Point(), st'.journal)
    ensures Safe(st')
  {
    hide Last, From, PointOf, LastCommit, Covered, PassOk, CommitsBackward, Accounted, Queued, TailInFlight;
    CutPushed(st.journal, r, st.synced);
    CommitsBackwardPush(st.journal, r);
    LastOfPush(st.journal, r, st.born);
    LastOfPush(st.journal, r, st.Point());
    SafePush(st, r);
  }

  lemma QueuesWrite(now: Versions, since: Versions, durable: Versions, view: Versions, cloud: Versions,
                    inflight: map<Inum, Sync>, dirty: Versions, acked: Versions, i: Inum, v: Version)
    requires Accounted(now, view, dirty, inflight) && Queued(now, since, durable, cloud, inflight, dirty, acked)
    requires i !in inflight
    ensures Accounted(now[i := v], view, dirty, inflight[i := Sync(v, false)])
    ensures Queued(now[i := v], since[i := v], durable, cloud, inflight[i := Sync(v, false)], dirty, acked)
  {
  }

  lemma KeepsWrite(st: State, i: Inum, v: Version)
    requires Inv(st) && i !in st.inflight
    ensures Inv(AfterWrite(st, i, v))
  {
    hide Last, From, PointOf, LastCommit, Covered, PassOk, Safe, Within, Push, Cut, Accounted, Queued;
    var st' := AfterWrite(st, i, v);
    var r := Inode(i, v);
    PlacedPush(st, st', r);
    LastOfPush(st.journal, r, st.born);
    LastOfPush(st.journal, r, st.Point());
    QueuesWrite(st.Now(), st.Since(st.Point()), st.DurableSince(st.Point()), st.View(), st.Checkpoint(), st.inflight, st.dirty, st.acked, i, v);
    TailPush(st, i, v);
    PassPush(st, st', r);
  }

  lemma TailPush(st: State, i: Inum, v: Version)
    requires Shaped(st) && TailInFlight(st) && i !in st.inflight
    ensures Shaped(AfterWrite(st, i, v)) && TailInFlight(AfterWrite(st, i, v))
  {
  }

  /** A record that commits nothing does not disturb the pass. */
  lemma PassPush(st: State, st': State, r: Rec)
    requires Inv(st) && !r.Commit?
    requires Shaped(st') && Placed(st') && Within(st'.born, st'.journal)
    requires st'.journal == Push(st.journal, r) && st'.synced == st.synced && st'.born == st.born
    requires st'.Durable() == st.Durable()
    requires st'.pass == st.pass && st'.cloud == st.cloud && st'.dirty == st.dirty
    requires forall i :: i in st'.inflight ==>
      (r.Inode? && i == r.inum) || (i in st.inflight && st'.inflight[i].version == st.inflight[i].version)
    ensures PassOk(st')
  {
    hide Last, From, PointOf, LastCommit, Covered, Placed, Safe, TailInFlight, Accounted, Queued;
    var j := st.journal;
    if !st.pass.Idle? && !st.pass.Marking? && !st.pass.Draining? {
      var mark := st.pass.mark;
      LastOfPush(j, r, mark);
      CoveredPush'(st, mark, r);
    }
    PointWhenSynced(st);
    PointOfPush(j, r);
    CutPushed(j, r, |st.LastFile()|);
    forall n | st.synced <= n <= |st.LastFile()| + 1
      ensures PointOf(Cut(st'.journal, n)) == if n <= |st.LastFile()| then PointOf(Cut(j, n)) else PointOf(j)
    {
      if n <= |st.LastFile()| {
        CutPushed(j, r, n);
      }
    }
  }

  lemma CoveredPush'(st: State, mark: Pos, r: Rec)
    requires Inv(st) && (st.pass.Drained? || st.pass.Published? || st.pass.Committing?) && st.pass.mark == mark
    ensures st.pass.Drained? ==> Covered(Push(st.journal, r), st.born, mark, st.View())
    ensures st.pass.Published? ==> Covered(Push(st.journal, r), st.born, mark, st.Checkpoint())
  {
    if st.pass.Drained? {
      CoveredPush(st.journal, st.born, mark, st.View(), r);
    } else if st.pass.Published? {
      CoveredPush(st.journal, st.born, mark, st.Checkpoint(), r);
    }
  }

  // ------------------------------------------------ syncing the journal

  /** Once everything is on disk, the commit point is the old one or the mark. */
  lemma PointWhenSynced(st: State)
    requires Inv(st)
    ensures !st.pass.Committing? ==> PointOf(st.journal) == st.Point()
    ensures st.pass.Committing? ==> PointOf(st.journal) == st.pass.mark
  {
    hide Last, From, PointOf, LastCommit, Covered, Placed, Safe, TailInFlight, Accounted, Queued, PastMark;
    CutWhole(st.journal);
    assert !st.pass.Committing? ==> PointOf(Cut(st.journal, |st.LastFile()|)) == st.Point();
  }

  lemma DurableKeys(st: State, p: Pos)
    requires Shaped(st) && Within(p, st.Durable())
    ensures Within(p, st.journal)
    ensures st.DurableSince(p).Keys <= st.Since(p).Keys
  {
    hide Last, From;
    CutWhole(st.journal);
    CutKeys(st.journal, st.synced, |st.LastFile()|, p);
  }

  lemma FsyncPlaced(st: State)
    requires Inv(st)
    ensures var st' := AfterFsync(st);
      Shaped(st') && st'.Durable() == st.journal && st'.Point() == PointOf(st.journal)
      && Placed(st') && Within(st'.born, st'.journal) && Within(st'.Point(), st'.journal)
      && Safe(st') && TailInFlight(st')
  {
    hide Last, From, PointOf, LastCommit, Covered, Accounted, Queued, PastMark, CommitsBackward;
    CutWhole(st.journal);
    PointWhenSynced(st);
    assert Covered(Cut(st.journal, |st.LastFile()|), st.born, PointOf(st.journal), st.Checkpoint());
  }

  lemma QueuesFsync(now: Versions, since: Versions, durable: Versions, view: Versions, cloud: Versions,
                    inflight: map<Inum, Sync>, dirty: Versions, acked: Versions, since': Versions)
    requires Accounted(now, view, dirty, inflight) && Queued(now, since, durable, cloud, inflight, dirty, acked)
    requires forall i :: i in inflight ==> i in since' || Held(cloud, i, inflight[i].version)
    requires forall i :: i in dirty ==> i in since' || Held(cloud, i, dirty[i])
    ensures Accounted(now, view, dirty, AllDurable(inflight))
    ensures Queued(now, since', since', cloud, AllDurable(inflight), dirty, acked)
  {
  }

  /** The commit point moves only past syncs and dirty inodes that have been
      dealt with. */
  lemma BehindNewPoint(st: State)
    requires Inv(st)
    ensures Within(PointOf(st.journal), st.journal)
    ensures forall i :: i in st.inflight ==>
      i in st.Since(PointOf(st.journal)) || Held(st.Checkpoint(), i, st.inflight[i].version)
    ensures forall i :: i in st.dirty ==> i in st.Since(PointOf(st.journal)) || Held(st.Checkpoint(), i, st.dirty[i])
    ensures (st.pass.Draining? || st.pass.Drained?) ==>
      Replaces(st.pass.staged, st.Since(PointOf(st.journal)), st.Checkpoint())
  {
    hide Last, From, PointOf, LastCommit, Covered, Safe, Accounted, CommitsBackward;
    PointWhenSynced(st);
    var p := PointOf(st.journal);
    DurableKeys(st, p);
  }

  lemma KeepsFsync(st: State)
    requires Inv(st)
    ensures Inv(AfterFsync(st))
  {
    hide Last, From, PointOf, LastCommit, Covered, Safe, TailInFlight, Accounted, Queued, PassOk;
    var st' := AfterFsync(st);
    FsyncPlaced(st);
    BehindNewPoint(st);
    QueuesFsync(st.Now(), st.Since(st.Point()), st.DurableSince(st.Point()), st.View(), st.Checkpoint(), st.inflight, st.dirty, st.acked,
                st.Since(PointOf(st.journal)));
    FsyncPass(st);
  }

  lemma FsyncPass(st: State)
    requires Inv(st)
    requires Shaped(AfterFsync(st)) && Placed(AfterFsync(st)) && AfterFsync(st).Durable() == st.journal
    ensures PassOk(AfterFsync(st))
  {
    hide Last, From, PointOf, LastCommit, Covered, Safe, TailInFlight, Accounted, Queued, CommitsBackward;
    var st' := AfterFsync(st);
    PointWhenSynced(st);
    BehindNewPoint(st);
    CutWhole(st.journal);
    if !st.pass.Idle? {
      DurableKeys(st, st.pass.mark);
    }
  }

  // ------------------------------------------------ starting a new file

  lemma SeenFromNewFile(j: Journal, p: Pos)
    requires j != [] && Within(p, j)
    ensures Within(p, j + [[]]) && From(j + [[]], p) == From(j, p)
    ensures PointOf(j + [[]]) == PointOf(j)
    ensures Cut(j + [[]], 0) == j + [[]]
  {
    FromNewFile(j, [], p);
    FromNewFile(j, [], START);
    assert From(j, p) + [] == From(j, p) && All(j) + [] == All(j);
  }

  lemma KeepsNewFile(st: State)
    requires Inv(st) && st.synced == |st.LastFile()|
    ensures Inv(st.(journal := st.journal + [[]], synced := 0))
  {
    hide Last, From, PointOf, LastCommit;
    var st' := st.(journal := st.journal + [[]], synced := 0);
    CutWhole(st.journal);
    SeenFromNewFile(st.journal, st.born);
    SeenFromNewFile(st.journal, st.Point());
    NewFilePlaced(st);
    NewFilePass(st);
    hide Placed, Safe, PassOk, Covered, Accounted, Queued;
    assert st'.Durable() == st'.journal;
  }

  lemma NewFilePlaced(st: State)
    requires Inv(st) && st.synced == |st.LastFile()|
    ensures var st' := st.(journal := st.journal + [[]], synced := 0);
      Placed(st') && Safe(st') && TailInFlight(st') && st'.Point() == st.Point()
  {
    hide Last, From, PointOf, LastCommit, Covered, PassOk, Accounted, Queued;
    CutWhole(st.journal);
    SeenFromNewFile(st.journal, st.born);
    SeenFromNewFile(st.journal, st.Point());
    assert Covered(Cut(st.journal, |st.LastFile()|), st.born, PointOf(Cut(st.journal, |st.LastFile()|)), st.Checkpoint());
    CoveredNewFile(st.journal, st.born, st.Point(), st.Checkpoint());
  }

  lemma NewFilePass(st: State)
    requires Inv(st) && st.synced == |st.LastFile()|
    requires var st' := st.(journal := st.journal + [[]], synced := 0);
      Placed(st') && st'.Point() == st.Point() && Within(st'.born, st'.journal)
    ensures PassOk(st.(journal := st.journal + [[]], synced := 0))
  {
    hide Last, From, PointOf, LastCommit, Safe, TailInFlight, Accounted, Queued, CommitsBackward;
    CutWhole(st.journal);
    SeenFromNewFile(st.journal, st.born);
    SeenFromNewFile(st.journal, st.Point());
    if !st.pass.Idle? {
      SeenFromNewFile(st.journal, st.pass.mark);
    }
  }

  lemma KeepsRotate(st: State)
    requires Inv(st)
    ensures Inv(AfterRotate(st))
  {
    hide Placed, Safe, PassOk, Accounted, Queued, TailInFlight;
    KeepsFsync(st);
    KeepsNewFile(AfterFsync(st));
  }

  // ------------------------------------------------ a sync returns

  /** The record of a durable sync is not in the part a crash may take away. */
  lemma DurableSyncSeen(st: State, i: Inum, p: Pos)
    requires Shaped(st) && TailInFlight(st) && Within(p, st.Durable()) && Within(p, st.journal)
    requires i in st.inflight ==> st.inflight[i].durable
    ensures i in st.Since(p) <==> i in st.DurableSince(p)
    ensures i in st.Since(p) ==> st.Since(p)[i] == st.DurableSince(p)[i]
  {
    hide Last, From;
    CutWhole(st.journal);
    SameInBothCuts(st.journal, st.synced, |st.LastFile()|, p, i);
  }

  lemma QueuesFinish(now: Versions, since: Versions, durable: Versions, view: Versions, cloud: Versions,
                     inflight: map<Inum, Sync>, dirty: Versions, acked: Versions, i: Inum)
    requires Accounted(now, view, dirty, inflight) && Queued(now, since, durable, cloud, inflight, dirty, acked)
    requires i in inflight && (i in durable || Held(cloud, i, inflight[i].version))
    ensures var v := inflight[i].version;
      Accounted(now, view, dirty[i := v], inflight - {i})
      && Queued(now, since, durable, cloud, inflight - {i}, dirty[i := v], acked[i := v])
  {
  }

  lemma KeepsFinish(st: State, i: Inum)
    requires Inv(st) && i in st.inflight && st.inflight[i].durable
    ensures Inv(AfterFinish(st, i))
  {
    hide Last, From, PointOf, LastCommit, Covered, CommitsBackward, Accounted;
    DurableSyncSeen(st, i, st.Point());
    QueuesFinish(st.Now(), st.Since(st.Point()), st.DurableSince(st.Point()), st.View(), st.Checkpoint(), st.inflight, st.dirty, st.acked, i);
    FinishPass(st, i);
    hide Queued, PassOk;
    assert Safe(AfterFinish(st, i));
  }

  lemma FinishPass(st: State, i: Inum)
    requires Inv(st) && i in st.inflight && st.inflight[i].durable
    ensures PassOk(AfterFinish(st, i))
  {
    hide Last, From, PointOf, LastCommit, Covered, CommitsBackward, Accounted, Queued, Safe;
    if st.pass.Drained? || st.pass.Published? || st.pass.Committing? {
      DurableSyncSeen(st, i, st.pass.mark);
    }
  }

  // ------------------------------------------------ the flush pass

  lemma KeepsMarker(st: State)
    requires Inv(st)
    ensures Inv(st.(journal := Push(st.journal, Marker)))
  {
    hide Last, From, PointOf, LastCommit, Covered, PassOk, Safe, Within, Push, Cut, Accounted, Queued;
    var st' := st.(journal := Push(st.journal, Marker));
    PlacedPush(st, st', Marker);
    LastOfPush(st.journal, Marker, st.born);
    LastOfPush(st.journal, Marker, st.Point());
    MarkerTail(st);
    PassPush(st, st', Marker);
  }

  lemma MarkerTail(st: State)
    requires Shaped(st) && TailInFlight(st)
    ensures Shaped(st.(journal := Push(st.journal, Marker))) && TailInFlight(st.(journal := Push(st.journal, Marker)))
  {
  }

  lemma KeepsPassStart(st: State, mark: Pos)
    requires Inv(st) && st.pass.Idle? && Marked(st, mark)
    ensures Inv(st.(pass := Marking(mark)))
  {
    hide Last, From, PointOf, LastCommit, Covered, CommitsBackward, Accounted, Queued;
    var st' := st.(pass := Marking(mark));
    assert st'.View() == st.View();
    assert Safe(st') && Steady(st');
  }

  lemma BeginPassInSteps(st: State)
    requires Shaped(st)
    ensures Shaped(AfterFsync(st))
    ensures var st1 := AfterFsync(st).(journal := Push(st.journal, Marker));
      Shaped(st1) && AfterBeginPass(st) == AfterFsync(st1).(pass := Marking(End(st.journal)))
  {
    assert AllDurable(AllDurable(st.inflight)) == AllDurable(st.inflight);
  }

  lemma KeepsBeginPass(st: State)
    requires Inv(st) && st.pass.Idle?
    ensures Inv(AfterBeginPass(st))
  {
    BeginPassInSteps(st);
    hide Placed, Safe, PassOk, Accounted, Queued, TailInFlight, Marked, AfterBeginPass, Push, End;
    var st0 := AfterFsync(st);
    var st1 := st0.(journal := Push(st.journal, Marker));
    KeepsFsync(st);
    KeepsMarker(st0);
    KeepsFsync(st1);
    MarkInPlace(st0, AfterFsync(st1));
    KeepsPassStart(AfterFsync(st1), End(st.journal));
  }

  lemma MarkInPlace(st: State, st': State)
    requires Inv(st) && !st.pass.Committing?
    requires st' == AfterFsync(st.(journal := Push(st.journal, Marker)))
    ensures Shaped(st') && Marked(st', End(st.journal))
  {
    hide Last, From, PointOf, LastCommit, Covered, Safe, TailInFlight, Accounted, Queued, CommitsBackward;
    PointWhenSynced(st);
    PointOfPush(st.journal, Marker);
    CutWhole(Push(st.journal, Marker));
  }

  lemma KeepsReadSequence(st: State)
    requires Inv(st) && st.pass.Marking?
    ensures Inv(AfterReadSequence(st))
  {
    hide Last, From, PointOf, LastCommit, Covered, CommitsBackward, Accounted, Queued;
    var st' := AfterReadSequence(st);
    assert st'.View() == st.View();
    assert Safe(st') && Steady(st');
  }

  lemma QueuesDrain(now: Versions, since: Versions, durable: Versions, view: Versions, cloud: Versions,
                    inflight: map<Inum, Sync>, dirty: Versions, acked: Versions, i: Inum)
    requires Accounted(now, view, dirty, inflight) && Queued(now, since, durable, cloud, inflight, dirty, acked)
    requires i in dirty
    ensures i in durable || Held(cloud, i, dirty[i])
    ensures Accounted(now, view[i := dirty[i]], dirty - {i}, inflight)
    ensures Queued(now, since, durable, cloud, inflight, dirty - {i}, acked)
  {
  }

  lemma DrainPass(st: State, i: Inum)
    requires Inv(st) && st.pass.Draining? && i in st.dirty
    requires i in st.DurableSince(st.Point()) || Held(st.Checkpoint(), i, st.dirty[i])
    ensures PassOk(AfterDrainOne(st, i))
  {
    hide Last, From, PointOf, LastCommit, Covered, CommitsBackward, Accounted, Queued, Safe, TailInFlight;
    assert Steady(AfterDrainOne(st, i));
  }

  lemma KeepsDrainOne(st: State, i: Inum)
    requires Inv(st) && st.pass.Draining? && i in st.dirty
    ensures Inv(AfterDrainOne(st, i))
  {
    hide Last, From, PointOf, LastCommit, Covered, CommitsBackward, Accounted, Queued;
    var st' := AfterDrainOne(st, i);
    assert st'.View() == st.View()[i := st.dirty[i]];
    QueuesDrain(st.Now(), st.Since(st.Point()), st.DurableSince(st.Point()), st.View(), st.Checkpoint(), st.inflight, st.dirty, st.acked, i);
    DrainPass(st, i);
    hide PassOk, State.View;
    assert Safe(st');
  }

  lemma KeepsEndDrain(st: State)
    requires Inv(st) && Enabled(st, EndDrain) && Proper(st, EndDrain)
    ensures Inv(AfterEndDrain(st))
  {
    hide Last, From, PointOf, LastCommit, CommitsBackward;
    var st' := AfterEndDrain(st);
    assert st'.View() == st.View();
    assert Safe(st') && Steady(st') by { hide Covered; }
  }

  lemma KeepsPublish(st: State)
    requires Inv(st) && st.pass.Drained?
    ensures Inv(AfterPublish(st))
  {
    hide Last, From, PointOf, LastCommit, CommitsBackward, Accounted, Queued;
    var st' := AfterPublish(st);
    assert st'.Checkpoint() == st.View() == st'.View();
    DurableKeys(st, st.Point());
    QueuesPublish(st.Now(), st.Since(st.Point()), st.DurableSince(st.Point()), st.Checkpoint(), st.inflight, st.dirty,
                  st.acked, st.pass.staged);
    PublishSafe(st);
    hide Safe, Covered;
    assert Steady(st');
  }

  lemma QueuesPublish(now: Versions, since: Versions, durable: Versions, cloud: Versions,
                      inflight: map<Inum, Sync>, dirty: Versions, acked: Versions, staged: Versions)
    requires Queued(now, since, durable, cloud, inflight, dirty, acked) && Replaces(staged, durable, cloud)
    requires durable.Keys <= since.Keys
    ensures Queued(now, since, durable, cloud + staged, inflight, dirty, acked)
  {
  }

  /** Publishing replaces cloud versions only of inodes replay would reload. */
  lemma PublishSafe(st: State)
    requires Inv(st) && st.pass.Drained?
    ensures Safe(AfterPublish(st))
  {
    hide Last, From, PointOf, LastCommit, CommitsBackward, Accounted, Queued, TailInFlight;
    var st' := AfterPublish(st);
    var j, p := st.journal, st.Point();
    forall n | st.synced <= n <= |st.LastFile()|
      ensures Covered(Cut(j, n), st.born, PointOf(Cut(j, n)), st'.Checkpoint())
    {
      assert Covered(Cut(j, n), st.born, PointOf(Cut(j, n)), st.Checkpoint());
      assert PointOf(Cut(j, n)) == p;
      CutKeys(j, st.synced, n, p);
      assert Replaces(st.pass.staged, Last(From(Cut(j, n), p)), st.Checkpoint());
    }
  }

  lemma KeepsWriteCommit(st: State)
    requires Inv(st) && st.pass.Published?
    ensures Inv(AfterWriteCommit(st))
  {
    hide Last, From, PointOf, LastCommit, Accounted, Queued;
    var st' := AfterWriteCommit(st);
    var r := Commit(st.pass.mark);
    CutPushed(st.journal, r, st.synced);
    CommitsBackwardPush(st.journal, r);
    LastOfPush(st.journal, r, st.born);
    LastOfPush(st.journal, r, st.Point());
    LastOfPush(st.journal, r, st.pass.mark);
    CommitCuts(st);
    hide CommitsBackward, Covered;
    assert TailInFlight(st');
  }

  lemma CommitCuts(st: State)
    requires Inv(st) && st.pass.Published?
    ensures var st' := AfterWriteCommit(st);
      Shaped(st') && Safe(st')
      && PointOf(st'.journal) == st.pass.mark
      && forall n :: st.synced <= n <= |st.LastFile()| + 1 ==>
           PointOf(Cut(st'.journal, n)) == if n <= |st.LastFile()| then st.Point() else st.pass.mark
  {
    hide Last, From, PointOf, LastCommit, Accounted, Queued, CommitsBackward, TailInFlight;
    var j, r, last := st.journal, Commit(st.pass.mark), |st.LastFile()|;
    PointOfPush(j, r);
    CoveredPush(j, st.born, st.pass.mark, st.Checkpoint(), r);
    hide Covered;
    forall n | st.synced <= n <= last + 1
      ensures PointOf(Cut(Push(j, r), n)) == if n <= last then st.Point() else st.pass.mark
      ensures Covered(Cut(Push(j, r), n), st.born, PointOf(Cut(Push(j, r), n)), st.Checkpoint())
    {
      if n <= last {
        CutPushed(j, r, n);
      } else {
        CutPushed(j, r, last);
      }
    }
  }

  lemma KeepsEndPass(st: State)
    requires Inv(st) && Enabled(st, EndPass) && Proper(st, EndPass)
    ensures Inv(AfterEndPass(st))
  {
    hide Last, From, PointOf, LastCommit, Covered, Accounted, Queued, CommitsBackward;
    var st' := AfterEndPass(st);
    assert Safe(st') && Steady(st');
  }

  lemma KeepsCollect(st: State, f: nat)
    requires Inv(st) && f < st.watermark
    ensures Inv(AfterCollect(st, f))
  {
    hide Last, From, PointOf, LastCommit, Covered, Accounted, Queued, CommitsBackward;
    assert Safe(AfterCollect(st, f));
  }

  // ------------------------------------------------ crash and restart

  /** The commit point left on disk by a crash. */
  lemma PointAfterCrash(st: State, n: nat)
    requires Inv(st) && st.synced <= n <= |st.LastFile()|
    ensures var j := Cut(st.journal, n);
      Covered(j, st.born, PointOf(j), st.Checkpoint())
      && FindCommit(j, st.gone) == PointOf(j)
      && ReplayFrom(j, st.gone, PointOf(j)) == From(j, PointOf(j))
      && st.Point().seg <= PointOf(j).seg
  {
    hide Last, From, PointOf, LastCommit, Accounted, Queued, TailInFlight;
    var j := Cut(st.journal, n);
    assert Covered(j, st.born, PointOf(j), st.Checkpoint());
    CommitsBackwardCut(st.journal, n);
    assert st.Point().seg <= PointOf(j).seg;
    FindsLastCommit(j, st.gone);
    ReplayWhole(j, st.gone, PointOf(j));
  }

  /** Recovery from any crash, exactly: everything journaled comes back if and
      only if a checkpoint has been published (or nothing was journaled). */
  lemma RecoveryExact(st: State, n: nat)
    requires Inv(st) && st.synced <= n <= |st.LastFile()|
    ensures Within(st.born, Cut(st.journal, n))
    ensures Restores(Cut(st.journal, n), st.gone, st.cloud, st.born)
       <==> st.cloud.Some? || Last(From(Cut(st.journal, n), st.born)) == map[]
  {
    hide Last, From, PointOf, LastCommit, FindCommit, ReplayFrom, Safe, PassOk, Accounted, Queued, Placed;
    var j := Cut(st.journal, n);
    PointAfterCrash(st, n);
    var p := PointOf(j);
    var now := Last(From(j, st.born));
    if st.cloud.Some? {
      SameVersions(j, st.born, p);
    } else if now != map[] {
      var i :| i in now;
      assert i !in Recover(j, st.gone, st.cloud);
    }
  }

  lemma SameVersions(j: Journal, p: Pos, q: Pos)
    requires Within(p, j) && Within(q, j)
    ensures forall i :: i in Last(From(j, p)) && i in Last(From(j, q)) ==>
      Last(From(j, p))[i] == Last(From(j, q))[i]
  {
    hide Last, From;
    if AtOrBefore(p, q) {
      LastFromLater(j, p, q);
    } else {
      LastFromLater(j, q, p);
    }
  }

  /** A sync that has returned survives every crash: once a checkpoint exists,
      an inode with no newer sync in progress comes back as last synced. */
  lemma AckedSurvives(st: State, n: nat, i: Inum)
    requires Inv(st) && st.cloud.Some? && st.synced <= n <= |st.LastFile()|
    requires i in st.acked && i !in st.inflight
    ensures i in Recover(Cut(st.journal, n), st.gone, st.cloud)
    ensures Recover(Cut(st.journal, n), st.gone, st.cloud)[i] == st.acked[i]
  {
    hide Last, From, PointOf, LastCommit, FindCommit, ReplayFrom, Safe, PassOk, Recover, Covered;
    var j := Cut(st.journal, n);
    RecoveryExact(st, n);
    DurableSyncSeen(st, i, st.born);
    CutWhole(st.journal);
    SameInBothCuts(st.journal, st.synced, n, st.born, i);
    assert i in Last(From(j, st.born)) && Last(From(j, st.born))[i] == st.acked[i];
  }

  lemma KeepsCrashLoaded(st: State, n: nat, v: Version)
    requires Inv(st) && st.synced <= n <= |st.LastFile()| && st.cloud.Some?
    ensures Inv(Restart(Cut(st.journal, n), st.gone, st.cloud, st.born, v))
  {
    hide Last, From, PointOf, LastCommit, FindCommit, ReplayFrom, Accounted, Queued, PassOk, TailInFlight, Safe;
    var j := Cut(st.journal, n);
    var st' := Restart(j, st.gone, st.cloud, st.born, v);
    PointAfterCrash(st, n);
    CommitsBackwardCut(st.journal, n);
    var p := PointOf(j);
    SeenFromNewFile(j, st.born);
    SeenFromNewFile(j, p);
    SameVersions(j, st.born, p);
    LoadedPlaced(st, n, st');
    LoadedQueues(j, st.born, p, st.Checkpoint());
    assert PassOk(st') && TailInFlight(st') && Safe(st') by { LoadedSafe(st'); }
  }

  lemma LoadedPlaced(st: State, n: nat, st': State)
    requires Inv(st) && st.synced <= n <= |st.LastFile()|
    requires st'.journal == Cut(st.journal, n) + [[]] && st'.synced == 0 && st'.watermark == 0
    requires st'.gone == st.gone && st'.born == st.born
    ensures Shaped(st') && Placed(st') && st'.Durable() == st'.journal && st'.Point() == PointOf(Cut(st.journal, n))
    ensures Within(st'.born, st'.journal) && Within(st'.Point(), st'.journal)
  {
    hide Last, From, PointOf, LastCommit, FindCommit, ReplayFrom, Accounted, Queued, PassOk, TailInFlight, Safe;
    PointAfterCrash(st, n);
    CommitsBackwardCut(st.journal, n);
    SeenFromNewFile(Cut(st.journal, n), st.born);
    SeenFromNewFile(Cut(st.journal, n), PointOf(Cut(st.journal, n)));
  }

  lemma LoadedQueues(j: Journal, born: Pos, p: Pos, cloud: Versions)
    requires Covered(j, born, p, cloud)
    requires forall i :: i in Last(From(j, born)) && i in Last(From(j, p)) ==> Last(From(j, born))[i] == Last(From(j, p))[i]
    ensures Accounted(Last(From(j, born)), cloud, Last(From(j, p)), map[])
    ensures Queued(Last(From(j, born)), Last(From(j, p)), Last(From(j, p)), cloud, map[], Last(From(j, p)), Last(From(j, born)))
  {
    hide Last, From;
  }

  /** With nothing unsynced there is one thing a crash can leave. */
  lemma LoadedSafe(st: State)
    requires Shaped(st) && Placed(st) && st.synced == |st.LastFile()| && st.pass.Idle? && Within(st.born, st.journal)
    requires Covered(st.journal, st.born, PointOf(st.journal), st.Checkpoint())
    ensures Safe(st) && TailInFlight(st) && PassOk(st)
  {
    hide Last, From, PointOf, LastCommit, Covered;
    CutWhole(st.journal);
  }

  /** Start-up without a checkpoint: a new history begins behind whatever the
      journal still holds. */
  lemma KeepsCrashFresh(st: State, n: nat, v: Version)
    requires Inv(st) && st.synced <= n <= |st.LastFile()| && st.cloud.None?
    ensures Inv(Restart(Cut(st.journal, n), st.gone, st.cloud, st.born, v))
  {
    hide Last, From, PointOf, LastCommit, FindCommit, ReplayFrom, Accounted, Queued, PassOk, TailInFlight, Safe;
    var j := Cut(st.journal, n);
    var st' := Restart(j, st.gone, st.cloud, st.born, v);
    FreshPlaced(st, n, st', [Inode(ROOT, v)]);
    FreshVersions(j, v);
    CutWhole(st'.journal);
    LastFromLater(st'.journal, st'.Point(), st'.born);
    LoadedSafe(st');
    assert Accounted(st'.Now(), st'.View(), st'.dirty, st'.inflight) by { FreshQueues(v, st'.Since(st'.Point())); }
    assert Queued(st'.Now(), st'.Since(st'.Point()), st'.DurableSince(st'.Point()), st'.Checkpoint(), st'.inflight,
                  st'.dirty, st'.acked)
      by { FreshQueues(v, st'.Since(st'.Point())); }
  }

  lemma FreshVersions(j: Journal, v: Version)
    ensures Last(From(j + [[Inode(ROOT, v)]], Pos(|j|, 0))) == map[ROOT := v]
  {
    FromNewFileStart(j, [Inode(ROOT, v)]);
    LastOfNext([], Inode(ROOT, v));
    assert [] + [Inode(ROOT, v)] == [Inode(ROOT, v)];
  }

  lemma FreshQueues(v: Version, since: Versions)
    requires ROOT in since
    ensures Accounted(map[ROOT := v], map[], map[ROOT := v], map[])
    ensures Queued(map[ROOT := v], since, since, map[], map[], map[ROOT := v], map[ROOT := v])
  {
  }

  lemma FreshPlaced(st: State, n: nat, st': State, f: seq<Rec>)
    requires Inv(st) && st.synced <= n <= |st.LastFile()|
    requires forall k :: 0 <= k < |f| ==> !f[k].Commit?
    requires st'.journal == Cut(st.journal, n) + [f] && st'.synced == |f| && st'.watermark == 0
    requires st'.gone == st.gone && st'.born == Pos(|st.journal|, 0)
    ensures Shaped(st') && Placed(st') && st'.Durable() == st'.journal
    ensures st'.Point() == PointOf(Cut(st.journal, n)) == PointOf(st'.journal)
    ensures Within(st'.born, st'.journal) && Within(st'.Point(), st'.journal) && AtOrBefore(st'.Point(), st'.born)
  {
    hide Last, From, PointOf, LastCommit, FindCommit, ReplayFrom, Accounted, Queued, PassOk, TailInFlight, Safe;
    var j := Cut(st.journal, n);
    PointAfterCrash(st, n);
    CommitsBackwardCut(st.journal, n);
    PointOfNewFile(j, f);
    CommitsBackwardNewFile(j, f);
    CutWhole(j + [f]);
  }

  lemma {:induction false} NoCommits(recs: seq<Rec>)
    requires forall k :: 0 <= k < |recs| ==> !recs[k].Commit?
    ensures LastCommit(recs) == None
  {
    if recs != [] {
      NoCommits(recs[..|recs| - 1]);
    }
  }

  lemma PointOfNewFile(j: Journal, f: seq<Rec>)
    requires j != [] && forall k :: 0 <= k < |f| ==> !f[k].Commit?
    ensures PointOf(j + [f]) == PointOf(j)
  {
    FromNewFile(j, f, START);
    CommitOfConcat(All(j), f);
    NoCommits(f);
  }

  lemma CommitsBackwardNewFile(j: Journal, f: seq<Rec>)
    requires CommitsBackward(j) && forall k :: 0 <= k < |f| ==> !f[k].Commit?
    ensures CommitsBackward(j + [f])
  {
  }

  // ------------------------------------------------ every run

  lemma InitHolds(root: Version)
    ensures Inv(Init(root))
  {
    var st := Init(root);
    FreshVersions([], root);
    assert [] + [[Inode(ROOT, root)]] == st.journal;
    CutWhole(st.journal);
    var all := All(st.journal);
    assert all == [Inode(ROOT, root)] by { FromNewFileStart([], [Inode(ROOT, root)]); }
    NoCommits(all);
    hide Last, From, LastCommit;
    LoadedSafe(st);
  }

  lemma StepKeeps(st: State, step: Step)
    requires Inv(st) && Enabled(st, step) && Proper(st, step)
    ensures Inv(Next(st, step))
  {
    hide Placed, Safe, PassOk, Accounted, Queued, TailInFlight, Last, From;
    match step
    case Write(i, v) => KeepsWrite(st, i, v);
    case Fsync => KeepsFsync(st);
    case Rotate => KeepsRotate(st);
    case Finish(i) => KeepsFinish(st, i);
    case BeginPass => KeepsBeginPass(st);
    case ReadSequence => KeepsReadSequence(st);
    case DrainOne(i) => KeepsDrainOne(st, i);
    case EndDrain => KeepsEndDrain(st);
    case Publish => KeepsPublish(st);
    case WriteCommit => KeepsWriteCommit(st);
    case EndPass => KeepsEndPass(st);
    case Collect(f) => KeepsCollect(st, f);
    case Crash(n, v) =>
      if st.cloud.Some? {
        KeepsCrashLoaded(st, n, v);
      } else {
        KeepsCrashFresh(st, n, v);
      }
  }

  /** A run is a list of steps, each proper where it is taken. */
  ghost predicate Runs(st: State, steps: seq<Step>, end: State)
    decreases |steps|
  {
    if steps == [] then st == end
    else
      Shaped(st) && Enabled(st, steps[0]) && Proper(st, steps[0]) && Runs(Next(st, steps[0]), steps[1..], end)
  }

  lemma {:induction false} RunKeeps(st: State, steps: seq<Step>, end: State)
    requires Inv(st) && Runs(st, steps, end)
    ensures Inv(end)
    decreases |steps|
  {
    if steps != [] {
      StepKeeps(st, steps[0]);
      RunKeeps(Next(st, steps[0]), steps[1..], end);
    }
  }

  /** Recovery safety over every run: from a new file system, through any number
      of steps and crashes, a crash that keeps any prefix of the unsynced tail
      is recovered from completely, exactly when a checkpoint was published. */
  lemma RecoverySafe(root: Version, steps: seq<Step>, end: State, n: nat)
    requires Runs(Init(root), steps, end)
    requires end.journal != [] ==> end.synced <= n <= |end.LastFile()|
    ensures Shaped(end) && Within(end.born, Cut(end.journal, n))
    ensures Restores(Cut(end.journal, n), end.gone, end.cloud, end.born)
       <==> end.cloud.Some? || Last(From(Cut(end.journal, n), end.born)) == map[]
  {
    InitHolds(root);
    RunKeeps(Init(root), steps, end);
    RecoveryExact(end, n);
  }
}
