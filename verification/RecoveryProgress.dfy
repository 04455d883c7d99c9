/** That the protocol gets anywhere: from every state between two flush passes,
    the syncs in progress can finish and a whole pass can run.  It leaves nothing
    waiting, the cloud up to date, and every older journal file free to go. */
module RecoveryProgress {
  import opened Options
  import opened JournalRecords
  import opened Recovery
  import opened RecoverySafety
  import opened RecoveryLimits

  /** All that finishing syncs leaves alone. */
  predicate SameButLists(st: State, st': State) {
    && st'.journal == st.journal && st'.synced == st.synced && st'.gone == st.gone
    && st'.watermark == st.watermark && st'.cloud == st.cloud && st'.born == st.born
  }

  lemma {:induction false} FinishAll(st: State) returns (steps: seq<Step>, end: State)
    requires Shaped(st) && forall i :: i in st.inflight ==> st.inflight[i].durable
    ensures Runs(st, steps, end) && SameButLists(st, end) && end.pass == st.pass
    ensures end.inflight == map[]
    decreases |st.inflight|
  {
    hide Runs;
    TakenNone(st);
    if st.inflight == map[] {
      return [], st;
    }
    var i :| i in st.inflight;
    var next := AfterFinish(st, i);
    FewerKeys(st.inflight, i);
    var rest;
    rest, end := FinishAll(next);
    RunsFirst(st, Finish(i), rest, end);
    steps := [Finish(i)] + rest;
  }

  lemma FewerKeys<V>(m: map<Inum, V>, i: Inum)
    requires i in m
    ensures |m - {i}| < |m|
  {
    assert (m - {i}).Keys == m.Keys - {i};
    assert |m - {i}| == |(m - {i}).Keys| && |m| == |m.Keys|;
  }

  lemma {:induction false} DrainAll(st: State) returns (steps: seq<Step>, end: State)
    requires Shaped(st) && st.pass.Draining?
    ensures Runs(st, steps, end) && SameButLists(st, end) && end.inflight == st.inflight
    ensures end.dirty == map[] && end.pass.Draining?
    ensures end.pass.mark == st.pass.mark && end.pass.seqStart == st.pass.seqStart
    decreases |st.dirty|
  {
    hide Runs;
    TakenNone(st);
    if st.dirty == map[] {
      return [], st;
    }
    var i :| i in st.dirty;
    var next := AfterDrainOne(st, i);
    FewerKeys(st.dirty, i);
    var rest;
    rest, end := DrainAll(next);
    RunsFirst(st, DrainOne(i), rest, end);
    steps := [DrainOne(i)] + rest;
  }

  /** A sync of the journal, and then every sync in progress finishes. */
  lemma Settle(st: State) returns (steps: seq<Step>, end: State)
    requires Inv(st)
    ensures Runs(st, steps, end) && Shaped(end) && end.inflight == map[]
    ensures end.pass == st.pass && end.journal == st.journal && end.born == st.born
  {
    hide Runs, Placed, Safe, PassOk, Accounted, Queued, TailInFlight, Last, From;
    var synced := AfterFsync(st);
    var rest;
    rest, end := FinishAll(synced);
    RunsFirst(st, Fsync, rest, end);
    steps := [Fsync] + rest;
  }

  /** From the marker to the end of the drain. */
  lemma MarkAndDrain(st: State) returns (steps: seq<Step>, end: State)
    requires Inv(st) && st.pass.Idle? && st.inflight == map[]
    ensures Runs(st, steps, end) && Shaped(end) && end.inflight == map[] && end.dirty == map[]
    ensures end.journal == Push(st.journal, Marker) && end.born == st.born && end.pass.Draining?
    ensures end.pass.mark == End(st.journal) && end.pass.seqStart == |st.journal| - 1
  {
    hide Runs, Placed, Safe, PassOk, Accounted, Queued, TailInFlight, Last, From;
    var s1 := AfterBeginPass(st);
    var s2 := AfterReadSequence(s1);
    assert s1.inflight == map[];
    var rest;
    rest, end := DrainAll(s2);
    RunsFirst(s1, ReadSequence, rest, end);
    RunsFirst(st, BeginPass, [ReadSequence] + rest, end);
    steps := [BeginPass] + ([ReadSequence] + rest);
  }

  const CLOSING: seq<Step> := [EndDrain] + ([Publish] + ([WriteCommit] + ([Fsync] + [])))

  /** From there to the commit record on disk. */
  lemma PublishAndCommit(st: State) returns (end: State)
    requires Inv(st) && st.pass.Draining? && st.dirty == map[] && st.inflight == map[]
    ensures Runs(st, CLOSING, end) && Shaped(end) && end.synced == |end.LastFile()|
    ensures end.journal == Push(st.journal, Commit(st.pass.mark)) && end.born == st.born
    ensures end.pass == Committing(st.pass.mark, st.pass.seqStart) && end.dirty == map[] && end.inflight == map[]
  {
    hide Last, From, PointOf, Runs, Inv;
    MarkWithin(st);
    var s1 := AfterEndDrain(st);
    var s2 := AfterPublish(s1);
    var s3 := AfterWriteCommit(s2);
    end := AfterFsync(s3);
    TakenNone(end);
    RunsFirst(s3, Fsync, [], end);
    RunsFirst(s2, WriteCommit, [Fsync] + [], end);
    RunsFirst(s1, Publish, [WriteCommit] + ([Fsync] + []), end);
    RunsFirst(st, EndDrain, [Publish] + ([WriteCommit] + ([Fsync] + [])), end);
  }

  lemma CommitSeen(st: State)
    requires Inv(st) && st.pass.Committing? && st.synced == |st.LastFile()|
    ensures Shaped(st) && st.Point() == st.pass.mark
  {
    hide Last, From, PointOf, Placed, Safe, Accounted, Queued, TailInFlight;
    CutWhole(st.journal);
  }

  lemma NowStays(j: Journal, r: Rec, born: Pos)
    requires j != [] && Within(born, j) && !r.Inode?
    ensures Within(born, Push(j, r)) && Last(From(Push(j, r), born)) == Last(From(j, born))
  {
    hide Last, From;
    LastOfPush(j, r, born);
  }

  /** What is in the cloud when nothing waits. */
  lemma NothingWaiting(st: State)
    requires Inv(st) && st.pass.Idle? && st.dirty == map[] && st.inflight == map[]
    ensures Within(st.born, st.journal)
    ensures forall i :: i in st.Now() ==> Held(st.Checkpoint(), i, st.Now()[i])
  {
    hide Last, From, PointOf, Placed, Safe, PassOk, Queued, TailInFlight;
  }

  /** From every state between two passes there is a run that finishes every sync
      and goes through a whole pass: then nothing waits, the cloud has the last
      journaled version of every inode, the next pass may begin, and every file
      before the one the log was in may be deleted. */
  lemma PassReclaims(st: State) returns (steps: seq<Step>, end: State)
    requires Inv(st) && st.pass.Idle?
    ensures Runs(st, steps, end) && Inv(end) && Within(st.born, st.journal)
    ensures end.dirty == map[] && end.inflight == map[] && Enabled(end, BeginPass)
    ensures forall i :: i in st.Now() ==> Held(end.Checkpoint(), i, st.Now()[i])
    ensures forall f :: 0 <= f < |st.journal| - 1 ==> Enabled(end, Collect(f))
  {
    hide Last, From, PointOf, Runs, Placed, Safe, PassOk, Accounted, Queued, TailInFlight;
    var first, settled := Settle(st);
    RunKeeps(st, first, settled);
    var second, drained := MarkAndDrain(settled);
    RunKeeps(settled, second, drained);
    var committed := PublishAndCommit(drained);
    RunKeeps(drained, CLOSING, committed);
    CommitSeen(committed);
    end := AfterEndPass(committed);
    TakenNone(end);
    RunsFirst(committed, EndPass, [], end);
    RunsConcat(drained, CLOSING, committed, [EndPass] + [], end);
    RunsConcat(settled, second, drained, CLOSING + ([EndPass] + []), end);
    RunsConcat(st, first, settled, second + (CLOSING + ([EndPass] + [])), end);
    steps := first + (second + (CLOSING + ([EndPass] + [])));
    RunKeeps(st, steps, end);
    NowStays(settled.journal, Marker, st.born);
    NowStays(drained.journal, Commit(drained.pass.mark), st.born);
    NothingWaiting(end);
  }

  /** So it is at every such point of every run. */
  lemma EveryPassCanEnd(root: Version, before: seq<Step>, st: State) returns (steps: seq<Step>, end: State)
    requires Runs(Init(root), before, st) && st.pass.Idle?
    ensures Runs(Init(root), before + steps, end) && Shaped(end) && Within(st.born, st.journal)
    ensures end.dirty == map[] && end.inflight == map[] && Enabled(end, BeginPass)
    ensures forall i :: i in st.Now() ==> Held(end.Checkpoint(), i, st.Now()[i])
    ensures forall f :: 0 <= f < |st.journal| - 1 ==> Enabled(end, Collect(f))
  {
    hide Last, From, PointOf, Runs, Placed, Safe, PassOk, Accounted, Queued, TailInFlight;
    InitHolds(root);
    RunKeeps(Init(root), before, st);
    steps, end := PassReclaims(st);
    RunsConcat(Init(root), before, st, steps, end);
  }
}
