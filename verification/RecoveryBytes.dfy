/** The flush protocol and the bytes on disk together: what a crash leaves in the
    journal files, replayed over the checkpoint, is the last version of every
    inode that was journaled. */
module RecoveryBytes {
  import opened Bytes
  import opened Options
  import opened JournalRecords
  import J = Journal
  import B = JournalReplay
  import opened JournalBridge
  import opened Recovery
  import opened RecoverySafety

  /** After any run from a new file system and any crash: replaying the bytes of
      the files that are left gives back every inode record at its last journaled
      version, once a checkpoint exists. */
  lemma CrashReplaysBytes(root: Version, steps: seq<Step>, end: State, n: nat,
                          files: map<nat, Bytes>, names: seq<nat>, segs: seq<seq<J.Item>>, ver: Reading)
    requires Runs(Init(root), steps, end) && end.cloud.Some?
    requires Shaped(end) && end.synced <= n <= |end.LastFile()| && JournalStands(segs, Cut(end.journal, n), ver)
    requires B.Directory(files, segs, end.gone) && B.InOrder(files, names)
    ensures Within(end.born, Cut(end.journal, n))
    ensures var p := B.FindCommit(B.Contents(files, names));
      var found := end.cloud.value + Read(LastPayload(B.Forward(files, p.seqNum, p.offset)), ver);
      var last := Last(From(Cut(end.journal, n), end.born));
      forall i :: i in last ==> i in found && found[i] == last[i]
  {
    hide Runs, Last, From, PointOf, FindCommit, ReplayFrom, B.FindCommit, B.Forward, LastPayload, Read, JournalStands,
      B.Directory, B.InOrder, Safe, TailInFlight, Accounted, Queued, PassOk, Covered;
    InitHolds(root);
    RunKeeps(Init(root), steps, end);
    var j := Cut(end.journal, n);
    RecoveryExact(end, n);
    PointAfterCrash(end, n);
    CommitsBackwardCut(end.journal, n);
    FilesPresent(segs, j, ver);
    ByteReplayRestores(files, names, segs, end.gone, j, ver);
  }

  lemma FilesPresent(segs: seq<seq<J.Item>>, j: Journal, ver: Reading)
    requires JournalStands(segs, j, ver) && j != []
    ensures segs != []
  {
  }
}
