/** The flush protocol as a state machine: inodes are synced to the journal,
    a flush pass copies dirty inodes to the cloud and then writes a commit point,
    old journal files are deleted, and the proxy may crash at any moment.  Every
    run keeps the journal and the newest cloud checkpoint together sufficient to
    restore the last journaled version of every inode. */
module Recovery {
  import opened Options
  import opened JournalRecords

  /** A sync whose record is written; `durable` once it reached the disk. */
  datatype Sync = Sync(version: Version, durable: bool)

  /** Where the flush pass stands.  `mark` is the position of its journal
      marker, `seqStart` the file number read some time after the marker. */
  datatype Pass =
    | Idle
    | Marking(mark: Pos)
    | Draining(mark: Pos, seqStart: nat, staged: Versions)
    | Drained(mark: Pos, seqStart: nat, staged: Versions)
    | Published(mark: Pos, seqStart: nat)
    | Committing(mark: Pos, seqStart: nat)

  datatype State = State(
    journal: Journal,           // every file ever written, deleted ones included
    synced: nat,                // records of the last file known to be on disk
    gone: set<nat>,             // files deleted so far
    watermark: nat,             // files below it may be deleted
    inflight: map<Inum, Sync>,  // syncs in progress
    dirty: Versions,            // the dirty list: synced, not yet sent to the cloud
    cloud: Option<Versions>,    // the newest published checkpoint
    pass: Pass,
    born: Pos,                  // where this file system's history begins
    acked: Versions)            // history: the last version of each inode known safe
  {
    function LastFile(): (f: seq<Rec>)
      requires journal != []
    {
      Newest(journal)
    }

    /** The part of the journal a crash cannot take away. */
    function Durable(): (j: Journal)
      requires journal != [] && synced <= |LastFile()|
    {
      Cut(journal, synced)
    }

    function Point(): (p: Pos)
      requires journal != [] && synced <= |LastFile()|
    {
      PointOf(Durable())
    }

    /** The last version of each inode in the journal. */
    function Now(): (m: Versions)
      requires Within(born, journal)
    {
      Last(From(journal, born))
    }

    function Since(p: Pos): (m: Versions)
      requires Within(p, journal)
    {
      Last(From(journal, p))
    }

    function DurableSince(p: Pos): (m: Versions)
      requires journal != [] && synced <= |LastFile()| && Within(p, Durable())
    {
      Last(From(Durable(), p))
    }

    function Checkpoint(): (m: Versions) {
      if cloud.Some? then cloud.value else map[]
    }

    /** What the cloud will hold once the current pass has published. */
    function View(): (m: Versions) {
      if pass.Draining? || pass.Drained? then Checkpoint() + pass.staged else Checkpoint()
    }
  }

  datatype Step =
    | Write(inum: Inum, version: Version)
    | Fsync
    | Rotate
    | Finish(inum: Inum)
    | BeginPass
    | ReadSequence
    | DrainOne(inum: Inum)
    | EndDrain
    | Publish
    | WriteCommit
    | EndPass
    | Collect(file: nat)
    | Crash(kept: nat, root: Version)

  const ROOT: Inum := 1

  function AllDurable(inflight: map<Inum, Sync>): (r: map<Inum, Sync>)
    ensures r.Keys == inflight.Keys
    ensures forall i :: i in r ==> r[i] == Sync(inflight[i].version, true)
  {
    map i | i in inflight :: Sync(inflight[i].version, true)
  }

  predicate Shaped(st: State) {
    st.journal != [] && st.synced <= |st.LastFile()|
  }

  /** A set of versions has this one. */
  predicate Held(m: Versions, i: Inum, v: Version) {
    i in m && m[i] == v
  }

  /** When the program can take a step. */
  predicate Enabled(st: State, step: Step)
    requires Shaped(st)
  {
    match step
    case Write(i, v) => i !in st.inflight
    case Fsync => true
    case Rotate => true
    case Finish(i) => i in st.inflight && st.inflight[i].durable
    case BeginPass => st.pass.Idle?
    case ReadSequence => st.pass.Marking?
    case DrainOne(i) => st.pass.Draining? && i in st.dirty
    case EndDrain => st.pass.Draining? && st.dirty == map[]
    case Publish => st.pass.Drained?
    case WriteCommit => st.pass.Published?
    case EndPass => st.pass.Committing? && st.Point() == st.pass.mark
    case Collect(f) => f < st.watermark
    case Crash(n, v) => st.synced <= n <= |st.LastFile()|
  }

  /** What the program relies on and does not check: at the end of the drain no
      sync whose record lies before the marker is still in progress, unless its
      version is already on the way to the cloud; and the file number was read
      while the log was still in the marker's file. */
  predicate Proper(st: State, step: Step)
    requires Shaped(st) && Enabled(st, step)
  {
    match step
    case EndDrain =>
      && Within(st.pass.mark, st.journal)
      && (forall i :: i in st.inflight ==>
            i in Last(From(st.journal, st.pass.mark)) || Held(st.View(), i, st.inflight[i].version))
    case EndPass => st.pass.seqStart <= st.pass.mark.seg
    case _ => true
  }

  // One function per step.

  function AfterWrite(st: State, i: Inum, v: Version): (st': State)
    requires Shaped(st)
  {
    st.(journal := Push(st.journal, Inode(i, v)), inflight := st.inflight[i := Sync(v, false)])
  }

  function AfterFsync(st: State): (st': State)
    requires Shaped(st)
  {
    st.(synced := |st.LastFile()|, inflight := AllDurable(st.inflight))
  }

  /** The old file is synced before the next one is opened. */
  function AfterRotate(st: State): (st': State)
    requires Shaped(st)
  {
    st.(journal := st.journal + [[]], synced := 0, inflight := AllDurable(st.inflight))
  }

  function AfterFinish(st: State, i: Inum): (st': State)
    requires i in st.inflight
  {
    var v := st.inflight[i].version;
    st.(inflight := st.inflight - {i}, dirty := st.dirty[i := v], acked := st.acked[i := v])
  }

  /** The marker is on disk when the pass begins. */
  function AfterBeginPass(st: State): (st': State)
    requires Shaped(st)
  {
    st.(journal := Push(st.journal, Marker), synced := |st.LastFile()| + 1,
        inflight := AllDurable(st.inflight),
        pass := Marking(End(st.journal)))
  }

  /** The number of the file the log is in by then. */
  function AfterReadSequence(st: State): (st': State)
    requires Shaped(st) && st.pass.Marking?
  {
    st.(pass := Draining(st.pass.mark, |st.journal| - 1, map[]))
  }

  function AfterDrainOne(st: State, i: Inum): (st': State)
    requires st.pass.Draining? && i in st.dirty
  {
    st.(dirty := st.dirty - {i},
        pass := Draining(st.pass.mark, st.pass.seqStart, st.pass.staged[i := st.dirty[i]]))
  }

  function AfterEndDrain(st: State): (st': State)
    requires st.pass.Draining?
  {
    st.(pass := Drained(st.pass.mark, st.pass.seqStart, st.pass.staged))
  }

  /** With nothing in the inode map, no checkpoint is written. */
  function AfterPublish(st: State): (st': State)
    requires st.pass.Drained?
  {
    st.(cloud := if st.cloud.None? && st.pass.staged == map[] then None else Some(st.View()),
        pass := Published(st.pass.mark, st.pass.seqStart))
  }

  function AfterWriteCommit(st: State): (st': State)
    requires Shaped(st) && st.pass.Published?
  {
    st.(journal := Push(st.journal, Commit(st.pass.mark)),
        pass := Committing(st.pass.mark, st.pass.seqStart))
  }

  function AfterEndPass(st: State): (st': State)
    requires st.pass.Committing?
  {
    st.(watermark := st.pass.seqStart, pass := Idle)
  }

  function AfterCollect(st: State, f: nat): (st': State) {
    st.(gone := st.gone + {f})
  }

  function Next(st: State, step: Step): (st': State)
    requires Shaped(st) && Enabled(st, step)
  {
    match step
    case Write(i, v) => AfterWrite(st, i, v)
    case Fsync => AfterFsync(st)
    case Rotate => AfterRotate(st)
    case Finish(i) => AfterFinish(st, i)
    case BeginPass => AfterBeginPass(st)
    case ReadSequence => AfterReadSequence(st)
    case DrainOne(i) => AfterDrainOne(st, i)
    case EndDrain => AfterEndDrain(st)
    case Publish => AfterPublish(st)
    case WriteCommit => AfterWriteCommit(st)
    case EndPass => AfterEndPass(st)
    case Collect(f) => AfterCollect(st, f)
    case Crash(n, v) => Restart(Cut(st.journal, n), st.gone, st.cloud, st.born, v)
  }

  /** Start-up after a crash.  A checkpoint in the cloud is loaded and the journal
      replayed over it, which puts every replayed inode on the dirty list.
      Without a checkpoint a new, empty file system is made. */
  function Restart(j: Journal, gone: set<nat>, cloud: Option<Versions>, born: Pos, root: Version): (st: State)
    requires j != []
  {
    if cloud.Some? then
      var p := FindCommit(j, gone);
      var replayed := if Within(p, j) then Last(ReplayFrom(j, gone, p)) else map[];
      State(j + [[]], 0, gone, 0, map[], replayed, cloud, Idle, born,
            if Within(born, j) then Last(From(j, born)) else map[])
    else
      State(j + [[Inode(ROOT, root)]], 1, gone, 0, map[], map[ROOT := root], None, Idle,
            Pos(|j|, 0), map[ROOT := root])
  }

  /** A new file system: the root directory has been created and synced. */
  function Init(root: Version): (st: State) {
    State([[Inode(ROOT, root)]], 1, {}, 0, map[], map[ROOT := root], None, Idle, START, map[ROOT := root])
  }

  // ------------------------------------------------ what start-up restores

  /** The inode versions start-up finds on a given disk and in the cloud. */
  function Recover(j: Journal, gone: set<nat>, cloud: Option<Versions>): (m: Versions)
  {
    if cloud.None? then map[]
    else
      var p := FindCommit(j, gone);
      cloud.value + if Within(p, j) then Last(ReplayFrom(j, gone, p)) else map[]
  }

  /** Every inode journaled since the file system was made comes back at its last
      journaled version. */
  ghost predicate Restores(j: Journal, gone: set<nat>, cloud: Option<Versions>, born: Pos)
    requires Within(born, j)
  {
    forall i :: i in Last(From(j, born)) ==>
      i in Recover(j, gone, cloud) && Recover(j, gone, cloud)[i] == Last(From(j, born))[i]
  }

  // ------------------------------------------------ the invariant

  /** Inodes that replay from `p` would miss are in the cloud as last journaled. */
  ghost predicate Covered(j: Journal, born: Pos, p: Pos, cloud: Versions) {
    && Within(born, j) && Within(p, j)
    && forall i :: i in Last(From(j, born)) && i !in Last(From(j, p)) ==>
         i in cloud && cloud[i] == Last(From(j, born))[i]
  }

  /** However much of the unsynced tail survives a crash, the commit point found
      in what is left is good. */
  ghost predicate Safe(st: State)
    requires Shaped(st)
  {
    forall n :: st.synced <= n <= |st.LastFile()| ==>
      Covered(Cut(st.journal, n), st.born, PointOf(Cut(st.journal, n)), st.Checkpoint())
  }

  /** Records a crash may take away belong to syncs that have not returned. */
  ghost predicate TailInFlight(st: State)
    requires Shaped(st)
  {
    forall k :: st.synced <= k < |st.LastFile()| && st.LastFile()[k].Inode? ==>
      var i := st.LastFile()[k].inum; i in st.inflight && !st.inflight[i].durable
  }

  /** No commit record is waiting to reach the disk. */
  ghost predicate Steady(st: State)
    requires Shaped(st)
  {
    forall n :: st.synced <= n <= |st.LastFile()| ==> PointOf(Cut(st.journal, n)) == st.Point()
  }

  ghost predicate Placed(st: State)
    requires Shaped(st)
  {
    && Within(st.born, st.Durable())
    && |st.Durable()[0]| > 0
    && CommitsBackward(st.journal)
    && Within(st.Point(), st.Durable())
    && st.watermark <= st.Point().seg
    && (forall n :: n in st.gone ==> n < st.Point().seg)
  }

  /** Every journaled inode is on its way to the cloud, or there already. */
  ghost predicate Accounted(now: Versions, view: Versions, dirty: Versions, inflight: map<Inum, Sync>) {
    forall i :: i in now && i !in dirty && i !in inflight ==> i in view && view[i] == now[i]
  }

  /** Syncs in progress are for the newest versions, and they and the dirty list
      lie behind the commit point or are in the cloud. */
  ghost predicate Queued(now: Versions, since: Versions, durable: Versions, cloud: Versions,
                         inflight: map<Inum, Sync>, dirty: Versions, acked: Versions) {
    && (forall i :: i in inflight ==>
          i in now && now[i] == inflight[i].version && (i in since || Held(cloud, i, inflight[i].version)))
    && (forall i :: i in dirty ==>
          (i in durable || Held(cloud, i, dirty[i])) && (i in now && i !in inflight ==> dirty[i] == now[i]))
    && (forall i :: i in acked ==> i in now && (i in inflight || acked[i] == now[i]))
  }

  /** What is on its way to the cloud lies behind the commit point or is there
      already. */
  ghost predicate Replaces(staged: Versions, durable: Versions, cloud: Versions) {
    forall i :: i in staged ==> i in durable || Held(cloud, i, staged[i])
  }

  ghost predicate Marked(st: State, mark: Pos)
    requires Shaped(st)
  {
    && Within(mark, st.Durable())
    && mark != START
    && AtOrBefore(st.Point(), mark)
  }

  /** Nothing from before the marker is still waiting that the cloud will not
      hold. */
  ghost predicate PastMark(since: Versions, durable: Versions, view: Versions,
                           inflight: map<Inum, Sync>, dirty: Versions) {
    && (forall i :: i in inflight ==> i in since || Held(view, i, inflight[i].version))
    && (forall i :: i in dirty ==> i in durable || Held(view, i, dirty[i]))
  }

  ghost predicate PassOk(st: State)
    requires Shaped(st) && Placed(st) && Within(st.born, st.journal)
  {
    match st.pass
    case Idle => Steady(st)
    case Marking(mark) => Steady(st) && Marked(st, mark)
    case Draining(mark, s, staged) =>
      Steady(st) && Marked(st, mark) && Replaces(staged, st.DurableSince(st.Point()), st.Checkpoint())
    case Drained(mark, s, staged) =>
      && Steady(st) && Marked(st, mark) && Replaces(staged, st.DurableSince(st.Point()), st.Checkpoint())
      && Within(mark, st.journal) && PastMark(st.Since(mark), st.DurableSince(mark), st.View(), st.inflight, st.dirty)
      && Covered(st.journal, st.born, mark, st.View())
    case Published(mark, s) =>
      && Steady(st) && Marked(st, mark)
      && Within(mark, st.journal) && PastMark(st.Since(mark), st.DurableSince(mark), st.View(), st.inflight, st.dirty)
      && Covered(st.journal, st.born, mark, st.Checkpoint())
    case Committing(mark, s) =>
      && Marked(st, mark)
      && Within(mark, st.journal) && PastMark(st.Since(mark), st.DurableSince(mark), st.View(), st.inflight, st.dirty)
      && PointOf(st.journal) == mark
      && forall n :: st.synced <= n <= |st.LastFile()| ==>
           PointOf(Cut(st.journal, n)) == st.Point() || PointOf(Cut(st.journal, n)) == mark
  }

  ghost predicate Inv(st: State) {
    && Shaped(st)
    && Placed(st)
    && Within(st.born, st.journal)
    && Within(st.Point(), st.journal)
    && Safe(st)
    && TailInFlight(st)
    && Accounted(st.Now(), st.View(), st.dirty, st.inflight)
    && Queued(st.Now(), st.Since(st.Point()), st.DurableSince(st.Point()), st.Checkpoint(), st.inflight, st.dirty, st.acked)
    && PassOk(st)
  }
}
