/** Where an item's data is: in memory, in the journal, in the cloud.  Over
    every interleaving of the threads that move it, the copy in memory is
    dropped only when another can be fetched. */
module Eviction {
  import opened Options

  /** An item: whether its data is in memory, and there mapped from the journal
      file its record is in; how many queue entries need it there; its location
      flags; its pending-write flags; the number of that file; and whether the
      sync it was journaled by has finished. */
  datatype Item = Item(
    data: bool, mapped: bool, locks: int,
    uncommitted: bool, journal: bool, cloud: bool,
    pendingJournal: bool, pendingCloud: bool,
    seg: nat, finished: bool
  )

  const NEW_ITEM := Item(true, false, 0, false, false, false, false, false, 0, false)

  /** The journal is in file `log`; files below the watermark may be deleted,
      and `gone` are.  `start` is the file number the flush pass began with.  As
      history: the items whose data the journal and the cloud were given. */
  datatype State = State(
    items: map<nat, Item>, queue: seq<nat>, written: set<nat>,
    dirty: set<nat>, start: Option<nat>,
    log: nat, watermark: nat, gone: set<nat>,
    logged: set<nat>, copied: set<nat>
  )

  const INIT := State(map[], [], {}, {}, None, 0, 0, {}, {}, {})

  datatype Step =
    | Create(x: nat)
    | Submit(x: nat)
    | LogThread
    | Commit
    | Rotate
    | Finish(x: nat)
    | BeginFlush
    | CloudWrite(x: nat)
    | CloudDone(x: nat)
    | EndFlush
    | Drop(x: nat)
    | Fetch(x: nat)
    | Collect(file: nat)

  /** A record the journal can give back. */
  predicate InJournal(i: Item, gone: set<nat>) {
    (i.journal || i.pendingJournal) && i.seg !in gone
  }

  predicate Fetchable(i: Item, gone: set<nat>) {
    InJournal(i, gone) || i.cloud
  }

  /** What lets the program drop the data of an item. */
  predicate Droppable(i: Item) {
    i.data && i.locks == 0 && (i.uncommitted || i.journal || i.cloud)
  }

  /** When the program can take a step.  A flush pass ends when the dirty list is
      empty and every segment has been written.  Data is dropped under the inode
      lock, which a sync holds until it has finished.  A file is deleted if it is
      below the watermark and no data is mapped from it. */
  predicate Enabled(s: State, step: Step) {
    match step
    case Create(x) => x !in s.items
    case Submit(x) => x in s.items && s.items[x].data
    case LogThread => s.queue != [] && s.queue[0] in s.items
    case Commit => true
    case Rotate => true
    case Finish(x) => x in s.items && s.items[x].journal && !s.items[x].finished
    case BeginFlush => s.start.None?
    case CloudWrite(x) => x in s.items
    case CloudDone(x) => x in s.items && s.items[x].pendingCloud
    case EndFlush => s.start.Some? && s.dirty == {} && forall x :: x in s.items ==> !s.items[x].pendingCloud
    case Drop(x) => x in s.items && s.items[x].finished && Droppable(s.items[x])
    case Fetch(x) => x in s.items
    case Collect(f) =>
      && f < s.watermark
      && forall x :: x in s.items ==> !(s.items[x].mapped && s.items[x].seg == f)
  }

  /** An item whose record a flush pass has left behind: its sync had not
      finished when the dirty list was found empty, and the cloud does not have
      it. */
  predicate LeftBehind(i: Item, start: nat) {
    i.journal && i.seg < start && !i.finished && !i.cloud
  }

  /** What the end of a flush pass relies on and does not check. */
  predicate Proper(s: State, step: Step)
    requires Enabled(s, step)
  {
    step.EndFlush? ==> forall x :: x in s.items ==> !LeftBehind(s.items[x], s.start.value)
  }

  /** The log thread's turn on an item: skip it if it is in the journal, write
      it otherwise; the data is mapped back from the file at once. */
  function Handled(i: Item, log: nat): (r: Item) {
    if i.journal || i.pendingJournal then i.(locks := i.locks - 1)
    else i.(pendingJournal := true, seg := log, mapped := true, locks := i.locks - 1)
  }

  function Committed(i: Item): (r: Item) {
    i.(pendingJournal := false, uncommitted := false, journal := true)
  }

  function AllCommitted(items: map<nat, Item>, written: set<nat>): (r: map<nat, Item>) {
    map x | x in items :: if x in written then Committed(items[x]) else items[x]
  }

  /** Loading from the journal if it has the record, else from the cloud, and
      then the journal is given up on. */
  function Fetched(i: Item, gone: set<nat>): (r: Item) {
    if i.data then i
    else if InJournal(i, gone) then i.(data := true, mapped := true)
    else if i.cloud then i.(data := true, mapped := false, journal := false)
    else i
  }

  /** The flush passes over an item that the cloud has or is being given. */
  predicate SentBefore(i: Item) {
    i.cloud || i.pendingCloud
  }

  function Next(s: State, step: Step): (r: State)
    requires Enabled(s, step)
  {
    match step
    case Create(x) => s.(items := s.items[x := NEW_ITEM])
    case Submit(x) =>
      var i := s.items[x];
      if i.journal then s
      else s.(items := s.items[x := i.(uncommitted := true, finished := false, locks := i.locks + 1)],
              queue := s.queue + [x])
    case LogThread =>
      var x := s.queue[0];
      s.(items := s.items[x := Handled(s.items[x], s.log)], queue := s.queue[1..],
         logged := if s.items[x].data then s.logged + {x} else s.logged,
         written := if s.items[x].journal || s.items[x].pendingJournal then s.written else s.written + {x})
    case Commit => s.(items := AllCommitted(s.items, s.written), written := {})
    case Rotate => s.(items := AllCommitted(s.items, s.written), written := {}, log := s.log + 1)
    case Finish(x) => s.(items := s.items[x := s.items[x].(finished := true)], dirty := s.dirty + {x})
    case BeginFlush => s.(start := Some(s.log))
    case CloudWrite(x) =>
      if SentBefore(s.items[x]) then s.(dirty := s.dirty - {x})
      else
        var i := Fetched(s.items[x], s.gone);
        s.(items := s.items[x := i.(pendingCloud := true)], dirty := s.dirty - {x},
           copied := if i.data then s.copied + {x} else s.copied)
    case CloudDone(x) => s.(items := s.items[x := s.items[x].(pendingCloud := false, cloud := true)])
    case EndFlush => s.(watermark := s.start.value, start := None)
    case Drop(x) => s.(items := s.items[x := s.items[x].(data := false, mapped := false)])
    case Fetch(x) => s.(items := s.items[x := Fetched(s.items[x], s.gone)])
    case Collect(f) => s.(gone := s.gone + {f})
  }

  // ------------------------------------------------ the invariant

  function Waiting(queue: seq<nat>, x: nat): (n: nat) {
    multiset(queue)[x]
  }

  /** What holds of an item whatever the flush passes do. */
  ghost predicate Formed(s: State, x: nat)
    requires x in s.items
  {
    var i := s.items[x];
    var waiting := Waiting(s.queue, x);
    && i.locks == waiting
    && (waiting > 0 ==> i.data)
    && (i.uncommitted ==> waiting > 0 || i.pendingJournal)
    && !(i.uncommitted && i.journal)
    && (i.pendingJournal <==> x in s.written)
    && !(i.pendingJournal && i.journal)
    && (i.mapped ==> i.data && (i.journal || i.pendingJournal))
    && (i.journal || i.pendingJournal ==> x in s.logged)
  }

  ghost predicate AllFormed(s: State) {
    && (forall x :: x in s.items ==> Formed(s, x))
    && (forall x :: x in s.queue ==> x in s.items)
    && (forall x :: x in s.written ==> x in s.items)
    && (forall x :: x in s.dirty ==> x in s.items)
  }

  /** What holds as long as flush passes end as they should. */
  ghost predicate ItemOk(s: State, x: nat)
    requires x in s.items
  {
    var i := s.items[x];
    && (!i.data ==> Fetchable(i, s.gone))
    && (i.cloud || i.pendingCloud ==> x in s.copied)
    && (i.pendingJournal ==> i.seg == s.log)
    && (i.journal ==> i.seg <= s.log)
    && (i.finished ==> x in s.dirty || i.pendingCloud || i.cloud)
    && (i.journal && i.seg < s.watermark ==> i.cloud)
    && (i.mapped ==> i.seg !in s.gone)
  }

  ghost predicate Inv(s: State) {
    && AllFormed(s)
    && AllOk(s)
    && (forall f :: f in s.gone ==> f < s.watermark)
    && s.watermark <= s.log && (s.start.Some? ==> s.watermark <= s.start.value <= s.log)
  }

  lemma Queued(queue: seq<nat>, x: nat, y: nat)
    ensures Waiting(queue + [x], y) == Waiting(queue, y) + if x == y then 1 else 0
  {
  }

  lemma Dequeued(queue: seq<nat>, y: nat)
    requires queue != []
    ensures Waiting(queue, y) == Waiting(queue[1..], y) + if queue[0] == y then 1 else 0
  {
    assert queue == [queue[0]] + queue[1..];
  }

  lemma NotWaiting(s: State, x: nat)
    requires AllFormed(s) && x !in s.items
    ensures Waiting(s.queue, x) == 0 && x !in s.written
  {
  }

  lemma StepForms(s: State, step: Step)
    requires AllFormed(s) && Enabled(s, step)
    ensures AllFormed(Next(s, step))
  {
    match step
    case Create(x) => NotWaiting(s, x);
    case Submit(x) => SubmitForms(s, x);
    case LogThread => LogThreadForms(s);
    case Commit => CommitForms(s, step);
    case Rotate => CommitForms(s, step);
    case CloudWrite(x) => FetchForms(s, step, x);
    case Fetch(x) => FetchForms(s, step, x);
    case _ => RestForms(s, step);
  }

  lemma CommitForms(s: State, step: Step)
    requires AllFormed(s) && (step.Commit? || step.Rotate?)
    ensures AllFormed(Next(s, step))
  {
    hide Waiting;
  }

  lemma FetchForms(s: State, step: Step, x: nat)
    requires AllFormed(s) && (step == CloudWrite(x) || step == Fetch(x)) && x in s.items
    ensures AllFormed(Next(s, step))
  {
    hide Waiting, Fetched;
    FetchedFacts(s.items[x], s.gone);
    var next := Next(s, step);
    forall y | y in next.items
      ensures Formed(next, y)
    {
      assert Formed(s, y);
    }
  }

  /** Fetching changes the data, and may give up on the journal. */
  lemma FetchedFacts(i: Item, gone: set<nat>)
    ensures var r := Fetched(i, gone);
      && r == i.(data := r.data, mapped := r.mapped, journal := r.journal)
      && (i.data ==> r == i) && (r.journal ==> i.journal)
      && (r.mapped && !i.mapped ==> r.data && (r.journal || r.pendingJournal))
      && (!r.data ==> !i.data && r == i)
      && (r != i ==> r.data && (r.mapped ==> r.journal || r.pendingJournal))
  {
  }

  lemma RestForms(s: State, step: Step)
    requires AllFormed(s) && Enabled(s, step)
    requires step.Finish? || step.BeginFlush? || step.CloudDone? || step.EndFlush? || step.Drop? || step.Collect?
    ensures AllFormed(Next(s, step))
  {
    hide Waiting;
  }

  lemma SubmitForms(s: State, x: nat)
    requires AllFormed(s) && Enabled(s, Submit(x))
    ensures AllFormed(Next(s, Submit(x)))
  {
    forall y | y in s.items
      ensures Waiting(s.queue + [x], y) == Waiting(s.queue, y) + if x == y then 1 else 0
    {
      Queued(s.queue, x, y);
    }
    hide Waiting;
  }

  lemma LogThreadForms(s: State)
    requires AllFormed(s) && Enabled(s, LogThread)
    ensures AllFormed(Next(s, LogThread))
  {
    forall y | y in s.items
      ensures Waiting(s.queue, y) == Waiting(s.queue[1..], y) + if s.queue[0] == y then 1 else 0
    {
      Dequeued(s.queue, y);
    }
    hide Waiting;
  }

  /** Every step that is proper keeps the invariant; only the end of a flush
      pass can be improper. */
  lemma StepKeeps(s: State, step: Step)
    requires Inv(s) && Enabled(s, step) && Proper(s, step)
    ensures Inv(Next(s, step))
  {
    StepForms(s, step);
    hide AllFormed;
    match step
    case EndFlush => EndFlushKeeps(s);
    case Commit => CommitKeeps(s, step);
    case Rotate => CommitKeeps(s, step);
    case CloudWrite(x) => FetchKeeps(s, step, x);
    case Fetch(x) => FetchKeeps(s, step, x);
    case Drop(x) => DropKeeps(s, x);
    case Collect(f) => CollectKeeps(s, f);
    case LogThread => LogThreadKeeps(s);
    case _ => RestKeeps(s, step);
  }

  ghost predicate AllOk(s: State) {
    forall x :: x in s.items ==> ItemOk(s, x)
  }

  lemma CommitKeeps(s: State, step: Step)
    requires Inv(s) && (step.Commit? || step.Rotate?)
    ensures AllOk(Next(s, step))
  {
    hide Waiting;
    assert forall x :: x in s.items ==> Formed(s, x) && ItemOk(s, x);
    hide AllFormed;
  }

  lemma FetchKeeps(s: State, step: Step, x: nat)
    requires Inv(s) && (step == CloudWrite(x) || step == Fetch(x)) && x in s.items
    ensures AllOk(Next(s, step))
  {
    hide AllFormed;
    assert ItemOk(s, x);
  }

  lemma DropKeeps(s: State, x: nat)
    requires Inv(s) && Enabled(s, Drop(x))
    ensures AllOk(Next(s, Drop(x)))
  {
    hide Waiting;
    assert Formed(s, x) && ItemOk(s, x);
    hide AllFormed;
  }

  lemma CollectKeeps(s: State, f: nat)
    requires Inv(s) && Enabled(s, Collect(f))
    ensures AllOk(Next(s, Collect(f)))
  {
    hide Waiting;
    forall x | x in s.items
      ensures ItemOk(Next(s, Collect(f)), x)
    {
      assert Formed(s, x) && ItemOk(s, x);
    }
  }

  lemma LogThreadKeeps(s: State)
    requires Inv(s) && Enabled(s, LogThread)
    ensures AllOk(Next(s, LogThread))
  {
    var x := s.queue[0];
    assert Formed(s, x) && ItemOk(s, x);
    hide AllFormed;
  }

  lemma RestKeeps(s: State, step: Step)
    requires Inv(s) && Enabled(s, step)
    requires step.Create? || step.Submit? || step.Finish? || step.BeginFlush? || step.CloudDone?
    ensures AllOk(Next(s, step))
  {
    hide AllFormed;
  }

  /** Everything recorded below the new watermark is in the cloud. */
  lemma EndFlushKeeps(s: State)
    requires Inv(s) && Enabled(s, EndFlush) && Proper(s, EndFlush)
    ensures AllOk(Next(s, EndFlush))
  {
    hide AllFormed;
    forall x | x in s.items
      ensures ItemOk(Next(s, EndFlush), x)
    {
      assert ItemOk(s, x) && !LeftBehind(s.items[x], s.start.value);
    }
  }

  // ------------------------------------------------ runs

  /** Steps the program can take from one state to another. */
  ghost predicate Taken(s: State, steps: seq<Step>, end: State)
    decreases |steps|
  {
    if steps == [] then end == s
    else Enabled(s, steps[0]) && Taken(Next(s, steps[0]), steps[1..], end)
  }

  /** Such steps with every flush pass ending as it should. */
  ghost predicate Runs(s: State, steps: seq<Step>, end: State)
    decreases |steps|
  {
    if steps == [] then end == s
    else Enabled(s, steps[0]) && Proper(s, steps[0]) && Runs(Next(s, steps[0]), steps[1..], end)
  }

  lemma {:induction false} RunKeeps(s: State, steps: seq<Step>, end: State)
    requires Inv(s) && Runs(s, steps, end)
    ensures Inv(end)
    decreases |steps|
  {
    hide Enabled, Next, Proper, Inv;
    if steps != [] {
      StepKeeps(s, steps[0]);
      RunKeeps(Next(s, steps[0]), steps[1..], end);
    }
  }

  lemma {:induction false} RunsConcat(s: State, a: seq<Step>, mid: State, b: seq<Step>, end: State)
    requires Runs(s, a, mid) && Runs(mid, b, end)
    ensures Runs(s, a + b, end)
    decreases |a|
  {
    hide Enabled, Next, Proper;
    if a == [] {
      assert a + b == b;
    } else {
      RunsConcat(Next(s, a[0]), a[1..], mid, b, end);
      assert (a + b)[0] == a[0] && (a + b)[1..] == a[1..] + b;
    }
  }

  lemma RunsOne(s: State, step: Step)
    requires Enabled(s, step) && Proper(s, step)
    ensures Runs(s, [step], Next(s, step))
  {
    hide Enabled, Next, Proper;
    assert [step][1..] == [];
  }

  /** Nothing is lost: data not in memory can be fetched, and data that may be
      dropped could be. */
  ghost predicate Safe(s: State) {
    forall x :: x in s.items ==>
      && (!s.items[x].data ==> Fetchable(s.items[x], s.gone) && Fetched(s.items[x], s.gone).data)
      && (Enabled(s, Drop(x)) ==> Fetchable(s.items[x], s.gone))
  }

  lemma InvSafe(s: State)
    requires Inv(s)
    ensures Safe(s)
  {
    hide Waiting;
    forall x | x in s.items
      ensures Formed(s, x) && ItemOk(s, x)
    {
    }
  }

  predicate InMemoryAfter(s: State, step: Step, x: nat) {
    Enabled(s, step) && x in Next(s, step).items && Next(s, step).items[x].data
  }

  /** At every point of every run: data that is not in memory can be fetched, an
      item may be dropped only if it can be fetched, the log thread and the flush
      find the data of the item they take, the lock count is the number of queue
      entries, and what the journal or the cloud is said to have it was given. */
  lemma NeverTheOnlyCopy(steps: seq<Step>, s: State)
    requires Runs(INIT, steps, s)
    ensures Safe(s)
    ensures s.queue != [] ==> s.queue[0] in s.items && s.items[s.queue[0]].data
    ensures forall x :: x in s.items ==> s.items[x].locks == Waiting(s.queue, x)
    ensures forall x :: x in s.items && InJournal(s.items[x], s.gone) ==> x in s.logged
    ensures forall x :: x in s.items && s.items[x].cloud ==> x in s.copied
    ensures forall x :: x in s.items && s.items[x].mapped ==> s.items[x].seg !in s.gone
    ensures forall x :: x in s.items ==> InMemoryAfter(s, Fetch(x), x)
    ensures forall x :: x in s.items && !s.items[x].cloud && !s.items[x].pendingCloud ==> InMemoryAfter(s, CloudWrite(x), x)
  {
    hide Inv, InMemoryAfter, InJournal, Safe, Runs, Waiting, Fetchable;
    assert Inv(INIT) by { InitHolds(); }
    RunKeeps(INIT, steps, s);
    InvSafe(s);
    forall x | x in s.items
      ensures s.items[x].locks == Waiting(s.queue, x) && (x in s.queue ==> s.items[x].data)
      ensures InJournal(s.items[x], s.gone) ==> x in s.logged
      ensures s.items[x].cloud ==> x in s.copied
      ensures s.items[x].mapped ==> s.items[x].seg !in s.gone
      ensures InMemoryAfter(s, Fetch(x), x) && (!SentBefore(s.items[x]) ==> InMemoryAfter(s, CloudWrite(x), x))
    {
      ItemHolds(s, x);
    }
    QueueKnown(s);
  }

  lemma InitHolds()
    ensures Inv(INIT)
  {
  }

  lemma QueueKnown(s: State)
    requires Inv(s)
    ensures s.queue != [] ==> s.queue[0] in s.items
  {
  }

  lemma ItemHolds(s: State, x: nat)
    requires Inv(s) && x in s.items
    ensures s.items[x].locks == Waiting(s.queue, x) && (x in s.queue ==> s.items[x].data)
    ensures InJournal(s.items[x], s.gone) ==> x in s.logged
    ensures s.items[x].cloud ==> x in s.copied
    ensures s.items[x].mapped ==> s.items[x].seg !in s.gone
    ensures InMemoryAfter(s, Fetch(x), x) && (!SentBefore(s.items[x]) ==> InMemoryAfter(s, CloudWrite(x), x))
  {
    assert Formed(s, x) && ItemOk(s, x);
    hide Inv;
  }

  /** Data is mapped from the journal when the log thread has written it there or
      it was loaded from there, until it is dropped. */
  lemma MappedExact(s: State, step: Step, x: nat)
    requires Enabled(s, step) && x in s.items
    ensures var i := s.items[x];
      var writes := step == CloudWrite(x) && !i.cloud && !i.pendingCloud;
      var fetches := (step == Fetch(x) || writes) && !i.data;
      var logs := step == LogThread && s.queue[0] == x && !i.journal && !i.pendingJournal;
      && (Next(s, step).items[x].mapped <==>
          logs || (if fetches then InJournal(i, s.gone) || (i.mapped && !i.cloud) else i.mapped && step != Drop(x)))
      && (Next(s, step).items[x].pendingCloud <==> writes || (i.pendingCloud && step != CloudDone(x)))
  {
  }

  /** An item counts as given to the journal or the cloud only by a step that
      writes it there with its data in memory. */
  lemma GivenFromMemory(s: State, step: Step, x: nat)
    requires Enabled(s, step)
    ensures x in Next(s, step).logged && x !in s.logged ==>
      step == LogThread && s.queue[0] == x && s.items[x].data
    ensures x in Next(s, step).copied && x !in s.copied ==>
      step == CloudWrite(x) && Next(s, step).items[x].data
  {
  }

  // ------------------------------------------------ what the end of a pass needs

  /** An item that the journal alone has, in a file that may be deleted. */
  predicate Doomed(s: State, x: nat) {
    && x in s.items && s.items[x].journal && !s.items[x].cloud
    && s.items[x].seg < s.watermark
  }

  /** Let the log thread empty its queue. */
  lemma {:induction false} Drain(s: State, x: nat) returns (steps: seq<Step>, end: State)
    requires AllFormed(s) && Doomed(s, x)
    ensures Runs(s, steps, end) && AllFormed(end) && Doomed(end, x) && end.queue == []
    decreases |s.queue|
  {
    hide AllFormed;
    if s.queue == [] {
      return [], s;
    }
    assert Enabled(s, LogThread) by { Takes(s); }
    StepForms(s, LogThread);
    var next := Next(s, LogThread);
    RunsOne(s, LogThread);
    steps, end := Drain(next, x);
    hide Enabled, Next, Doomed;
    RunsConcat(s, [LogThread], next, steps, end);
    steps := [LogThread] + steps;
  }

  lemma Takes(s: State)
    requires AllFormed(s) && s.queue != []
    ensures s.queue[0] in s.items
  {
  }

  /** Nothing is on its way to the journal. */
  ghost predicate Still(s: State) {
    s.queue == [] && s.written == {}
  }

  lemma CommitStills(s: State, x: nat)
    requires AllFormed(s) && Doomed(s, x) && s.queue == []
    ensures var next := Next(s, Commit);
      Runs(s, [Commit], next) && AllFormed(next) && Doomed(next, x) && Still(next)
  {
    StepForms(s, Commit);
    RunsOne(s, Commit);
  }

  /** Finish the sync of an item, if it has not, and drop its data. */
  lemma Clear(s: State, x: nat, y: nat) returns (steps: seq<Step>, end: State)
    requires AllFormed(s) && Doomed(s, x) && Still(s) && y in s.items && s.items[y].journal
    ensures Runs(s, steps, end) && AllFormed(end) && Doomed(end, x) && Still(end)
    ensures end.items.Keys == s.items.Keys && end.items[y] == s.items[y].(finished := end.items[y].finished, data := false, mapped := false)
    ensures forall z :: z in s.items && z != y ==> end.items[z] == s.items[z]
    ensures end.gone == s.gone
  {
    hide AllFormed;
    steps, end := [], s;
    if !s.items[y].finished {
      StepForms(s, Finish(y));
      RunsOne(s, Finish(y));
      steps, end := [Finish(y)], Next(s, Finish(y));
    }
    ghost var mid, sofar := end, steps;
    if mid.items[y].data {
      assert mid.items[y].locks == 0 by { Unlocked(mid, y); }
      StepForms(mid, Drop(y));
      RunsOne(mid, Drop(y));
      end := Next(mid, Drop(y));
      steps := sofar + [Drop(y)];
      RunsConcat(s, sofar, mid, [Drop(y)], end);
    } else {
      assert !mid.items[y].mapped by { Unmapped(mid, y); }
    }
  }

  lemma Unlocked(s: State, y: nat)
    requires AllFormed(s) && Still(s) && y in s.items
    ensures s.items[y].locks == 0
  {
    assert Formed(s, y);
  }

  lemma Unmapped(s: State, y: nat)
    requires AllFormed(s) && y in s.items && !s.items[y].data
    ensures !s.items[y].mapped
  {
    assert Formed(s, y);
  }

  /** Items with data mapped from a file. */
  function MappedFrom(s: State, f: nat): (r: set<nat>) {
    set y | y in s.items && s.items[y].mapped && s.items[y].seg == f
  }

  /** Drop all data mapped from a file. */
  lemma {:induction false} ClearFile(s: State, x: nat, f: nat) returns (steps: seq<Step>, end: State)
    requires AllFormed(s) && Doomed(s, x) && Still(s)
    ensures Runs(s, steps, end) && AllFormed(end) && Doomed(end, x) && Still(end) && MappedFrom(end, f) == {}
    ensures s.items[x].seg == end.items[x].seg && (!s.items[x].data ==> !end.items[x].data)
    decreases |MappedFrom(s, f)|
  {
    hide AllFormed;
    if MappedFrom(s, f) == {} {
      return [], s;
    }
    var y :| y in MappedFrom(s, f);
    assert s.items[y].journal by { JournalMapped(s, y); }
    var first, mid := Clear(s, x, y);
    assert MappedFrom(mid, f) == MappedFrom(s, f) - {y};
    steps, end := ClearFile(mid, x, f);
    RunsConcat(s, first, mid, steps, end);
    steps := first + steps;
  }

  lemma JournalMapped(s: State, y: nat)
    requires AllFormed(s) && Still(s) && y in s.items && s.items[y].mapped
    ensures s.items[y].journal
  {
    assert Formed(s, y);
  }

  /** Such an item can be lost: once its sync has finished and all data mapped
      from its file has been dropped, the file is deleted. */
  lemma DoomedLost(s: State, x: nat) returns (steps: seq<Step>, end: State)
    requires AllFormed(s) && Doomed(s, x)
    ensures Runs(s, steps, end) && !Safe(end)
  {
    hide AllFormed, Doomed, Runs, Next, Enabled;
    var a, s1 := Drain(s, x);
    CommitStills(s1, x);
    var s2 := Next(s1, Commit);
    RunsConcat(s, a, s1, [Commit], s2);
    assert x in s2.items && s2.items[x].journal by { IsDoomed(s2, x); }
    var b, s3 := Clear(s2, x, x);
    RunsConcat(s, a + [Commit], s2, b, s3);
    var f := s3.items[x].seg;
    var c, s4 := ClearFile(s3, x, f);
    RunsConcat(s, a + [Commit] + b, s3, c, s4);
    DeleteLoses(s4, x);
    end := Next(s4, Collect(f));
    RunsConcat(s, a + [Commit] + b + c, s4, [Collect(f)], end);
    steps := a + [Commit] + b + c + [Collect(f)];
  }

  lemma IsDoomed(s: State, x: nat)
    requires Doomed(s, x)
    ensures x in s.items && s.items[x].journal
  {
  }

  lemma DeleteLoses(s: State, x: nat)
    requires Doomed(s, x) && !s.items[x].data && MappedFrom(s, s.items[x].seg) == {}
    requires AllFormed(s) && Still(s)
    ensures var f := s.items[x].seg;
      Enabled(s, Collect(f)) && Runs(s, [Collect(f)], Next(s, Collect(f))) && !Safe(Next(s, Collect(f)))
  {
    var f := s.items[x].seg;
    forall y | y in s.items
      ensures !(s.items[y].mapped && s.items[y].seg == f)
    {
      assert y !in MappedFrom(s, f);
    }
    RunsOne(s, Collect(f));
    var next := Next(s, Collect(f));
    assert x in next.items && !Fetchable(next.items[x], next.gone);
  }

  /** A flush pass may end, whatever follows, exactly when it leaves no item
      behind: otherwise some continuation loses one. */
  lemma EndFlushExact(s: State)
    requires Inv(s) && Enabled(s, EndFlush)
    ensures Proper(s, EndFlush) <==>
      forall steps, end :: Runs(Next(s, EndFlush), steps, end) ==> Safe(end)
  {
    hide Runs, Safe, AllFormed;
    var next := Next(s, EndFlush);
    if Proper(s, EndFlush) {
      StepKeeps(s, EndFlush);
      forall steps, end | Runs(next, steps, end)
        ensures Safe(end)
      {
        RunKeeps(next, steps, end);
        InvSafe(end);
      }
    } else {
      var x :| x in s.items && LeftBehind(s.items[x], s.start.value);
      StepForms(s, EndFlush);
      assert Doomed(next, x);
      var steps, end := DoomedLost(next, x);
    }
  }

  /** Such a run: an item is journaled, the flush pass begins and ends before its
      sync has finished, then the sync finishes, the data is dropped and the file
      deleted.  Nothing has it any more. */
  lemma UnfinishedItemLost() returns (steps: seq<Step>, end: State)
    ensures Taken(INIT, steps, end)
    ensures 0 in end.items && end.items[0].finished && !end.items[0].data
    ensures !Fetchable(end.items[0], end.gone) && !Fetched(end.items[0], end.gone).data
  {
    var s1 := Next(INIT, Create(0));
    var s2 := Next(s1, Submit(0));
    var s3 := Next(s2, LogThread);
    var s4 := Next(s3, Rotate);
    var s5 := Next(s4, BeginFlush);
    end := LostAfter();
    TakenFirst(s5, EndFlush, LOSING_STEPS, end);
    TakenFirst(s4, BeginFlush, [EndFlush] + LOSING_STEPS, end);
    TakenFirst(s3, Rotate, [BeginFlush] + ([EndFlush] + LOSING_STEPS), end);
    steps := [Rotate] + ([BeginFlush] + ([EndFlush] + LOSING_STEPS));
    TakenFirst(s2, LogThread, steps, end);
    TakenFirst(s1, Submit(0), [LogThread] + steps, end);
    TakenFirst(INIT, Create(0), [Submit(0)] + ([LogThread] + steps), end);
    steps := [Create(0)] + ([Submit(0)] + ([LogThread] + steps));
  }

  const LOSING_STEPS := [Finish(0), Drop(0), Collect(0)]

  /** One item in journal file 0, its sync unfinished, behind a flush pass. */
  const LEFT_BEHIND :=
    State(map[0 := Item(true, true, 0, false, true, false, false, false, 0, false)], [], {}, {}, None, 1, 1, {}, {0}, {})

  lemma LostAfter() returns (end: State)
    ensures Taken(LEFT_BEHIND, LOSING_STEPS, end)
    ensures 0 in end.items && end.items[0].finished && !end.items[0].data
    ensures !Fetchable(end.items[0], end.gone) && !Fetched(end.items[0], end.gone).data
  {
    var s1 := Next(LEFT_BEHIND, Finish(0));
    var s2 := Next(s1, Drop(0));
    end := Next(s2, Collect(0));
    TakenFirst(s2, Collect(0), [], end);
    TakenFirst(s1, Drop(0), [Collect(0)], end);
    TakenFirst(LEFT_BEHIND, Finish(0), [Drop(0), Collect(0)], end);
  }

  lemma TakenFirst(s: State, step: Step, rest: seq<Step>, end: State)
    requires Enabled(s, step) && Taken(Next(s, step), rest, end)
    ensures Taken(s, [step] + rest, end)
  {
    hide Enabled, Next;
    assert ([step] + rest)[1..] == rest;
  }

  // ------------------------------------------------ a pass can end

  lemma RunsFirst(s: State, step: Step, rest: seq<Step>, end: State)
    requires Enabled(s, step) && Proper(s, step) && Runs(Next(s, step), rest, end)
    ensures Runs(s, [step] + rest, end)
  {
    assert ([step] + rest)[1..] == rest;
  }

  /** The syncs that have not finished, though their items are journaled. */
  function Unfinished(s: State): (r: set<nat>) {
    set x | x in s.items && s.items[x].journal && !s.items[x].finished
  }

  function Uploading(s: State): (r: set<nat>) {
    set x | x in s.items && s.items[x].pendingCloud
  }

  lemma {:induction false} FinishAll(s: State) returns (steps: seq<Step>, end: State)
    requires Inv(s)
    ensures Runs(s, steps, end) && Inv(end) && end.start == s.start && Unfinished(end) == {}
    decreases |Unfinished(s)|
  {
    hide Inv, Runs;
    if Unfinished(s) == {} {
      RunsNone(s);
      return [], s;
    }
    var x :| x in Unfinished(s);
    var next := Next(s, Finish(x));
    StepKeeps(s, Finish(x));
    assert Unfinished(next) == Unfinished(s) - {x};
    var rest;
    rest, end := FinishAll(next);
    RunsFirst(s, Finish(x), rest, end);
    steps := [Finish(x)] + rest;
  }

  lemma RunsNone(s: State)
    ensures Runs(s, [], s)
  {
  }

  lemma {:induction false} WriteAll(s: State) returns (steps: seq<Step>, end: State)
    requires Inv(s) && Unfinished(s) == {}
    ensures Runs(s, steps, end) && Inv(end) && end.start == s.start && Unfinished(end) == {} && end.dirty == {}
    decreases |s.dirty|
  {
    hide Inv, Runs;
    if s.dirty == {} {
      RunsNone(s);
      return [], s;
    }
    var x :| x in s.dirty;
    DirtyKnown(s, x);
    var next := Next(s, CloudWrite(x));
    StepKeeps(s, CloudWrite(x));
    FetchedFacts(s.items[x], s.gone);
    assert Unfinished(next) <= Unfinished(s);
    var rest;
    rest, end := WriteAll(next);
    RunsFirst(s, CloudWrite(x), rest, end);
    steps := [CloudWrite(x)] + rest;
  }

  lemma DirtyKnown(s: State, x: nat)
    requires Inv(s) && x in s.dirty
    ensures x in s.items
  {
  }

  lemma {:induction false} UploadAll(s: State) returns (steps: seq<Step>, end: State)
    requires Inv(s) && Unfinished(s) == {} && s.dirty == {}
    ensures Runs(s, steps, end) && Inv(end) && end.start == s.start && Unfinished(end) == {} && end.dirty == {}
    ensures Uploading(end) == {}
    decreases |Uploading(s)|
  {
    hide Inv, Runs;
    if Uploading(s) == {} {
      RunsNone(s);
      return [], s;
    }
    var x :| x in Uploading(s);
    var next := Next(s, CloudDone(x));
    StepKeeps(s, CloudDone(x));
    assert Uploading(next) == Uploading(s) - {x};
    assert Unfinished(next) <= Unfinished(s);
    var rest;
    rest, end := UploadAll(next);
    RunsFirst(s, CloudDone(x), rest, end);
    steps := [CloudDone(x)] + rest;
  }

  lemma BelowWatermark(s: State)
    requires Inv(s)
    ensures forall x :: x in s.items && s.items[x].journal && s.items[x].seg < s.watermark ==> s.items[x].cloud
  {
    assert forall x :: x in s.items ==> ItemOk(s, x);
  }

  /** A flush pass that has begun can always end, and end as it should: every
      sync finishes, everything dirty is written and every upload completes.  Then
      what was journaled before it began is in the cloud. */
  lemma FlushCanEnd(s: State) returns (steps: seq<Step>, end: State)
    requires Inv(s) && s.start.Some?
    ensures Runs(s, steps, end) && end.watermark == s.start.value && Enabled(end, BeginFlush)
    ensures forall x :: x in end.items && end.items[x].journal && end.items[x].seg < s.start.value ==> end.items[x].cloud
  {
    hide Inv, Runs;
    var a, finished := FinishAll(s);
    var b, written := WriteAll(finished);
    var c, done := UploadAll(written);
    assert forall x :: x in done.items ==> x !in Uploading(done) && x !in Unfinished(done);
    end := Next(done, EndFlush);
    StepKeeps(done, EndFlush);
    BelowWatermark(end);
    RunsNone(end);
    RunsFirst(done, EndFlush, [], end);
    RunsConcat(written, c, done, [EndFlush] + [], end);
    RunsConcat(finished, b, written, c + ([EndFlush] + []), end);
    RunsConcat(s, a, finished, b + (c + ([EndFlush] + [])), end);
    steps := a + (b + (c + ([EndFlush] + [])));
  }

  // ------------------------------------------------ syncs that are repeated

  lemma {:induction false} StaysUnfinished(s: State, steps: seq<Step>, end: State, x: nat)
    requires Taken(s, steps, end) && x in s.items && !s.items[x].finished && Finish(x) !in steps
    ensures x in end.items && !end.items[x].finished
    decreases |steps|
  {
    if steps != [] {
      var next := Next(s, steps[0]);
      assert steps[0] in steps && forall st :: st in steps[1..] ==> st in steps;
      assert x in next.items && !next.items[x].finished by { FetchedFacts(s.items[x], s.gone); }
      StaysUnfinished(next, steps[1..], end, x);
    }
  }

  /** An item that is submitted is not dropped before that sync has finished,
      however often it was synced before. */
  lemma SubmittedHeld(s: State, steps: seq<Step>, end: State, x: nat)
    requires Enabled(s, Submit(x)) && !s.items[x].journal
    requires Taken(Next(s, Submit(x)), steps, end) && Finish(x) !in steps
    ensures !Enabled(end, Drop(x))
  {
    StaysUnfinished(Next(s, Submit(x)), steps, end, x);
  }

  /** Data that had to come from the cloud is journaled again by the next sync. */
  lemma JournaledAgain(s: State, x: nat)
    requires x in s.items && !s.items[x].data && !InJournal(s.items[x], s.gone) && s.items[x].cloud
    ensures var loaded := Next(s, Fetch(x));
      Enabled(loaded, Submit(x)) && Next(loaded, Submit(x)).queue == s.queue + [x]
  {
  }

  /** A location flag does not say that there is a copy: an item that is still
      queued has one set and its data only in memory. */
  lemma FlagWithoutCopy()
    ensures var s1 := Next(INIT, Create(0));
      && Enabled(s1, Submit(0))
      && var s2 := Next(s1, Submit(0));
         var i := s2.items[0];
         i.uncommitted && !Fetchable(i, s2.gone) && !Droppable(i)
  {
  }
}
