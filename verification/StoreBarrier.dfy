/** Asynchronous store operations and the barriers that wait for them: every
    interleaving of submitting, completing, notifying and attaching. */
module StoreBarrier {
  import opened Options

  datatype Status = New | Running | Complete

  /** An operation: its status, how many notifiers have yet to finish, and the
      barrier that takes its completion directly. */
  datatype Op = Op(status: Status, notifiers: nat, barrier: Option<nat>)

  /** A notifier on an operation, and whether its function has run; its
      function is a barrier's countdown or the caller's own. */
  datatype Notifier = Notifier(op: nat, target: Option<nat>, ran: bool)

  /** A barrier, and how many operations it waits for.  As history: the
      operations ever given to it, and how often it was marked complete. */
  datatype Barrier = Barrier(status: Status, count: int, given: set<nat>, marks: nat)

  /** An operation counted by a barrier but not attached yet. */
  datatype Join = Join(barrier: nat, op: nat)

  datatype State = State(
    ops: map<nat, Op>, notifiers: map<nat, Notifier>, joins: map<nat, Join>, barriers: map<nat, Barrier>, pending: int
  )

  // ------------------------------------------------ steps

  datatype Step =
    | Submit(o: nat)
    | CompleteOp(o: nat)
    | AddNotifier(o: nat, n: nat)
    | RunNotifier(n: nat)
    | FinishNotifier(n: nat)
    | BeginAttach(j: nat, b: nat, o: nat)
    | EndAttach(j: nat, n: nat)
    | SubmitBarrier(b: nat)

  /** One operation less to wait for; the last one completes a barrier that has
      been submitted. */
  function CountDown(bs: map<nat, Barrier>, b: nat): (r: map<nat, Barrier>) {
    if b !in bs then bs
    else
      var count := bs[b].count - 1;
      var now := bs[b].(count := count);
      bs[b := if count == 0 && now.status != New then MarkComplete(now) else now]
  }

  /** Marking a barrier complete; a second call is refused, and counted. */
  function MarkComplete(b: Barrier): (r: Barrier) {
    b.(status := Complete, marks := b.marks + 1)
  }

  /** A countdown on behalf of an operation attached to a barrier. */
  function Release(bs: map<nat, Barrier>, barrier: Option<nat>): (r: map<nat, Barrier>) {
    if barrier.None? then bs else CountDown(bs, barrier.value)
  }

  function Attached(s: State, o: nat, n: nat, target: Option<nat>): (r: State)
    requires o in s.ops
  {
    s.(ops := s.ops[o := s.ops[o].(notifiers := s.ops[o].notifiers + 1)],
       notifiers := s.notifiers[n := Notifier(o, target, false)])
  }

  /** When the program can take a step; notifier and join numbers are fresh. */
  predicate Enabled(s: State, step: Step) {
    match step
    case Submit(o) => o in s.ops && s.ops[o].status == New
    case CompleteOp(o) => o in s.ops && s.ops[o].status == Running
    case AddNotifier(o, n) => o in s.ops && n !in s.notifiers
    case RunNotifier(n) =>
      n in s.notifiers && !s.notifiers[n].ran && s.notifiers[n].op in s.ops
      && s.ops[s.notifiers[n].op].status == Complete
    case FinishNotifier(n) =>
      n in s.notifiers && s.notifiers[n].ran && s.notifiers[n].op in s.ops && s.ops[s.notifiers[n].op].notifiers > 0
    case BeginAttach(j, b, o) => j !in s.joins && b in s.barriers && o in s.ops
    case EndAttach(j, n) => j in s.joins && s.joins[j].op in s.ops && n !in s.notifiers
    case SubmitBarrier(b) => b in s.barriers && s.barriers[b].status == New
  }

  function Next(s: State, step: Step): (r: State)
    requires Enabled(s, step)
  {
    match step
    case Submit(o) => s.(ops := s.ops[o := s.ops[o].(status := Running)], pending := s.pending + 1)
    case CompleteOp(o) =>
      s.(ops := s.ops[o := s.ops[o].(status := Complete)],
         pending := s.pending - 1,
         barriers := if s.ops[o].notifiers == 0 then Release(s.barriers, s.ops[o].barrier) else s.barriers)
    case AddNotifier(o, n) => Attached(s, o, n, None)
    case RunNotifier(n) =>
      s.(notifiers := s.notifiers[n := s.notifiers[n].(ran := true)],
         barriers := Release(s.barriers, s.notifiers[n].target))
    case FinishNotifier(n) =>
      var o := s.notifiers[n].op;
      var left := s.ops[o].notifiers - 1;
      s.(ops := s.ops[o := s.ops[o].(notifiers := left)],
         notifiers := s.notifiers - {n},
         barriers := if left == 0 then Release(s.barriers, s.ops[o].barrier) else s.barriers)
    case BeginAttach(j, b, o) =>
      s.(joins := s.joins[j := Join(b, o)],
         barriers := s.barriers[b := s.barriers[b].(count := s.barriers[b].count + 1, given := s.barriers[b].given + {o})])
    case EndAttach(j, n) =>
      var o, b := s.joins[j].op, s.joins[j].barrier;
      var s' := s.(joins := s.joins - {j});
      if s.ops[o].barrier.None? && s.ops[o].status != Complete then
        s'.(ops := s.ops[o := s.ops[o].(barrier := Some(b))])
      else
        Attached(s', o, n, Some(b))
    case SubmitBarrier(b) =>
      s.(barriers := s.barriers[b := if s.barriers[b].count == 0 then MarkComplete(s.barriers[b])
                                     else s.barriers[b].(status := Running)])
  }

  /** What callers must not do: put a notifier on an operation that has already
      released its barrier, or add operations to a completed barrier. */
  predicate Proper(s: State, step: Step)
    requires Enabled(s, step)
  {
    match step
    case AddNotifier(o, n) => !Late(s.ops[o])
    case BeginAttach(j, b, o) => s.barriers[b].status != Complete
    case EndAttach(j, n) => !Late(s.ops[s.joins[j].op])
    case _ => true
  }

  predicate Released(op: Op) {
    op.status == Complete && op.notifiers == 0
  }

  predicate Late(op: Op) {
    Released(op) && op.barrier.Some?
  }

  // ------------------------------------------------ what barriers wait for

  function Holding(ops: map<nat, Op>, b: nat): (r: set<nat>) {
    set o | o in ops && ops[o].barrier == Some(b) && !Released(ops[o])
  }

  function Owed(ns: map<nat, Notifier>, b: nat): (r: set<nat>) {
    set n | n in ns && ns[n].target == Some(b) && !ns[n].ran
  }

  function Joining(js: map<nat, Join>, b: nat): (r: set<nat>) {
    set j | j in js && js[j].barrier == b
  }

  function Of(ns: map<nat, Notifier>, o: nat): (r: set<nat>) {
    set n | n in ns && ns[n].op == o
  }

  function InProgress(ops: map<nat, Op>): (r: set<nat>) {
    set o | o in ops && ops[o].status == Running
  }

  /** A barrier's count is what it waits for, and it is complete exactly when
      it was submitted and waits for nothing. */
  ghost predicate Balanced(s: State, b: nat)
    requires b in s.barriers
  {
    && s.barriers[b].count == |Holding(s.ops, b)| + |Owed(s.notifiers, b)| + |Joining(s.joins, b)|
    && (s.barriers[b].status == Running ==> s.barriers[b].count > 0)
    && (s.barriers[b].status == Complete ==> s.barriers[b].count == 0)
    && s.barriers[b].marks == One(s.barriers[b].status == Complete)
  }

  /** Every operation given to a barrier is still waited for, in one of the three
      ways, or has completed. */
  ghost predicate Accounted(s: State, b: nat)
    requires b in s.barriers
  {
    forall o :: o in s.barriers[b].given ==> AccountedFor(s, b, o)
  }

  ghost predicate AccountedFor(s: State, b: nat, o: nat) {
    && o in s.ops
    && (|| s.ops[o].status == Complete
        || s.ops[o].barrier == Some(b)
        || (exists n :: n in s.notifiers && s.notifiers[n].op == o && s.notifiers[n].target == Some(b) && !s.notifiers[n].ran)
        || (exists j :: j in s.joins && s.joins[j] == Join(b, o)))
  }

  /** Everything named exists, and each operation counts its notifiers. */
  ghost predicate Tied(s: State) {
    && (forall o :: o in s.ops ==> s.ops[o].notifiers == |Of(s.notifiers, o)|)
    && (forall o :: o in s.ops && s.ops[o].barrier.Some? ==> s.ops[o].barrier.value in s.barriers)
    && (forall n :: n in s.notifiers ==> s.notifiers[n].op in s.ops)
    && (forall n :: n in s.notifiers && s.notifiers[n].ran ==> s.ops[s.notifiers[n].op].status == Complete)
    && (forall n :: n in s.notifiers && s.notifiers[n].target.Some? ==> s.notifiers[n].target.value in s.barriers)
    && (forall j :: j in s.joins ==> s.joins[j].barrier in s.barriers && s.joins[j].op in s.ops)
    && s.pending == |InProgress(s.ops)|
  }

  ghost predicate Inv(s: State) {
    Tied(s) && forall b :: b in s.barriers ==> Balanced(s, b)
  }

  /** The invariant with the history of what each barrier was given. */
  ghost predicate Kept(s: State) {
    Inv(s) && forall b :: b in s.barriers ==> Accounted(s, b)
  }

  // ------------------------------------------------ counting

  predicate Holds(op: Op, b: nat) {
    op.barrier == Some(b) && !Released(op)
  }

  predicate Owes(n: Notifier, b: nat) {
    n.target == Some(b) && !n.ran
  }

  function One(p: bool): (r: nat) {
    if p then 1 else 0
  }

  /** Changing one member of a set changes its size by that member. */
  lemma SizeChanged(a: set<nat>, a': set<nat>, x: nat)
    requires forall y :: y != x ==> (y in a <==> y in a')
    ensures |a'| + One(x in a) == |a| + One(x in a')
  {
    assert a - {x} == a' - {x};
    assert |a| == |a - {x}| + One(x in a) by { if x in a { assert a == (a - {x}) + {x}; } else { assert a == a - {x}; } }
    assert |a'| == |a' - {x}| + One(x in a') by { if x in a' { assert a' == (a' - {x}) + {x}; } else { assert a' == a' - {x}; } }
  }

  lemma HoldingChanged(ops: map<nat, Op>, o: nat, op: Op, b: nat)
    requires o in ops
    ensures |Holding(ops[o := op], b)| + One(Holds(ops[o], b)) == |Holding(ops, b)| + One(Holds(op, b))
  {
    SizeChanged(Holding(ops, b), Holding(ops[o := op], b), o);
  }

  lemma ProgressChanged(ops: map<nat, Op>, o: nat, op: Op)
    requires o in ops
    ensures |InProgress(ops[o := op])| + One(ops[o].status == Running) == |InProgress(ops)| + One(op.status == Running)
  {
    SizeChanged(InProgress(ops), InProgress(ops[o := op]), o);
  }

  lemma NotifierAdded(ns: map<nat, Notifier>, n: nat, x: Notifier, b: nat, o: nat)
    requires n !in ns
    ensures |Owed(ns[n := x], b)| == |Owed(ns, b)| + One(Owes(x, b))
    ensures |Of(ns[n := x], o)| == |Of(ns, o)| + One(x.op == o)
  {
    SizeChanged(Owed(ns, b), Owed(ns[n := x], b), n);
    SizeChanged(Of(ns, o), Of(ns[n := x], o), n);
  }

  lemma NotifierRan(ns: map<nat, Notifier>, n: nat, b: nat, o: nat)
    requires n in ns && !ns[n].ran
    ensures |Owed(ns[n := ns[n].(ran := true)], b)| + One(Owes(ns[n], b)) == |Owed(ns, b)|
    ensures |Of(ns[n := ns[n].(ran := true)], o)| == |Of(ns, o)|
  {
    SizeChanged(Owed(ns, b), Owed(ns[n := ns[n].(ran := true)], b), n);
    SizeChanged(Of(ns, o), Of(ns[n := ns[n].(ran := true)], o), n);
  }

  lemma NotifierGone(ns: map<nat, Notifier>, n: nat, b: nat, o: nat)
    requires n in ns && ns[n].ran
    ensures |Owed(ns - {n}, b)| == |Owed(ns, b)|
    ensures |Of(ns - {n}, o)| + One(ns[n].op == o) == |Of(ns, o)|
  {
    SizeChanged(Owed(ns, b), Owed(ns - {n}, b), n);
    SizeChanged(Of(ns, o), Of(ns - {n}, o), n);
  }

  lemma JoinAdded(js: map<nat, Join>, j: nat, x: Join, b: nat)
    requires j !in js
    ensures |Joining(js[j := x], b)| == |Joining(js, b)| + One(x.barrier == b)
  {
    SizeChanged(Joining(js, b), Joining(js[j := x], b), j);
  }

  lemma JoinGone(js: map<nat, Join>, j: nat, b: nat)
    requires j in js
    ensures |Joining(js - {j}, b)| + One(js[j].barrier == b) == |Joining(js, b)|
  {
    SizeChanged(Joining(js, b), Joining(js - {j}, b), j);
  }

  // ------------------------------------------------ every step keeps the balance

  lemma SubmitKeeps(s: State, o: nat)
    requires Inv(s) && Enabled(s, Submit(o))
    ensures Inv(Next(s, Submit(o)))
  {
    hide Holding, Owed, Joining, Of, InProgress;
    var s' := Next(s, Submit(o));
    ProgressChanged(s.ops, o, s'.ops[o]);
    forall b | b in s'.barriers
      ensures Balanced(s', b)
    {
      HoldingChanged(s.ops, o, s'.ops[o], b);
    }
  }

  lemma CompleteKeeps(s: State, o: nat)
    requires Inv(s) && Enabled(s, CompleteOp(o))
    ensures Inv(Next(s, CompleteOp(o)))
  {
    hide Holding, Owed, Joining, Of, InProgress;
    var s' := Next(s, CompleteOp(o));
    ProgressChanged(s.ops, o, s'.ops[o]);
    forall b | b in s'.barriers
      ensures Balanced(s', b)
    {
      assert Balanced(s, b);
      HoldingChanged(s.ops, o, s'.ops[o], b);
    }
  }

  lemma AddKeeps(s: State, o: nat, n: nat)
    requires Inv(s) && Enabled(s, AddNotifier(o, n)) && Proper(s, AddNotifier(o, n))
    ensures Inv(Next(s, AddNotifier(o, n)))
  {
    AttachKeeps(s, s, o, n, None);
  }

  /** A notifier put on an operation; what it owes its barrier was counted. */
  lemma AttachKeeps(was: State, s: State, o: nat, n: nat, target: Option<nat>)
    requires Inv(was) && s.ops == was.ops && s.notifiers == was.notifiers && s.barriers == was.barriers
    requires s.pending == was.pending && o in s.ops && n !in s.notifiers && !Late(s.ops[o])
    requires target.Some? ==> target.value in s.barriers
    requires forall j :: j in s.joins ==> j in was.joins && s.joins[j] == was.joins[j]
    requires forall b :: b in s.barriers ==>
      |Joining(s.joins, b)| + One(target == Some(b)) == |Joining(was.joins, b)|
    ensures Inv(Attached(s, o, n, target))
  {
    hide Holding, Owed, Joining, Of, InProgress;
    var s' := Attached(s, o, n, target);
    assert Tied(s') by { AttachTied(was, s, o, n, target); }
    forall b | b in s'.barriers
      ensures Balanced(s', b)
    {
      hide Tied;
      assert Balanced(was, b);
      HoldingChanged(s.ops, o, s'.ops[o], b);
      NotifierAdded(s.notifiers, n, Notifier(o, target, false), b, o);
    }
  }

  lemma AttachTied(was: State, s: State, o: nat, n: nat, target: Option<nat>)
    requires Tied(was) && s.ops == was.ops && s.notifiers == was.notifiers && s.barriers == was.barriers
    requires s.pending == was.pending && o in s.ops && n !in s.notifiers
    requires target.Some? ==> target.value in s.barriers
    requires forall j :: j in s.joins ==> j in was.joins && s.joins[j] == was.joins[j]
    ensures Tied(Attached(s, o, n, target))
  {
    hide Of, InProgress;
    var s' := Attached(s, o, n, target);
    ProgressChanged(s.ops, o, s'.ops[o]);
    forall p | p in s'.ops
      ensures s'.ops[p].notifiers == |Of(s'.notifiers, p)|
    {
      NotifierAdded(s.notifiers, n, Notifier(o, target, false), 0, p);
    }
  }

  lemma RunKeeps(s: State, n: nat)
    requires Inv(s) && Enabled(s, RunNotifier(n))
    ensures Inv(Next(s, RunNotifier(n)))
  {
    hide Holding, Owed, Joining, Of, InProgress;
    var s' := Next(s, RunNotifier(n));
    forall o | o in s'.ops
      ensures s'.ops[o].notifiers == |Of(s'.notifiers, o)|
    {
      NotifierRan(s.notifiers, n, 0, o);
    }
    forall b | b in s'.barriers
      ensures Balanced(s', b)
    {
      assert Balanced(s, b);
      NotifierRan(s.notifiers, n, b, 0);
    }
  }

  lemma FinishKeeps(s: State, n: nat)
    requires Inv(s) && Enabled(s, FinishNotifier(n))
    ensures Inv(Next(s, FinishNotifier(n)))
  {
    hide Holding, Owed, Joining, Of, InProgress;
    var s' := Next(s, FinishNotifier(n));
    var o := s.notifiers[n].op;
    ProgressChanged(s.ops, o, s'.ops[o]);
    forall p | p in s'.ops
      ensures s'.ops[p].notifiers == |Of(s'.notifiers, p)|
    {
      NotifierGone(s.notifiers, n, 0, p);
    }
    forall b | b in s'.barriers
      ensures Balanced(s', b)
    {
      assert Balanced(s, b);
      HoldingChanged(s.ops, o, s'.ops[o], b);
      NotifierGone(s.notifiers, n, b, o);
    }
  }

  lemma BeginKeeps(s: State, j: nat, b: nat, o: nat)
    requires Inv(s) && Enabled(s, BeginAttach(j, b, o)) && Proper(s, BeginAttach(j, b, o))
    ensures Inv(Next(s, BeginAttach(j, b, o)))
  {
    hide Holding, Owed, Joining, Of, InProgress;
    var s' := Next(s, BeginAttach(j, b, o));
    forall c | c in s'.barriers
      ensures Balanced(s', c)
    {
      assert Balanced(s, c);
      JoinAdded(s.joins, j, Join(b, o), c);
    }
  }

  lemma EndKeeps(s: State, j: nat, n: nat)
    requires Inv(s) && Enabled(s, EndAttach(j, n)) && Proper(s, EndAttach(j, n))
    ensures Inv(Next(s, EndAttach(j, n)))
  {
    hide Holding, Owed, Joining, Of, InProgress;
    var o, b := s.joins[j].op, s.joins[j].barrier;
    forall c | c in s.barriers
      ensures |Joining(s.joins - {j}, c)| + One(b == c) == |Joining(s.joins, c)|
    {
      JoinGone(s.joins, j, c);
    }
    hide Inv, Next;
    if s.ops[o].barrier.None? && s.ops[o].status != Complete {
      EndDirectKeeps(s, j, n);
    } else {
      EndIndirect(s, j, n);
      AttachKeeps(s, s.(joins := s.joins - {j}), o, n, Some(b));
    }
  }

  lemma EndIndirect(s: State, j: nat, n: nat)
    requires Inv(s) && Enabled(s, EndAttach(j, n))
    requires s.ops[s.joins[j].op].barrier.Some? || s.ops[s.joins[j].op].status == Complete
    ensures Next(s, EndAttach(j, n)) == Attached(s.(joins := s.joins - {j}), s.joins[j].op, n, Some(s.joins[j].barrier))
    ensures s.joins[j].barrier in s.barriers
  {
  }

  lemma EndDirectTied(s: State, j: nat, n: nat)
    requires Tied(s) && Enabled(s, EndAttach(j, n))
    requires s.ops[s.joins[j].op].barrier.None? && s.ops[s.joins[j].op].status != Complete
    ensures Tied(Next(s, EndAttach(j, n)))
  {
    hide Of, InProgress;
    var o := s.joins[j].op;
    ProgressChanged(s.ops, o, s.ops[o].(barrier := Some(s.joins[j].barrier)));
  }

  lemma EndDirectKeeps(s: State, j: nat, n: nat)
    requires Inv(s) && Enabled(s, EndAttach(j, n))
    requires s.ops[s.joins[j].op].barrier.None? && s.ops[s.joins[j].op].status != Complete
    ensures Inv(Next(s, EndAttach(j, n)))
  {
    hide Holding, Owed, Joining, Of, InProgress;
    var o := s.joins[j].op;
    var s' := Next(s, EndAttach(j, n));
    EndDirectTied(s, j, n);
    hide Tied;
    forall c | c in s'.barriers
      ensures Balanced(s', c)
    {
      assert Balanced(s, c);
      JoinGone(s.joins, j, c);
      HoldingChanged(s.ops, o, s'.ops[o], c);
    }
  }

  lemma SubmitBarrierKeeps(s: State, b: nat)
    requires Inv(s) && Enabled(s, SubmitBarrier(b))
    ensures Inv(Next(s, SubmitBarrier(b)))
  {
    hide Holding, Owed, Joining, Of, InProgress;
    var s' := Next(s, SubmitBarrier(b));
    forall c | c in s'.barriers
      ensures Balanced(s', c)
    {
      assert Balanced(s, c);
    }
  }

  lemma StepKeeps(s: State, step: Step)
    requires Inv(s) && Enabled(s, step) && Proper(s, step)
    ensures Inv(Next(s, step))
  {
    hide Inv, Proper, Next, Enabled;
    match step
    case Submit(o) => SubmitKeeps(s, o);
    case CompleteOp(o) => CompleteKeeps(s, o);
    case AddNotifier(o, n) => AddKeeps(s, o, n);
    case RunNotifier(n) => RunKeeps(s, n);
    case FinishNotifier(n) => FinishKeeps(s, n);
    case BeginAttach(j, b, o) => BeginKeeps(s, j, b, o);
    case EndAttach(j, n) => EndKeeps(s, j, n);
    case SubmitBarrier(b) => SubmitBarrierKeeps(s, b);
  }

  // ------------------------------------------------ runs

  ghost predicate Init(s: State) {
    && (forall o :: o in s.ops ==> s.ops[o] == Op(New, 0, None))
    && (forall b :: b in s.barriers ==> s.barriers[b] == Barrier(New, 0, {}, 0))
    && s.notifiers == map[] && s.joins == map[] && s.pending == 0
  }

  ghost predicate Run(states: seq<State>, steps: seq<Step>) {
    && |states| == |steps| + 1 && Init(states[0])
    && forall i :: 0 <= i < |steps| ==>
         Enabled(states[i], steps[i]) && Proper(states[i], steps[i]) && states[i + 1] == Next(states[i], steps[i])
  }

  lemma InitHolds(s: State)
    requires Init(s)
    ensures Kept(s)
  {
    assert InProgress(s.ops) == {};
    forall o | o in s.ops
      ensures Of(s.notifiers, o) == {}
    {
    }
    forall b | b in s.barriers
      ensures Balanced(s, b)
    {
      assert Holding(s.ops, b) == {} && Owed(s.notifiers, b) == {} && Joining(s.joins, b) == {};
    }
  }

  /** Each step leaves every given operation accounted for: a way of waiting for
      it ends only in another, or when it has completed. */
  lemma AccountKept(s: State, step: Step)
    requires Kept(s) && Enabled(s, step)
    ensures forall b :: b in Next(s, step).barriers ==> Accounted(Next(s, step), b)
  {
    var s' := Next(s, step);
    hide Next, Inv, Accounted, AccountedFor, Release;
    SameBarriers(s, step);
    forall b, o | b in s'.barriers && o in s'.barriers[b].given
      ensures AccountedFor(s', b, o)
    {
      GivenBefore(s, step, b, o);
      if step.BeginAttach? && step.b == b && step.o == o {
        JustGiven(s, step);
      } else {
        assert AccountedFor(s, b, o) by { assert Accounted(s, b); Unfold(s, b, o); }
        AccountStep(s, step, b, o);
      }
    }
    forall b | b in s'.barriers
      ensures Accounted(s', b)
    {
      Fold(s', b);
    }
  }

  lemma Unfold(s: State, b: nat, o: nat)
    requires b in s.barriers && Accounted(s, b) && o in s.barriers[b].given
    ensures AccountedFor(s, b, o)
  {
  }

  lemma Fold(s: State, b: nat)
    requires b in s.barriers && forall o :: o in s.barriers[b].given ==> AccountedFor(s, b, o)
    ensures Accounted(s, b)
  {
  }

  lemma SameBarriers(s: State, step: Step)
    requires Enabled(s, step)
    ensures Next(s, step).barriers.Keys == s.barriers.Keys
  {
  }

  lemma GivenBefore(s: State, step: Step, b: nat, o: nat)
    requires Enabled(s, step) && b in Next(s, step).barriers && o in Next(s, step).barriers[b].given
    ensures b in s.barriers
    ensures o in s.barriers[b].given || (step.BeginAttach? && step.b == b && step.o == o)
  {
  }

  lemma JustGiven(s: State, step: Step)
    requires Enabled(s, step) && step.BeginAttach?
    ensures AccountedFor(Next(s, step), step.b, step.o)
  {
    assert step.j in Next(s, step).joins;
  }

  lemma AccountStep(s: State, step: Step, b: nat, o: nat)
    requires Inv(s) && Enabled(s, step) && AccountedFor(s, b, o)
    ensures AccountedFor(Next(s, step), b, o)
  {
    hide Holding, Owed, Joining, Of, InProgress, Balanced;
    var s' := Next(s, step);
    if s.ops[o].status == Complete || s.ops[o].barrier == Some(b) {
    } else if n :| n in s.notifiers && s.notifiers[n].op == o && s.notifiers[n].target == Some(b) && !s.notifiers[n].ran {
      assert n in s'.notifiers;
    } else {
      var j :| j in s.joins && s.joins[j] == Join(b, o);
      if step.EndAttach? && step.j == j {
        assert s'.ops[o].barrier == Some(b) || step.n in s'.notifiers;
      } else {
        assert j in s'.joins;
      }
    }
  }

  lemma {:induction false} RunHolds(states: seq<State>, steps: seq<Step>, i: nat)
    requires Run(states, steps) && i < |states|
    ensures Kept(states[i])
  {
    hide Inv, Init, Proper, Enabled, Next, Accounted;
    if i == 0 {
      InitHolds(states[0]);
    } else {
      RunHolds(states, steps, i - 1);
      StepKeeps(states[i - 1], steps[i - 1]);
      AccountKept(states[i - 1], steps[i - 1]);
    }
  }

  /** Everything a barrier was given is over: operations attached to it have
      completed and their notifiers have run, and so have its own. */
  ghost predicate AllDone(s: State, b: nat) {
    && (forall o :: o in s.ops && s.ops[o].barrier == Some(b) ==> Released(s.ops[o]))
    && (forall n :: n in s.notifiers && s.notifiers[n].target == Some(b) ==> s.notifiers[n].ran)
    && (forall j :: j in s.joins ==> s.joins[j].barrier != b)
  }

  lemma DoneIffZero(s: State, b: nat)
    requires b in s.barriers && Balanced(s, b)
    ensures s.barriers[b].count == 0 <==> AllDone(s, b)
  {
    if AllDone(s, b) {
      assert Holding(s.ops, b) == {} && Owed(s.notifiers, b) == {} && Joining(s.joins, b) == {};
    }
    if s.barriers[b].count == 0 {
      forall o | o in s.ops && s.ops[o].barrier == Some(b)
        ensures Released(s.ops[o])
      {
        assert o !in Holding(s.ops, b);
      }
      forall n | n in s.notifiers && s.notifiers[n].target == Some(b)
        ensures s.notifiers[n].ran
      {
        assert n !in Owed(s.notifiers, b);
      }
      forall j | j in s.joins
        ensures s.joins[j].barrier != b
      {
        assert j !in Joining(s.joins, b);
      }
    }
  }

  /** At every point of every run a submitted barrier is complete exactly when
      everything it was given is over; then every operation ever given to it has
      completed, and it has been marked complete once.  The store counts exactly
      the operations submitted and not complete. */
  lemma BarrierExact(states: seq<State>, steps: seq<Step>, i: nat, b: nat)
    requires Run(states, steps) && i < |states| && b in states[i].barriers
    ensures states[i].barriers[b].status != New ==>
      (states[i].barriers[b].status == Complete <==> AllDone(states[i], b))
    ensures states[i].barriers[b].status == Complete ==>
      forall o :: o in states[i].barriers[b].given ==> o in states[i].ops && states[i].ops[o].status == Complete
    ensures states[i].barriers[b].marks == One(states[i].barriers[b].status == Complete)
    ensures states[i].pending == |InProgress(states[i].ops)|
  {
    RunHolds(states, steps, i);
    var s := states[i];
    assert Balanced(s, b) && Accounted(s, b);
    hide Holding, Owed, Joining, Of, Run;
    DoneIffZero(s, b);
    if s.barriers[b].status == Complete {
      GivenComplete(s, b);
    }
  }

  lemma GivenComplete(s: State, b: nat)
    requires b in s.barriers && Accounted(s, b) && AllDone(s, b)
    ensures forall o :: o in s.barriers[b].given ==> o in s.ops && s.ops[o].status == Complete
  {
    forall o | o in s.barriers[b].given
      ensures o in s.ops && s.ops[o].status == Complete
    {
      assert AccountedFor(s, b, o);
    }
  }

  lemma StaysComplete(s: State, step: Step, b: nat)
    requires Enabled(s, step) && b in s.barriers
    ensures b in Next(s, step).barriers && s.barriers[b].given <= Next(s, step).barriers[b].given
    ensures s.barriers[b].status == Complete ==> Next(s, step).barriers[b].status == Complete
  {
  }

  /** A barrier is marked complete at one step of a run only, and stays so. */
  lemma {:induction false} CompletedOnce(states: seq<State>, steps: seq<Step>, i: nat, j: nat, b: nat)
    requires Run(states, steps) && i <= j < |states| && b in states[i].barriers
    requires states[i].barriers[b].status == Complete
    ensures b in states[j].barriers && states[j].barriers[b].status == Complete && states[j].barriers[b].marks == 1
    decreases j - i
  {
    hide Next, Enabled, Proper, Init;
    if i < j {
      StaysComplete(states[i], steps[i], b);
      CompletedOnce(states, steps, i + 1, j, b);
    } else {
      BarrierExact(states, steps, i, b);
    }
  }

  // ------------------------------------------------ what callers must not do

  ghost predicate Taken(s: State, steps: seq<Step>, end: State)
    decreases |steps|
  {
    if steps == [] then s == end else Enabled(s, steps[0]) && Taken(Next(s, steps[0]), steps[1..], end)
  }

  lemma TakenFirst(s: State, step: Step, rest: seq<Step>, end: State)
    requires Enabled(s, step) && Taken(Next(s, step), rest, end)
    ensures Taken(s, [step] + rest, end)
  {
    hide Next, Enabled;
    assert ([step] + rest)[1..] == rest;
  }

  lemma {:induction false} TakenConcat(a: State, s1: seq<Step>, b: State, s2: seq<Step>, c: State)
    requires Taken(a, s1, b) && Taken(b, s2, c)
    ensures Taken(a, s1 + s2, c)
    decreases |s1|
  {
    hide Next, Enabled;
    if s1 == [] {
      assert s1 + s2 == s2;
    } else {
      TakenConcat(Next(a, s1[0]), s1[1..], b, s2, c);
      assert (s1 + s2)[1..] == s1[1..] + s2;
    }
  }

  lemma TakenNone(s: State)
    ensures Taken(s, [], s)
  {
  }

  /** A notifier put on an operation that has released its barrier releases it
      a second time: the count falls behind what the barrier waits for. */
  lemma LateNotifierUnbalances(s: State, o: nat, n: nat)
    requires Inv(s) && Enabled(s, AddNotifier(o, n)) && Late(s.ops[o])
    ensures var s1 := Next(s, AddNotifier(o, n));
      && Enabled(s1, RunNotifier(n))
      && var s2 := Next(s1, RunNotifier(n));
         && Enabled(s2, FinishNotifier(n))
         && var s3 := Next(s2, FinishNotifier(n));
            var b := s.ops[o].barrier.value;
            && b in s3.barriers
            && s3.barriers[b].count == |Holding(s3.ops, b)| + |Owed(s3.notifiers, b)| + |Joining(s3.joins, b)| - 1
  {
    hide Holding, Owed, Joining, Of, InProgress;
    var b := s.ops[o].barrier.value;
    var s1 := Next(s, AddNotifier(o, n));
    var s2 := Next(s1, RunNotifier(n));
    var s3 := Next(s2, FinishNotifier(n));
    assert Balanced(s, b);
    assert s3.ops == s.ops && s3.notifiers == s.notifiers && s3.joins == s.joins;
  }

  /** What a barrier is for: once submitted, it is complete exactly when everything
      it was given is over. */
  ghost predicate Right(s: State, b: nat)
    requires b in s.barriers
  {
    s.barriers[b].status != New ==> (s.barriers[b].status == Complete <==> AllDone(s, b))
  }

  lemma InvRight(s: State, b: nat)
    requires Inv(s) && b in s.barriers
    ensures Right(s, b)
  {
    hide Tied, Holding, Owed, Joining;
    assert Balanced(s, b);
    DoneIffZero(s, b);
  }

  /** What a late notifier does, all in all: one countdown too many. */
  function AfterRound(s: State, o: nat): (r: State)
    requires o in s.ops
  {
    s.(barriers := Release(s.barriers, s.ops[o].barrier))
  }

  function Round(o: nat, n: nat): (steps: seq<Step>) {
    [AddNotifier(o, n)] + ([RunNotifier(n)] + ([FinishNotifier(n)] + []))
  }

  lemma RoundTaken(s: State, o: nat, n: nat)
    requires o in s.ops && Late(s.ops[o]) && n !in s.notifiers
    ensures Taken(s, Round(o, n), AfterRound(s, o))
  {
    hide Taken;
    var s1 := Next(s, AddNotifier(o, n));
    var s2 := Next(s1, RunNotifier(n));
    var s3 := Next(s2, FinishNotifier(n));
    assert s3.ops == s.ops && s3.notifiers == s.notifiers;
    assert s3 == AfterRound(s, o);
    TakenNone(s3);
    TakenFirst(s2, FinishNotifier(n), [], s3);
    TakenFirst(s1, RunNotifier(n), [FinishNotifier(n)] + [], s3);
    TakenFirst(s, AddNotifier(o, n), [RunNotifier(n)] + ([FinishNotifier(n)] + []), s3);
  }

  /** The operation, its barrier and a notifier number to use. */
  ghost predicate LateOn(s: State, o: nat, n: nat, b: nat) {
    o in s.ops && Late(s.ops[o]) && s.ops[o].barrier == Some(b) && n !in s.notifiers && b in s.barriers
  }

  lemma RoundCounts(s: State, o: nat, n: nat, b: nat)
    requires LateOn(s, o, n, b)
    ensures var t := AfterRound(s, o);
      && LateOn(t, o, n, b) && (AllDone(t, b) <==> AllDone(s, b))
      && t.barriers[b].count == s.barriers[b].count - 1
      && t.barriers[b].status == if t.barriers[b].count == 0 && s.barriers[b].status != New then Complete
                                 else s.barriers[b].status
  {
  }

  /** Late notifiers complete a barrier that waits for something. */
  lemma {:induction false} DriveRunning(s: State, o: nat, n: nat, b: nat) returns (steps: seq<Step>, end: State)
    requires LateOn(s, o, n, b) && s.barriers[b].status == Running && s.barriers[b].count > 0 && !AllDone(s, b)
    ensures Taken(s, steps, end) && b in end.barriers && !Right(end, b)
    ensures steps != [] && steps[0] == AddNotifier(o, n)
    decreases s.barriers[b].count
  {
    hide Taken, AllDone, AfterRound;
    var t := AfterRound(s, o);
    RoundTaken(s, o, n);
    RoundCounts(s, o, n, b);
    steps, end := Round(o, n), t;
    if s.barriers[b].count > 1 {
      var more;
      more, end := DriveRunning(t, o, n, b);
      TakenConcat(s, Round(o, n), t, more, end);
      steps := Round(o, n) + more;
    }
  }

  /** Before it is submitted, they make it complete when it is. */
  lemma {:induction false} DriveNew(s: State, o: nat, n: nat, b: nat) returns (steps: seq<Step>, end: State)
    requires LateOn(s, o, n, b) && s.barriers[b].status == New && s.barriers[b].count >= 0 && !AllDone(s, b)
    ensures Taken(s, steps, end) && b in end.barriers && !Right(end, b)
    decreases s.barriers[b].count
  {
    if s.barriers[b].count == 0 {
      end := SubmitWrong(s, b);
      steps := [SubmitBarrier(b)] + [];
    } else {
      hide Taken, AllDone, AfterRound;
      var t := AfterRound(s, o);
      RoundTaken(s, o, n);
      RoundCounts(s, o, n, b);
      var more;
      more, end := DriveNew(t, o, n, b);
      TakenConcat(s, Round(o, n), t, more, end);
      steps := Round(o, n) + more;
    }
  }

  /** A barrier whose count is wrong about whether it is done is wrong as soon as
      it is submitted. */
  lemma SubmitWrong(s: State, b: nat) returns (end: State)
    requires b in s.barriers && s.barriers[b].status == New && (s.barriers[b].count == 0) != AllDone(s, b)
    ensures Taken(s, [SubmitBarrier(b)] + [], end) && b in end.barriers && !Right(end, b)
  {
    end := Next(s, SubmitBarrier(b));
    assert AllDone(end, b) <==> AllDone(s, b);
    TakenNone(end);
    TakenFirst(s, SubmitBarrier(b), [], end);
  }

  lemma OneStep(s: State, step: Step)
    requires Enabled(s, step)
    ensures Taken(s, [step], Next(s, step))
  {
    hide Next, Enabled;
    assert [step][1..] == [];
  }

  /** A late notifier breaks the barrier of its operation. */
  lemma LateNotifierBreaks(s: State, o: nat, n: nat) returns (steps: seq<Step>, end: State)
    requires Inv(s) && Enabled(s, AddNotifier(o, n)) && Late(s.ops[o])
    ensures Taken(s, steps, end) && steps != [] && steps[0] == AddNotifier(o, n)
    ensures s.ops[o].barrier.value in end.barriers && !Right(end, s.ops[o].barrier.value)
  {
    var b := s.ops[o].barrier.value;
    hide Holding, Owed, Joining, Taken;
    assert LateOn(s, o, n, b) && Balanced(s, b);
    DoneIffZero(s, b);
    hide Inv, Balanced;
    if s.barriers[b].status == Complete {
      steps, end := [AddNotifier(o, n)], Next(s, AddNotifier(o, n));
      OneStep(s, AddNotifier(o, n));
      assert end.ops[o].barrier == Some(b) && !Released(end.ops[o]);
    } else if s.barriers[b].status == Running {
      steps, end := DriveRunning(s, o, n, b);
    } else {
      hide AllDone;
      var t := AfterRound(s, o);
      RoundTaken(s, o, n);
      RoundCounts(s, o, n, b);
      var more;
      if AllDone(s, b) {
        end := SubmitWrong(t, b);
        more := [SubmitBarrier(b)] + [];
      } else {
        more, end := DriveNew(t, o, n, b);
      }
      TakenConcat(s, Round(o, n), t, more, end);
      steps := Round(o, n) + more;
    }
  }

  /** Adding an operation to a complete barrier makes it wrong at once. */
  lemma AttachCompleteBreaks(s: State, j: nat, b: nat, o: nat)
    requires Enabled(s, BeginAttach(j, b, o)) && s.barriers[b].status == Complete
    ensures var end := Next(s, BeginAttach(j, b, o)); b in end.barriers && !Right(end, b)
  {
    var end := Next(s, BeginAttach(j, b, o));
    assert j in end.joins && end.joins[j].barrier == b;
  }

  /** The second half of attaching an operation that has released its barrier, and
      the notifier it puts there: a countdown that was owed, and one too many. */
  lemma LateAttachTaken(s: State, j: nat, n: nat)
    requires Enabled(s, EndAttach(j, n)) && Late(s.ops[s.joins[j].op])
    ensures var o, b := s.joins[j].op, s.joins[j].barrier;
      var s1 := Next(s, EndAttach(j, n));
      var c := s.ops[o].barrier.value;
      var s2 := s1.(notifiers := s.notifiers[n := Notifier(o, Some(b), true)], barriers := CountDown(s.barriers, b));
      var s3 := s.(joins := s.joins - {j}, barriers := CountDown(CountDown(s.barriers, b), c));
      && Taken(s, [EndAttach(j, n)] + ([RunNotifier(n)] + []), s2)
      && Taken(s, [EndAttach(j, n)] + ([RunNotifier(n)] + ([FinishNotifier(n)] + [])), s3)
      && o in s1.ops && s1.ops[o].barrier == Some(c) && !Released(s1.ops[o]) && s1.barriers == s.barriers
  {
    var o, b := s.joins[j].op, s.joins[j].barrier;
    var c := s.ops[o].barrier.value;
    var s1 := Next(s, EndAttach(j, n));
    var s2 := Next(s1, RunNotifier(n));
    var s3 := Next(s2, FinishNotifier(n));
    assert s3.ops == s.ops && s3.notifiers == s.notifiers;
    assert s2.notifiers == s.notifiers[n := Notifier(o, Some(b), true)];
    assert s3 == s.(joins := s.joins - {j}, barriers := CountDown(CountDown(s.barriers, b), c));
    hide Taken;
    TakenNone(s2);
    TakenNone(s3);
    TakenFirst(s1, RunNotifier(n), [], s2);
    TakenFirst(s, EndAttach(j, n), [RunNotifier(n)] + [], s2);
    TakenFirst(s2, FinishNotifier(n), [], s3);
    TakenFirst(s1, RunNotifier(n), [FinishNotifier(n)] + [], s3);
    TakenFirst(s, EndAttach(j, n), [RunNotifier(n)] + ([FinishNotifier(n)] + []), s3);
  }

  /** What is left to wait for once a join is gone. */
  lemma DoneWithout(s: State, j: nat, c: nat, t: State)
    requires Tied(s) && c in s.barriers && Balanced(s, c) && j in s.joins
    requires t.ops == s.ops && t.notifiers == s.notifiers && t.joins == s.joins - {j}
    ensures AllDone(t, c) <==> s.barriers[c].count == One(s.joins[j].barrier == c)
  {
    JoinGone(s.joins, j, c);
    DoneIffNone(t, c);
    hide Joining, Holding, Owed;
  }

  lemma DoneIffNone(s: State, b: nat)
    ensures |Holding(s.ops, b)| + |Owed(s.notifiers, b)| + |Joining(s.joins, b)| == 0 <==> AllDone(s, b)
  {
    if AllDone(s, b) {
      assert Holding(s.ops, b) == {} && Owed(s.notifiers, b) == {} && Joining(s.joins, b) == {};
    } else {
      if o :| o in s.ops && s.ops[o].barrier == Some(b) && !Released(s.ops[o]) {
        assert o in Holding(s.ops, b);
      } else if n :| n in s.notifiers && s.notifiers[n].target == Some(b) && !s.notifiers[n].ran {
        assert n in Owed(s.notifiers, b);
      } else {
        var j :| j in s.joins && s.joins[j].barrier == b;
        assert j in Joining(s.joins, b);
      }
    }
  }

  /** The counts afterwards. */
  lemma LateAttachCounts(bs: map<nat, Barrier>, b: nat, c: nat)
    requires b in bs && c in bs
    ensures var r := CountDown(CountDown(bs, b), c);
      && c in r && r[c].count == bs[c].count - 1 - One(b == c)
      && (bs[c].status == New ==> r[c].status == New)
      && (bs[c].status == Running && bs[c].count > 1 + One(b == c) ==> r[c].status == Running)
      && (bs[c].status == Running && bs[c].count == 1 + One(b == c) ==> r[c].status == Complete)
      && (bs[c].status == Running && b == c && bs[c].count == 1 ==> CountDown(bs, b)[c].status == Complete)
  {
  }

  /** Attaching such an operation to a second barrier breaks its first. */
  lemma LateAttachBreaks(s: State, j: nat, n: nat) returns (steps: seq<Step>, end: State)
    requires Inv(s) && Enabled(s, EndAttach(j, n)) && Late(s.ops[s.joins[j].op])
    ensures Taken(s, steps, end) && steps != [] && steps[0] == EndAttach(j, n)
    ensures var c := s.ops[s.joins[j].op].barrier.value; c in end.barriers && !Right(end, c)
  {
    hide Next, Taken, CountDown, Holding, Owed, Joining, AllDone, Right;
    var o, b := s.joins[j].op, s.joins[j].barrier;
    var c := s.ops[o].barrier.value;
    assert Tied(s) && c in s.barriers && b in s.barriers && Balanced(s, c);
    hide Tied, Inv;
    if b == c {
      JoinCounted(s, j, c);
    }
    LateAttachTaken(s, j, n);
    LateAttachCounts(s.barriers, b, c);
    var s1 := Next(s, EndAttach(j, n));
    var s2 := s1.(notifiers := s.notifiers[n := Notifier(o, Some(b), true)], barriers := CountDown(s.barriers, b));
    var s3 := s.(joins := s.joins - {j}, barriers := CountDown(CountDown(s.barriers, b), c));
    DoneWithout(s, j, c, s3);
    NotDone(s1, o, c);
    NotDone(s2, o, c);
    OneStep(s, EndAttach(j, n));
    assert c in CountDown(s.barriers, b) by { StillThere(s.barriers, b, c); }
    steps, end := LateAttachEnds(s, s1, s2, s3, o, j, n, c, s.barriers[c], One(b == c));
  }

  lemma StillThere(bs: map<nat, Barrier>, b: nat, c: nat)
    requires c in bs
    ensures c in CountDown(bs, b)
  {
  }

  lemma NotDone(s: State, o: nat, c: nat)
    requires o in s.ops && s.ops[o].barrier == Some(c) && !Released(s.ops[o])
    ensures !AllDone(s, c)
  {
  }

  /** After one, two or three steps, or more late notifiers. */
  lemma LateAttachEnds(s: State, s1: State, s2: State, s3: State, o: nat, j: nat, n: nat, c: nat, was: Barrier, d: nat)
    returns (steps: seq<Step>, end: State)
    requires d <= 1 && was.count >= d && (was.status == Running ==> was.count > 0)
    requires Taken(s, [EndAttach(j, n)], s1) && Taken(s, [EndAttach(j, n)] + ([RunNotifier(n)] + []), s2)
    requires Taken(s, [EndAttach(j, n)] + ([RunNotifier(n)] + ([FinishNotifier(n)] + [])), s3)
    requires c in s1.barriers && s1.barriers[c] == was && !AllDone(s1, c)
    requires c in s2.barriers && !AllDone(s2, c)
    requires was.status == Running && d == 1 && was.count == 1 ==> s2.barriers[c].status == Complete
    requires LateOn(s3, o, n, c) && (AllDone(s3, c) <==> was.count == d)
    requires s3.barriers[c].count == was.count - 1 - d
    requires was.status == New ==> s3.barriers[c].status == New
    requires was.status == Running && was.count > 1 + d ==> s3.barriers[c].status == Running
    requires was.status == Running && was.count == 1 + d ==> s3.barriers[c].status == Complete
    ensures Taken(s, steps, end) && steps != [] && steps[0] == EndAttach(j, n)
    ensures c in end.barriers && !Right(end, c)
  {
    hide Taken, AllDone;
    var first := [EndAttach(j, n)] + ([RunNotifier(n)] + ([FinishNotifier(n)] + []));
    if was.status == Complete {
      steps, end := [EndAttach(j, n)], s1;
    } else if was.status == Running && was.count == d {
      steps, end := [EndAttach(j, n)] + ([RunNotifier(n)] + []), s2;
    } else if was.status == Running && was.count == 1 + d {
      steps, end := first, s3;
    } else {
      var more;
      more, end := Drive(s3, o, n, c);
      TakenConcat(s, first, s3, more, end);
      steps := first + more;
    }
  }

  /** A barrier whose count is one behind. */
  lemma Drive(s: State, o: nat, n: nat, b: nat) returns (steps: seq<Step>, end: State)
    requires LateOn(s, o, n, b)
    requires s.barriers[b].status == Running ==> s.barriers[b].count > 0 && !AllDone(s, b)
    requires s.barriers[b].status == New ==> if AllDone(s, b) then s.barriers[b].count < 0 else s.barriers[b].count >= 0
    requires s.barriers[b].status != Complete
    ensures Taken(s, steps, end) && b in end.barriers && !Right(end, b)
  {
    hide Taken, AllDone;
    if s.barriers[b].status == Running {
      steps, end := DriveRunning(s, o, n, b);
    } else if AllDone(s, b) {
      end := SubmitWrong(s, b);
      steps := [SubmitBarrier(b)] + [];
    } else {
      steps, end := DriveNew(s, o, n, b);
    }
  }

  lemma JoinCounted(s: State, j: nat, c: nat)
    requires c in s.barriers && Balanced(s, c) && j in s.joins && s.joins[j].barrier == c
    ensures s.barriers[c].count >= 1
  {
    assert j in Joining(s.joins, c);
  }

  /** The exact condition: a step that is proper keeps every barrier right, and
      from any that is not some steps lead to a barrier that is wrong. */
  lemma ProperExact(s: State, step: Step)
    requires Inv(s) && Enabled(s, step)
    ensures Proper(s, step) ==> Inv(Next(s, step)) && forall b :: b in Next(s, step).barriers ==> Right(Next(s, step), b)
    ensures !Proper(s, step) ==>
      exists steps, end, b ::
        Taken(s, steps, end) && steps != [] && steps[0] == step && b in end.barriers && !Right(end, b)
  {
    hide Inv, Taken, Right, Next;
    if Proper(s, step) {
      StepKeeps(s, step);
      forall b | b in Next(s, step).barriers
        ensures Right(Next(s, step), b)
      {
        InvRight(Next(s, step), b);
      }
    } else {
      match step
      case AddNotifier(o, n) =>
        var steps, end := LateNotifierBreaks(s, o, n);
      case EndAttach(j, n) =>
        var steps, end := LateAttachBreaks(s, j, n);
      case BeginAttach(j, b, o) =>
        AttachCompleteBreaks(s, j, b, o);
        OneStep(s, step);
        assert [step] != [] && [step][0] == step;
      case _ =>
    }
  }

  // ------------------------------------------------ a run that gets there

  /** Two operations and one barrier. */
  function Two(a: Op, b: Op, bar: Barrier, pending: int): (s: State) {
    State(map[0 := a, 1 := b], map[], map[], map[0 := bar], pending)
  }

  /** Attach an operation to a barrier. */
  lemma AttachOne(a: Op, b: Op, bar: Barrier, pending: int, o: nat)
    requires o == 0 || o == 1
    requires var op := if o == 0 then a else b; op.barrier.None? && op.status != Complete
    ensures var bar' := bar.(count := bar.count + 1, given := bar.given + {o});
      Taken(Two(a, b, bar, pending), [BeginAttach(0, 0, o)] + ([EndAttach(0, 0)] + []),
            if o == 0 then Two(a.(barrier := Some(0)), b, bar', pending) else Two(a, b.(barrier := Some(0)), bar', pending))
  {
    var s := Two(a, b, bar, pending);
    var s1 := Next(s, BeginAttach(0, 0, o));
    var s2 := Next(s1, EndAttach(0, 0));
    var bar' := bar.(count := bar.count + 1, given := bar.given + {o});
    assert s2.joins == map[] && s2.notifiers == map[] && s2.barriers == map[0 := bar'];
    assert o == 0 ==> s2.ops == map[0 := a.(barrier := Some(0)), 1 := b];
    assert o == 1 ==> s2.ops == map[0 := a, 1 := b.(barrier := Some(0))];
    TakenNone(s2);
    TakenFirst(s1, EndAttach(0, 0), [], s2);
    TakenFirst(s, BeginAttach(0, 0, o), [EndAttach(0, 0)] + [], s2);
  }

  /** From the start: two operations are given to a barrier and all three are
      submitted, the first completes, and a notifier added to it then completes
      the barrier while the second operation is running. */
  lemma LateNotifierCompletesEarly() returns (start: State, steps: seq<Step>, end: State)
    ensures Init(start) && Taken(start, steps, end)
    ensures 0 in end.barriers && end.barriers[0].status == Complete
    ensures 1 in end.barriers[0].given && 1 in end.ops && end.ops[1].status == Running
  {
    hide Next, Taken;
    var idle := Op(New, 0, None);
    start := Two(idle, idle, Barrier(New, 0, {}, 0), 0);
    AttachOne(idle, idle, Barrier(New, 0, {}, 0), 0, 0);
    var held := Op(New, 0, Some(0));
    var b1 := Barrier(New, 1, {} + {0}, 0);
    AttachOne(held, idle, b1, 0, 1);
    var b2 := Barrier(New, 2, {} + {0} + {1}, 0);
    var t1 := [BeginAttach(0, 0, 0)] + ([EndAttach(0, 0)] + []);
    var t2 := [BeginAttach(0, 0, 1)] + ([EndAttach(0, 0)] + []);
    TakenConcat(start, t1, Two(held, idle, b1, 0), t2, Two(held, held, b2, 0));
    SubmittedRun(b2);
    var done, running := Op(Complete, 0, Some(0)), Op(Running, 0, Some(0));
    var b3 := b2.(status := Running, count := 1);
    TakenConcat(start, t1 + t2, Two(held, held, b2, 0), SUBMITTED, Two(done, running, b3, 1));
    end := NotifiedRun(done, running, b3);
    TakenConcat(start, t1 + t2 + SUBMITTED, Two(done, running, b3, 1), NOTIFIED, end);
    steps := t1 + t2 + SUBMITTED + NOTIFIED;
  }

  const SUBMITTED: seq<Step> := [Submit(0)] + ([Submit(1)] + ([SubmitBarrier(0)] + ([CompleteOp(0)] + [])))

  const NOTIFIED: seq<Step> := [AddNotifier(0, 7)] + ([RunNotifier(7)] + ([FinishNotifier(7)] + []))

  lemma SubmittedRun(bar: Barrier)
    requires bar.status == New && bar.count == 2
    ensures Taken(Two(Op(New, 0, Some(0)), Op(New, 0, Some(0)), bar, 0), SUBMITTED,
                  Two(Op(Complete, 0, Some(0)), Op(Running, 0, Some(0)), bar.(status := Running, count := 1), 1))
  {
    var s0 := Two(Op(New, 0, Some(0)), Op(New, 0, Some(0)), bar, 0);
    var s1 := Next(s0, Submit(0));
    var s2 := Next(s1, Submit(1));
    var s3 := Next(s2, SubmitBarrier(0));
    var s4 := Next(s3, CompleteOp(0));
    var end := Two(Op(Complete, 0, Some(0)), Op(Running, 0, Some(0)), bar.(status := Running, count := 1), 1);
    assert s4.ops == end.ops && s4.barriers == end.barriers;
    hide Taken;
    TakenNone(end);
    TakenFirst(s3, CompleteOp(0), [], end);
    TakenFirst(s2, SubmitBarrier(0), [CompleteOp(0)] + [], end);
    TakenFirst(s1, Submit(1), [SubmitBarrier(0)] + ([CompleteOp(0)] + []), end);
    TakenFirst(s0, Submit(0), [Submit(1)] + ([SubmitBarrier(0)] + ([CompleteOp(0)] + [])), end);
  }

  lemma NotifiedRun(a: Op, b: Op, bar: Barrier) returns (end: State)
    requires bar.status == Running && bar.count == 1 && a == Op(Complete, 0, Some(0))
    ensures Taken(Two(a, b, bar, 1), NOTIFIED, end)
    ensures 0 in end.barriers && end.barriers[0].status == Complete && end.barriers[0].given == bar.given
    ensures 1 in end.ops && end.ops[1] == b
  {
    var s0 := Two(a, b, bar, 1);
    var s1 := Next(s0, AddNotifier(0, 7));
    var s2 := Next(s1, RunNotifier(7));
    end := Next(s2, FinishNotifier(7));
    hide Taken;
    TakenNone(end);
    TakenFirst(s2, FinishNotifier(7), [], end);
    TakenFirst(s1, RunNotifier(7), [FinishNotifier(7)] + [], end);
    TakenFirst(s0, AddNotifier(0, 7), [RunNotifier(7)] + ([FinishNotifier(7)] + []), end);
  }
}
