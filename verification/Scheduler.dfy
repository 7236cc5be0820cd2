/** The round-robin scheduler, the task state queues, the saved contexts and the timer quantum, as
    one machine. Tasks are named by number; a context is the content of the register frame. */
module Scheduler {
  import opened Sequences
  import opened Wrappers

  const QUANTUM: nat := 5

  datatype Flag = Created | Suspended | Running | Asleep | Ready | Terminated

  type Context = nat

  /** `tasks` is the scheduler's list in list order and `cur` the task its cursor stands on; `queue`
      holds the state queues; `frame` is what the CPU runs with; an interrupt is due when `count`
      reaches `expired`. */
  datatype Machine = Machine(
    tasks: seq<nat>, cur: nat,
    state: map<nat, Flag>, queue: map<Flag, seq<nat>>,
    saved: map<nat, Context>, frame: Context,
    count: nat, expired: nat)

  // ---- the operations ----

  ghost predicate Queues(m: Machine) {
    && (forall f: Flag :: f in m.queue)
    && (forall f: Flag :: NoDup(m.queue[f]))
    && (forall f: Flag, t: nat {:trigger t in m.queue[f]} :: t in m.queue[f] <==> t in m.state && m.state[t] == f)
  }

  function ChangeState(m: Machine, t: nat, f: Flag): Machine
    requires t in m.state && m.state[t] in m.queue && f in m.queue
  {
    var q := m.queue[m.state[t] := Without(m.queue[m.state[t]], t)];
    m.(state := m.state[t := f], queue := q[f := q[f] + [t]])
  }

  function IndexOf(l: seq<nat>, t: nat): (i: nat)
    requires t in l
    ensures i < |l| && l[i] == t
  {
    if l[0] == t then 0 else 1 + IndexOf(l[1..], t)
  }

  /** The task after `t` in list order, the first one after the last. */
  function Successor(l: seq<nat>, t: nat): nat
    requires t in l
  {
    var i := IndexOf(l, t);
    if i + 1 == |l| then l[0] else l[i + 1]
  }

  /** Every task is in the queue its state names and in no other, and the task running is the one
      under the scheduler's cursor. */
  ghost predicate Consistent(m: Machine) {
    && NoDup(m.tasks) && m.cur in m.tasks
    && (forall t :: t in m.tasks ==> t in m.state)
    && Queues(m)
    && m.queue[Running] == [m.cur]
    && m.saved.Keys == m.state.Keys
  }

  ghost predicate Inv(m: Machine) {
    Consistent(m) && m.count < m.expired <= m.count + 5
  }

  // ---- one step ----

  /** The switch proper: states, queues and contexts. `saved` takes the frame before the frame
      takes the other task's context, so a task may switch to itself. */
  function SwitchTo(m: Machine, prev: nat, after: nat): Machine
    requires prev in m.state && after in m.state && m.state[prev] in m.queue && m.state[after] in m.queue
    requires Ready in m.queue && Running in m.queue && after in m.saved
  {
    ExchangeContexts(ChangeState(ChangeState(m, prev, Ready), after, Running), prev, after)
  }

  function ExchangeContexts(m: Machine, prev: nat, after: nat): Machine
    requires after in m.saved
  {
    var saved := m.saved[prev := m.frame];
    m.(saved := saved, frame := saved[after])
  }

  /** The cursor moves on, the tasks switch and the quantum starts again. */
  function Rotate(m: Machine): (r: Machine)
    requires Consistent(m)
    ensures Inv(r) && r.cur == Successor(m.tasks, m.cur) && r.tasks == m.tasks
    ensures r.count == m.count && r.expired == m.count + 5
    ensures r.state == m.state[m.cur := Ready][r.cur := Running]
    ensures r.saved == m.saved[m.cur := m.frame] && r.frame == r.saved[r.cur]
  {
    var next := Successor(m.tasks, m.cur);
    SwitchKeepsQueues(m, next);
    SwitchTo(m, m.cur, next).(cur := next, expired := m.count + QUANTUM)
  }

  /** Builds a task: it starts in the queue of created tasks. */
  function Build(m: Machine, t: nat, context: Context): Machine
    requires Created in m.queue
  {
    m.(state := m.state[t := Created], queue := m.queue[Created := m.queue[Created] + [t]], saved := m.saved[t := context])
  }

  lemma BuildKeepsQueues(m: Machine, t: nat, context: Context)
    requires Queues(m) && t !in m.state
    ensures Queues(Build(m, t, context))
  {
    assert t !in m.queue[Created];
  }

  /** A state change moves the task from the queue of its old state to the end of the queue of
      its new one. */
  lemma ChangeStateKeepsQueues(m: Machine, t: nat, f: Flag)
    requires Queues(m) && t in m.state
    ensures var r := ChangeState(m, t, f);
      && Queues(r) && r.state == m.state[t := f]
      && (forall g: Flag :: g != f && g != m.state[t] ==> r.queue[g] == m.queue[g])
  {
    var from := m.state[t];
    var r := ChangeState(m, t, f);
    WithoutMembers(m.queue[from], t);
    var left := if f == from then Without(m.queue[from], t) else m.queue[f];
    assert t !in left;
    assert r.queue[f] == left + [t];
    forall x: nat, g: Flag
      ensures x in r.queue[g] <==> x in r.state && r.state[x] == g
    {
      if g == f {
        assert x in r.queue[f] <==> x in left || x == t;
      }
    }
    assert NoDup(left + [t]);
  }

  lemma SwitchKeepsQueues(m: Machine, after: nat)
    requires Consistent(m) && after in m.tasks
    ensures var r := SwitchTo(m, m.cur, after);
      && Queues(r) && r.queue[Running] == [after] && r.saved.Keys == r.state.Keys == m.state.Keys
      && r.tasks == m.tasks && r.count == m.count
  {
    assert m.cur in m.queue[Running];
    assert m.state[m.cur] == Running;
    var m1 := ChangeState(m, m.cur, Ready);
    ChangeStateKeepsQueues(m, m.cur, Ready);
    assert m1.queue[Running] == Without([m.cur], m.cur) == [];
    assert after in m1.queue[m1.state[after]];
    ChangeStateKeepsQueues(m1, after, Running);
    var m2 := ChangeState(m1, after, Running);
    assert m2.queue[Running] == m1.queue[Running] + [after];
  }

  datatype Event =
    | Interrupt                            // the timer fires
    | Yield                                // the running task gives up the CPU
    | Compute(frame: Context)              // the running task computes
    | Create(task: nat, context: Context)  // a task is built
    | Enqueue(task: nat)
    | Dequeue(task: nat)

  /** What the kernel demands of its callers: fresh task numbers, no task enqueued twice, and the
      task under the cursor not dequeued. */
  predicate Legal(m: Machine, e: Event) {
    match e
    case Create(t, _) => t !in m.state
    case Enqueue(t) => t in m.state && t !in m.tasks
    case Dequeue(t) => t in m.tasks && t != m.cur
    case _ => true
  }

  function Step(m: Machine, e: Event): (r: Machine)
    requires Inv(m) && Legal(m, e)
    ensures Inv(r)
  {
    match e
    case Interrupt =>
      var n := m.(count := m.count + 1);
      if n.expired <= n.count then Rotate(n) else n
    case Yield => Rotate(m)
    case Compute(frame) => m.(frame := frame)
    case Create(t, context) =>
      BuildKeepsQueues(m, t, context);
      Build(m, t, context)
    case Enqueue(t) => m.(tasks := [t] + m.tasks)
    case Dequeue(t) =>
      WithoutMembers(m.tasks, t);
      m.(tasks := Without(m.tasks, t))
  }

  // ---- runs ----

  predicate LegalRun(m: Machine, es: seq<Event>)
    requires Inv(m)
    decreases |es|
  {
    es == [] || (Legal(m, es[0]) && LegalRun(Step(m, es[0]), es[1..]))
  }

  /** The machine after the first `k` events. */
  function At(m: Machine, es: seq<Event>, k: nat): (r: Machine)
    requires Inv(m) && LegalRun(m, es) && k <= |es|
    ensures Inv(r)
    decreases k
  {
    if k == 0 then m else At(Step(m, es[0]), es[1..], k - 1)
  }

  lemma StepKeepsSaved(m: Machine, e: Event, t: nat)
    requires Inv(m) && Legal(m, e) && t in m.saved && m.cur != t
    ensures var n := Step(m, e);
      t in n.saved && n.saved[t] == m.saved[t] && (n.cur == t ==> n.frame == m.saved[t])
  {
  }

  /** While a task is off the CPU, its saved context is the frame it lost the CPU with. */
  lemma {:induction false} SavedWhileAway(m: Machine, es: seq<Event>, t: nat, frame: Context, k: nat)
    requires Inv(m) && LegalRun(m, es) && k <= |es|
    requires t in m.saved && m.saved[t] == frame && m.cur != t
    requires forall i: nat {:trigger At(m, es, i)} :: i < k ==> At(m, es, i).cur != t
    ensures var r := At(m, es, k); t in r.saved && (if r.cur == t then r.frame == frame else r.saved[t] == frame)
    decreases k
  {
    if k > 0 {
      var n := Step(m, es[0]);
      assert At(m, es, 1) == At(n, es[1..], 0) == n;
      StepKeepsSaved(m, es[0], t);
      if k > 1 {
        forall i: nat | i < k - 1
          ensures At(n, es[1..], i).cur != t
        {
          assert At(m, es, i + 1) == At(n, es[1..], i);
        }
        assert At(m, es, 0) == m;
        SavedWhileAway(n, es[1..], t, frame, k - 1);
      }
    }
  }

  /** Context preservation: a task that loses the CPU at the first event and gets it back at event
      `k`, not before, finds the frame it was running with, whatever the others did meanwhile. */
  lemma ContextIsPreserved(m: Machine, es: seq<Event>, k: nat)
    requires Inv(m) && LegalRun(m, es) && 2 <= k <= |es|
    requires forall i: nat {:trigger At(m, es, i)} :: 1 <= i < k ==> At(m, es, i).cur != m.cur
    requires At(m, es, k).cur == m.cur
    ensures At(m, es, k).frame == m.frame
  {
    var n := Step(m, es[0]);
    assert At(m, es, 1) == At(n, es[1..], 0) == n;
    forall i: nat | i < k - 1
      ensures At(n, es[1..], i).cur != m.cur
    {
      assert At(m, es, i + 1) == At(n, es[1..], i);
    }
    SavedWhileAway(n, es[1..], m.cur, m.frame, k - 1);
  }

  /** After the first `k` events, and not before, the CPU is with `t`. */
  ghost predicate FirstTurn(m: Machine, es: seq<Event>, k: nat, t: nat)
    requires Inv(m) && LegalRun(m, es)
  {
    k <= |es| && At(m, es, k).cur == t && forall i: nat {:trigger At(m, es, i)} :: i < k ==> At(m, es, i).cur != t
  }

  /** A task just built finds, when the CPU first comes to it, the context it was built with. */
  lemma BuiltTaskStartsWithItsContext(m: Machine, t: nat, context: Context, es: seq<Event>, k: nat)
    requires Inv(m) && Legal(m, Create(t, context)) && LegalRun(Step(m, Create(t, context)), es)
    requires FirstTurn(Step(m, Create(t, context)), es, k, t)
    ensures At(Step(m, Create(t, context)), es, k).frame == context
  {
    SavedWhileAway(Step(m, Create(t, context)), es, t, context, k);
  }

  // ---- fairness ----

  /** The events of a stretch in which no task joins or leaves the list. */
  predicate Steady(es: seq<Event>) {
    forall e :: e in es ==> e.Interrupt? || e.Yield? || e.Compute?
  }

  predicate Switches(m: Machine, e: Event) {
    e.Yield? || (e.Interrupt? && m.expired <= m.count + 1)
  }

  /** Which events of a run switch tasks. */
  function Marks(m: Machine, es: seq<Event>): (r: seq<bool>)
    requires Inv(m) && LegalRun(m, es)
    ensures |r| == |es|
    decreases |es|
  {
    if es == [] then [] else [Switches(m, es[0])] + Marks(Step(m, es[0]), es[1..])
  }

  function Marked(r: seq<bool>, k: nat): (n: nat)
    requires k <= |r|
    ensures n <= k
  {
    if k == 0 then 0 else Marked(r, k - 1) + if r[k - 1] then 1 else 0
  }

  /** How many of the first `k` events switch tasks. */
  function SwitchesBefore(m: Machine, es: seq<Event>, k: nat): nat
    requires Inv(m) && LegalRun(m, es) && k <= |es|
  {
    Marked(Marks(m, es), k)
  }

  function SwitchCount(m: Machine, es: seq<Event>): nat
    requires Inv(m) && LegalRun(m, es)
  {
    SwitchesBefore(m, es, |es|)
  }

  lemma {:induction false} MarkedTail(r: seq<bool>, k: nat)
    requires 1 <= k <= |r|
    ensures Marked(r, k) == (if r[0] then 1 else 0) + Marked(r[1..], k - 1)
  {
    if k > 1 {
      MarkedTail(r, k - 1);
      assert r[1..][k - 2] == r[k - 1];
    }
  }

  lemma {:induction false} MarkedGrows(r: seq<bool>, j: nat, k: nat)
    requires j <= k <= |r|
    ensures Marked(r, j) <= Marked(r, k)
  {
    if j < k {
      MarkedGrows(r, j, k - 1);
    }
  }

  /** Where the `d`-th mark stands. */
  lemma {:induction false} FindMark(r: seq<bool>, d: nat, n: nat) returns (k: nat)
    requires n <= |r| && 1 <= d <= Marked(r, n)
    ensures k < n && r[k] && Marked(r, k) == d - 1
  {
    if d <= Marked(r, n - 1) {
      k := FindMark(r, d, n - 1);
    } else {
      k := n - 1;
    }
  }

  lemma MarksDiffer(r: seq<bool>, j: nat, k: nat)
    requires j < k < |r| && r[j]
    ensures Marked(r, j) < Marked(r, k)
  {
    MarkedGrows(r, j + 1, k);
  }

  lemma {:induction false} MarkAt(m: Machine, es: seq<Event>, k: nat)
    requires Inv(m) && LegalRun(m, es) && k < |es|
    ensures Marks(m, es)[k] == Switches(At(m, es, k), es[k])
    decreases k
  {
    if k > 0 {
      MarkAt(Step(m, es[0]), es[1..], k - 1);
    }
  }

  function InterruptCount(es: seq<Event>): nat {
    if es == [] then 0 else (if es[0].Interrupt? then 1 else 0) + InterruptCount(es[1..])
  }

  /** A quantum never lasts longer than five interrupts, however often tasks yield. */
  lemma {:induction false} QuantumBound(m: Machine, es: seq<Event>)
    requires Inv(m) && LegalRun(m, es)
    ensures var r := At(m, es, |es|);
      InterruptCount(es) <= (m.expired - m.count) - (r.expired - r.count) + 5 * SwitchCount(m, es)
    decreases |es|
  {
    if es != [] {
      QuantumBound(Step(m, es[0]), es[1..]);
      MarkedTail(Marks(m, es), |es|);
    }
  }

  /** Nobody gives up the CPU. */
  predicate NoYield(es: seq<Event>) {
    forall e :: e in es ==> e.Interrupt? || e.Compute?
  }

  lemma NoYieldTail(es: seq<Event>)
    requires NoYield(es) && es != []
    ensures NoYield(es[1..]) && (es[0].Interrupt? || es[0].Compute?)
  {
    assert es[0] in es && forall e :: e in es[1..] ==> e in es;
  }

  /** Until the timer is due the running task keeps the CPU, and the counter counts the interrupts. */
  lemma {:induction false} QuantumLasts(m: Machine, es: seq<Event>)
    requires Inv(m) && LegalRun(m, es) && NoYield(es) && InterruptCount(es) < m.expired - m.count
    ensures var r := At(m, es, |es|);
      && r.tasks == m.tasks && r.cur == m.cur && r.expired == m.expired && r.count == m.count + InterruptCount(es)
    decreases |es|
  {
    if es != [] {
      NoYieldTail(es);
      QuantumLasts(Step(m, es[0]), es[1..]);
    }
  }

  lemma InterruptWhenDue(r: Machine)
    requires Inv(r)
    ensures Step(r, Interrupt).cur == if r.expired == r.count + 1 then Successor(r.tasks, r.cur) else r.cur
  {
  }

  /** With the timer just set, as after every switch, and without a yield: the interrupts up to the
      fourth leave the running task alone, and the fifth one switches to the next task. */
  lemma FifthInterruptSwitches(m: Machine, es: seq<Event>)
    requires Inv(m) && m.expired == m.count + 5 && LegalRun(m, es) && NoYield(es) && InterruptCount(es) <= 4
    ensures At(m, es, |es|).cur == m.cur
    ensures Step(At(m, es, |es|), Interrupt).cur == if InterruptCount(es) == 4 then Successor(m.tasks, m.cur) else m.cur
  {
    QuantumLasts(m, es);
    InterruptWhenDue(At(m, es, |es|));
  }

  /** Position `d` places after `i` in a ring of `n`. */
  function Ring(i: nat, d: nat, n: nat): (r: nat)
    requires i < n
    ensures r < n
    ensures d <= n ==> r == if i + d < n then i + d else i + d - n
    decreases d
  {
    if d == 0 then i else Ring(if i + 1 == n then 0 else i + 1, d - 1, n)
  }

  lemma {:induction false} IndexIsUnique(l: seq<nat>, i: nat)
    requires NoDup(l) && i < |l|
    ensures IndexOf(l, l[i]) == i
  {
  }

  lemma StepMovesCursor(m: Machine, e: Event)
    requires Inv(m) && (e.Interrupt? || e.Yield? || e.Compute?)
    ensures var n := Step(m, e); var i := IndexOf(m.tasks, m.cur);
      && n.tasks == m.tasks
      && IndexOf(n.tasks, n.cur) == if !Switches(m, e) then i else if i + 1 == |m.tasks| then 0 else i + 1
  {
    var i := IndexOf(m.tasks, m.cur);
    IndexIsUnique(m.tasks, if i + 1 == |m.tasks| then 0 else i + 1);
  }

  /** Where in the list the cursor stands. */
  function Position(m: Machine): (i: nat)
    requires m.cur in m.tasks
    ensures i < |m.tasks| && m.tasks[i] == m.cur
  {
    IndexOf(m.tasks, m.cur)
  }

  lemma {:induction false} RingNext(i: nat, d: nat, n: nat)
    requires i < n
    ensures Ring(i, d + 1, n) == Ring(Ring(i, d, n), 1, n)
    decreases d
  {
    if d > 0 {
      RingNext(if i + 1 == n then 0 else i + 1, d - 1, n);
    }
  }

  /** Positions in a ring of `n` that stay or move on by one, as the marks say. */
  ghost predicate Follow(ps: seq<nat>, r: seq<bool>, n: nat) {
    && |ps| == |r| + 1
    && (forall j :: 0 <= j < |ps| ==> ps[j] < n)
    && (forall j {:trigger r[j]} :: 0 <= j < |r| ==> ps[j + 1] == if r[j] then Ring(ps[j], 1, n) else ps[j])
  }

  lemma FollowFirst(p: nat, ps: seq<nat>, b: bool, r: seq<bool>, n: nat)
    requires Follow(ps, r, n) && p < n && ps[0] == if b then Ring(p, 1, n) else p
    ensures Follow([p] + ps, [b] + r, n)
  {
    forall j | 0 <= j < |r| + 1
      ensures ([p] + ps)[j + 1] == if ([b] + r)[j] then Ring(([p] + ps)[j], 1, n) else ([p] + ps)[j]
    {
      if j > 0 {
        assert ([b] + r)[j] == r[j - 1] && ([p] + ps)[j] == ps[j - 1] && ([p] + ps)[j + 1] == ps[(j - 1) + 1];
      }
    }
  }

  lemma {:induction false} PositionsCountMarks(ps: seq<nat>, r: seq<bool>, n: nat, k: nat)
    requires Follow(ps, r, n) && k <= |r|
    ensures ps[k] == Ring(ps[0], Marked(r, k), n)
  {
    if k > 0 {
      PositionsCountMarks(ps, r, n, k - 1);
      assert ps[(k - 1) + 1] == if r[k - 1] then Ring(ps[k - 1], 1, n) else ps[k - 1];
      RingNext(ps[0], Marked(r, k - 1), n);
    }
  }

  /** Where the cursor stands before each event and after the last. */
  function Positions(m: Machine, es: seq<Event>): (ps: seq<nat>)
    requires Inv(m) && LegalRun(m, es)
    ensures |ps| == |es| + 1
    decreases |es|
  {
    [Position(m)] + if es == [] then [] else Positions(Step(m, es[0]), es[1..])
  }

  lemma {:induction false} PositionAt(m: Machine, es: seq<Event>, k: nat)
    requires Inv(m) && LegalRun(m, es) && k <= |es|
    ensures Positions(m, es)[k] == Position(At(m, es, k))
    decreases k
  {
    if k > 0 {
      var n := Step(m, es[0]);
      PositionAt(n, es[1..], k - 1);
      assert At(m, es, k) == At(n, es[1..], k - 1);
      assert Positions(m, es) == [Position(m)] + Positions(n, es[1..]);
    }
  }

  lemma {:induction false} SteadyTasks(m: Machine, es: seq<Event>, k: nat)
    requires Inv(m) && LegalRun(m, es) && Steady(es) && k <= |es|
    ensures At(m, es, k).tasks == m.tasks
    decreases k
  {
    if k > 0 {
      SteadyFirst(m, es);
      SteadyTasks(Step(m, es[0]), es[1..], k - 1);
    }
  }

  lemma SteadyFirst(m: Machine, es: seq<Event>)
    requires Inv(m) && LegalRun(m, es) && Steady(es) && es != []
    ensures Step(m, es[0]).tasks == m.tasks && Steady(es[1..])
  {
    SteadyTail(es);
    StepMovesCursor(m, es[0]);
  }

  lemma SteadyTail(es: seq<Event>)
    requires Steady(es) && es != []
    ensures Steady(es[1..]) && (es[0].Interrupt? || es[0].Yield? || es[0].Compute?)
  {
    assert es[0] in es && forall e :: e in es[1..] ==> e in es;
  }

  lemma {:induction false} PositionsFollowMarks(m: Machine, es: seq<Event>, n: nat)
    requires Inv(m) && LegalRun(m, es) && Steady(es) && n == |m.tasks|
    ensures Follow(Positions(m, es), Marks(m, es), n)
    decreases |es|
  {
    if es != [] {
      SteadyTail(es);
      StepMovesCursor(m, es[0]);
      PositionsFollowMarks(Step(m, es[0]), es[1..], n);
      FollowFirst(Position(m), Positions(Step(m, es[0]), es[1..]), Switches(m, es[0]), Marks(Step(m, es[0]), es[1..]), n);
    }
  }

  /** Round robin: wherever a steady run has got to, the task running is as many places round the
      list from the first one as there have been switches. */
  lemma CursorFollowsSwitches(m: Machine, es: seq<Event>, k: nat)
    requires Inv(m) && LegalRun(m, es) && Steady(es) && k <= |es|
    ensures At(m, es, k).tasks == m.tasks && At(m, es, k).cur in m.tasks
    ensures IndexOf(m.tasks, At(m, es, k).cur) == Ring(Position(m), SwitchesBefore(m, es, k), |m.tasks|)
  {
    SteadyTasks(m, es, k);
    PositionAt(m, es, k);
    PositionsFollowMarks(m, es, |m.tasks|);
    PositionsCountMarks(Positions(m, es), Marks(m, es), |m.tasks|, k);
  }

  lemma PointAfter(r: seq<bool>, d: nat) returns (k: nat)
    requires d <= Marked(r, |r|)
    ensures k <= |r| && Marked(r, k) == d
  {
    if d == 0 {
      k := 0;
    } else {
      k := FindMark(r, d, |r|);
      k := k + 1;
    }
  }

  /** After exactly `d` switches the CPU is with the task `d` places further round the list. */
  lemma SwitchesFollowTheList(m: Machine, es: seq<Event>, d: nat) returns (k: nat)
    requires Inv(m) && LegalRun(m, es) && Steady(es) && d <= SwitchCount(m, es)
    ensures k <= |es| && SwitchesBefore(m, es, k) == d
    ensures At(m, es, k).cur == m.tasks[Ring(Position(m), d, |m.tasks|)]
  {
    k := PointAfter(Marks(m, es), d);
    CursorFollowsSwitches(m, es, k);
  }

  /** In a ring, `n` steps in a row visit every position exactly once. */
  lemma RoundVisitsEachOnce(i: nat, j: nat, n: nat) returns (d: nat)
    requires i < n && j < n
    ensures 1 <= d <= n && Ring(i, d, n) == j
    ensures forall e: nat :: 1 <= e <= n && e != d ==> Ring(i, e, n) != j
  {
    d := if i < j then j - i else j + n - i;
  }

  /** The event at `k` gives the CPU to `t`. */
  ghost predicate SwitchesTo(m: Machine, es: seq<Event>, k: nat, t: nat)
    requires Inv(m) && LegalRun(m, es) && k < |es|
  {
    Switches(At(m, es, k), es[k]) && At(m, es, k + 1).cur == t
  }

  lemma SameIndex(l: seq<nat>, a: nat, b: nat)
    requires a in l && b in l
    ensures a == b <==> IndexOf(l, a) == IndexOf(l, b)
  {
  }

  lemma MarkedNext(r: seq<bool>, k: nat)
    requires k < |r| && r[k]
    ensures Marked(r, k + 1) == Marked(r, k) + 1
  {
  }

  /** A switch to `t` is a mark with the right number of marks before it, and the other way round. */
  lemma SwitchTarget(m: Machine, es: seq<Event>, k: nat, t: nat)
    requires Inv(m) && LegalRun(m, es) && Steady(es) && k < |es| && t in m.tasks
    ensures SwitchesTo(m, es, k, t) <==>
      Marks(m, es)[k] && Ring(Position(m), Marked(Marks(m, es), k) + 1, |m.tasks|) == IndexOf(m.tasks, t)
  {
    MarkAt(m, es, k);
    if Marks(m, es)[k] {
      CursorFollowsSwitches(m, es, k + 1);
      MarkedNext(Marks(m, es), k);
      SameIndex(m.tasks, At(m, es, k + 1).cur, t);
    }
  }

  ghost predicate MarkFor(m: Machine, es: seq<Event>, k: nat, t: nat)
    requires Inv(m) && LegalRun(m, es) && k < |es| && t in m.tasks
  {
    Marks(m, es)[k] && Ring(Position(m), Marked(Marks(m, es), k) + 1, |m.tasks|) == IndexOf(m.tasks, t)
  }

  lemma SwitchIffMark(m: Machine, es: seq<Event>, k: nat, t: nat)
    requires Inv(m) && LegalRun(m, es) && Steady(es) && k < |es| && t in m.tasks
    ensures SwitchesTo(m, es, k, t) <==> MarkFor(m, es, k, t)
  {
    SwitchTarget(m, es, k, t);
  }

  lemma OneMark(r: seq<bool>, i: nat, p: nat, n: nat) returns (k: nat)
    requires i < n && p < n && Marked(r, |r|) == n
    ensures k < |r| && r[k] && Ring(i, Marked(r, k) + 1, n) == p
    ensures forall j: nat :: j < |r| && r[j] && Ring(i, Marked(r, j) + 1, n) == p ==> j == k
  {
    var d := RoundVisitsEachOnce(i, p, n);
    k := FindMark(r, d, |r|);
    forall j: nat | j < |r| && r[j] && Ring(i, Marked(r, j) + 1, n) == p
      ensures j == k
    {
      MarkedGrows(r, j + 1, |r|);
      if j < k {
        MarksDiffer(r, j, k);
      } else if k < j {
        MarksDiffer(r, k, j);
      }
    }
  }

  lemma OneMarkFor(m: Machine, es: seq<Event>, t: nat) returns (k: nat)
    requires Inv(m) && LegalRun(m, es) && t in m.tasks && SwitchCount(m, es) == |m.tasks|
    ensures k < |es| && MarkFor(m, es, k, t)
    ensures forall j: nat :: j < |es| && MarkFor(m, es, j, t) ==> j == k
  {
    k := OneMark(Marks(m, es), Position(m), IndexOf(m.tasks, t), |m.tasks|);
  }

  /** Round robin, once each: over as many consecutive switches as there are tasks on the list, each
      task is switched to exactly once. */
  lemma EachTaskOncePerRound(m: Machine, es: seq<Event>, t: nat) returns (k: nat)
    requires Inv(m) && LegalRun(m, es) && Steady(es) && t in m.tasks && SwitchCount(m, es) == |m.tasks|
    ensures k < |es| && SwitchesTo(m, es, k, t)
    ensures forall j: nat :: j < |es| && SwitchesTo(m, es, j, t) ==> j == k
  {
    k := OneMarkFor(m, es, t);
    SwitchIffMark(m, es, k, t);
    forall j: nat | j < |es| && SwitchesTo(m, es, j, t)
      ensures j == k
    {
      SwitchIffMark(m, es, j, t);
    }
  }

  /** A task just enqueued stands in front: its turn comes after those from the running task to the end
      of the list. */
  lemma EnqueuedTaskTurn(m: Machine, t: nat, es: seq<Event>) returns (k: nat)
    requires Inv(m) && Legal(m, Enqueue(t)) && LegalRun(Step(m, Enqueue(t)), es) && Steady(es)
    requires SwitchCount(Step(m, Enqueue(t)), es) >= |m.tasks| - Position(m)
    ensures k <= |es| && SwitchesBefore(Step(m, Enqueue(t)), es, k) == |m.tasks| - Position(m)
    ensures At(Step(m, Enqueue(t)), es, k).cur == t
  {
    var n := Step(m, Enqueue(t));
    assert n.tasks == [t] + m.tasks && Position(n) == 1 + Position(m);
    k := SwitchesFollowTheList(n, es, |m.tasks| - Position(m));
  }

  /** Fairness: with n tasks on the list, every one of them gets the CPU within 5n timer interrupts,
      however the tasks yield. */
  lemma EveryTaskRuns(m: Machine, es: seq<Event>, t: nat) returns (k: nat)
    requires Inv(m) && LegalRun(m, es) && Steady(es) && t in m.tasks
    requires InterruptCount(es) >= 5 * |m.tasks|
    ensures k <= |es| && At(m, es, k).cur == t
  {
    QuantumBound(m, es);
    var d := RoundVisitsEachOnce(IndexOf(m.tasks, m.cur), IndexOf(m.tasks, t), |m.tasks|);
    k := SwitchesFollowTheList(m, es, d);
  }

  // ---- start-up ----

  function NoQueues(): map<Flag, seq<nat>> {
    map[Created := [], Suspended := [], Running := [], Asleep := [], Ready := [], Terminated := []]
  }

  lemma NoQueuesHoldNothing(f: Flag)
    ensures f in NoQueues() && NoQueues()[f] == []
  {
    match f
    case Created =>
    case Suspended =>
    case Running =>
    case Asleep =>
    case Ready =>
    case Terminated =>
  }

  lemma EmptyMachineQueues(m: Machine)
    requires m.queue == NoQueues() && m.state == map[]
    ensures Queues(m)
  {
    forall f: Flag
      ensures f in m.queue && m.queue[f] == []
    {
      NoQueuesHoldNothing(f);
    }
  }

  /** `init_scheduler` and `change_scheduler`: the idle task is built and made ready, the timer is
      set, and the ready tasks are enqueued. */
  function StartIdle(idle: nat, context: Context, count: nat): Machine {
    NoQueuesHoldNothing(Created);
    NoQueuesHoldNothing(Ready);
    var m0 := Machine([], idle, map[], NoQueues(), map[], 0, count, count + QUANTUM);
    var m1 := ChangeState(Build(m0, idle, context), idle, Ready);
    m1.(tasks := m1.queue[Ready])
  }

  /** The rest of `start_scheduling`: the first task is built, enqueued, made current and running,
      and its context loaded. */
  function StartFirst(m: Machine, first: nat, context: Context): Machine
    requires Created in m.queue && Running in m.queue
  {
    var m1 := Build(m, first, context);
    var m2 := ChangeState(m1.(tasks := [first] + m1.tasks, cur := first), first, Running);
    m2.(frame := m2.saved[first])
  }

  lemma IdleIsReady(idle: nat, context: Context, count: nat)
    ensures var m := StartIdle(idle, context, count);
      && Queues(m) && m.tasks == [idle] && m.state.Keys == m.saved.Keys == {idle}
      && m.queue[Running] == [] && m.count == count && m.expired == count + 5 && m.state == map[idle := Ready]
      && m.saved == map[idle := context]
  {
    var m0 := Machine([], idle, map[], NoQueues(), map[], 0, count, count + QUANTUM);
    EmptyMachineQueues(m0);
    NoQueuesHoldNothing(Created);
    NoQueuesHoldNothing(Ready);
    NoQueuesHoldNothing(Running);
    BuildKeepsQueues(m0, idle, context);
    var m1 := Build(m0, idle, context);
    ChangeStateKeepsQueues(m1, idle, Ready);
    assert ChangeState(m1, idle, Ready).queue[Ready] == [idle];
  }

  lemma FirstIsRunning(m: Machine, first: nat, context: Context)
    requires Queues(m) && first !in m.state && m.queue[Running] == [] && m.saved.Keys == m.state.Keys
    requires NoDup(m.tasks) && forall t :: t in m.tasks ==> t in m.state
    ensures var r := StartFirst(m, first, context);
      && Consistent(r) && r.tasks == [first] + m.tasks && r.cur == first && r.frame == context
      && r.count == m.count && r.expired == m.expired && r.state == m.state[first := Running]
      && r.saved == m.saved[first := context]
  {
    BuildKeepsQueues(m, first, context);
    var m1 := Build(m, first, context);
    var m2 := m1.(tasks := [first] + m1.tasks, cur := first);
    assert Queues(m2);
    ChangeStateKeepsQueues(m2, first, Running);
    assert ChangeState(m2, first, Running).queue[Running] == [] + [first];
  }

  /** The machine scheduling starts with. */
  function Start(idle: nat, first: nat, idleContext: Context, firstContext: Context, count: nat): Machine {
    NoQueuesHoldNothing(Created);
    NoQueuesHoldNothing(Running);
    StartFirst(StartIdle(idle, idleContext, count), first, firstContext)
  }

  /** Scheduling starts in a state that meets the invariant, so every run from there keeps it. */
  lemma StartIsConsistent(idle: nat, first: nat, idleContext: Context, firstContext: Context, count: nat)
    requires idle != first
    ensures var m := Start(idle, first, idleContext, firstContext, count);
      && Inv(m) && m.tasks == [first, idle] && m.cur == first && m.frame == firstContext && m.count == count && m.expired == count + 5
      && m.state == map[idle := Ready, first := Running] && m.saved == map[idle := idleContext, first := firstContext]
  {
    IdleIsReady(idle, idleContext, count);
    FirstIsRunning(StartIdle(idle, idleContext, count), first, firstContext);
  }

  /** The idle task finds, when the CPU first comes to it, the context it was built with. */
  lemma IdleStartsWithItsContext(idle: nat, first: nat, idleContext: Context, firstContext: Context, count: nat,
                                 es: seq<Event>, k: nat)
    requires idle != first
    ensures var m := Start(idle, first, idleContext, firstContext, count);
      Inv(m) && (LegalRun(m, es) && FirstTurn(m, es, k, idle) ==> At(m, es, k).frame == idleContext)
  {
    StartIsConsistent(idle, first, idleContext, firstContext, count);
    var m := Start(idle, first, idleContext, firstContext, count);
    if LegalRun(m, es) && FirstTurn(m, es, k, idle) {
      SavedWhileAway(m, es, idle, idleContext, k);
    }
  }

  // ---- the removals as written ----

  function ChangeStateAsWritten(m: Machine, t: nat, f: Flag): (r: Option<Machine>)
    requires t in m.state && m.state[t] in m.queue && f in m.queue
    ensures r == if ExactRemoval(m.queue[m.state[t]], t) then Some(ChangeState(m, t, f)) else None
  {
    match RemoveAsWritten(m.queue[m.state[t]], t)
    case None => None
    case Some(left) =>
      var q := m.queue[m.state[t] := left];
      Some(m.(state := m.state[t := f], queue := q[f := q[f] + [t]]))
  }

  /** The switch with the removals the list code carries out; None when a list is left broken. */
  function RotateAsWritten(m: Machine): Option<Machine>
    requires Consistent(m)
  {
    var next := Successor(m.tasks, m.cur);
    RunningIsCurrent(m);
    match ChangeStateAsWritten(m, m.cur, Ready)
    case None => None
    case Some(m1) =>
      ChangeStateKeepsQueues(m, m.cur, Ready);
      match ChangeStateAsWritten(m1, next, Running)
      case None => None
      case Some(m2) => Some(ExchangeContexts(m2, m.cur, next).(cur := next, expired := m.count + QUANTUM))
  }

  lemma RunningIsCurrent(m: Machine)
    requires Consistent(m)
    ensures m.state[m.cur] == Running && forall t :: t in m.state && m.state[t] == Running ==> t == m.cur
  {
    assert m.cur in m.queue[Running];
    forall t | t in m.state && m.state[t] == Running
      ensures t == m.cur
    {
      assert t in m.queue[Running];
    }
  }

  /** Whether the list code carries out the removals of a switch: the task that goes on must not be
      the last of three or more on its queue. The task that stops has just been put behind it. */
  predicate ExactSwitch(m: Machine)
    requires Consistent(m)
  {
    var next := Successor(m.tasks, m.cur);
    if next == m.cur then |m.queue[Ready]| < 2
    else m.state[next] == Ready || ExactRemoval(m.queue[m.state[next]], next)
  }

  lemma RotateAsWrittenIff(m: Machine)
    requires Consistent(m)
    ensures RotateAsWritten(m) == if ExactSwitch(m) then Some(Rotate(m)) else None
  {
    var next := Successor(m.tasks, m.cur);
    RunningIsCurrent(m);
    assert m.queue[Running] == [m.cur];
    assert ChangeStateAsWritten(m, m.cur, Ready) == Some(ChangeState(m, m.cur, Ready));
    var m1 := ChangeState(m, m.cur, Ready);
    assert m1.queue[Ready] == m.queue[Ready] + [m.cur];
    assert next != m.cur ==> m1.queue[m1.state[next]] == if m.state[next] == Ready then m.queue[Ready] + [m.cur] else m.queue[m.state[next]];
  }

  function StepAsWritten(m: Machine, e: Event): Option<Machine>
    requires Inv(m) && Legal(m, e)
  {
    match e
    case Interrupt =>
      var n := m.(count := m.count + 1);
      if n.expired <= n.count then RotateAsWritten(n) else Some(n)
    case Yield => RotateAsWritten(m)
    case Dequeue(t) =>
      (match RemoveAsWritten(m.tasks, t)
       case None => None
       case Some(left) => Some(m.(tasks := left)))
    case _ => Some(Step(m, e))
  }

  predicate ExactStep(m: Machine, e: Event)
    requires Inv(m)
  {
    if e.Dequeue? then ExactRemoval(m.tasks, e.task) else Switches(m, e) ==> ExactSwitch(m)
  }

  /** The step is carried out as described exactly when no removal takes the last of three or more. */
  lemma StepAsWrittenIff(m: Machine, e: Event)
    requires Inv(m) && Legal(m, e)
    ensures StepAsWritten(m, e) == if ExactStep(m, e) then Some(Step(m, e)) else None
  {
    match e
    case Interrupt => RotateAsWrittenIff(m.(count := m.count + 1));
    case Yield => RotateAsWrittenIff(m);
    case _ =>
  }

  /** A whole run as written. */
  function RunAsWritten(m: Machine, es: seq<Event>): Option<Machine>
    requires Inv(m) && LegalRun(m, es)
    decreases |es|
  {
    if es == [] then Some(m)
    else
      StepAsWrittenIff(m, es[0]);
      match StepAsWritten(m, es[0])
      case None => None
      case Some(n) => RunAsWritten(n, es[1..])
  }

  /** Every listed task but the running one is ready, and there is another one. */
  ghost predicate AllReady(m: Machine) {
    |m.tasks| >= 2 && forall t :: t in m.tasks && t != m.cur ==> t in m.state && m.state[t] == Ready
  }

  lemma StepKeepsReady(m: Machine, e: Event)
    requires Inv(m) && AllReady(m) && (e.Interrupt? || e.Yield? || e.Compute?)
    ensures ExactStep(m, e) && AllReady(Step(m, e))
  {
    IndexIsUnique(m.tasks, if IndexOf(m.tasks, m.cur) + 1 == |m.tasks| then 0 else IndexOf(m.tasks, m.cur) + 1);
  }

  /** Once every listed task has run, round robin never asks for the removal the list code gets
      wrong: the run as written is the run described. */
  lemma {:induction false} ReadyRunsAreExact(m: Machine, es: seq<Event>)
    requires Inv(m) && LegalRun(m, es) && Steady(es) && AllReady(m)
    ensures RunAsWritten(m, es) == Some(At(m, es, |es|))
    decreases |es|
  {
    if es != [] {
      SteadyTail(es);
      StepKeepsReady(m, es[0]);
      StepAsWrittenIff(m, es[0]);
      ReadyRunsAreExact(Step(m, es[0]), es[1..]);
    }
  }

  /** The run as written leads to `n` and breaks no list. */
  ghost predicate Reaches(m: Machine, es: seq<Event>, n: Machine) {
    Inv(m) && LegalRun(m, es) && RunAsWritten(m, es) == Some(n) && Inv(n)
  }

  lemma {:induction false} ReachesNext(m: Machine, es: seq<Event>, n: Machine, e: Event)
    requires Reaches(m, es, n) && Legal(n, e)
    ensures LegalRun(m, es + [e]) && RunAsWritten(m, es + [e]) == StepAsWritten(n, e)
    decreases |es|
  {
    if es == [] {
      StepAsWrittenIff(n, e);
      assert es + [e] == [e] && [e][1..] == [];
    } else {
      StepAsWrittenIff(m, es[0]);
      assert (es + [e])[0] == es[0] && (es + [e])[1..] == es[1..] + [e];
      ReachesNext(Step(m, es[0]), es[1..], n, e);
    }
  }

  lemma CreateNext(m: Machine, es: seq<Event>, n: Machine, t: nat) returns (r: Machine)
    requires Reaches(m, es, n) && t !in n.state
    ensures Reaches(m, es + [Create(t, 0)], r)
    ensures r.tasks == n.tasks && r.cur == n.cur && r.state == n.state[t := Created]
    ensures r.queue[Created] == n.queue[Created] + [t]
  {
    ReachesNext(m, es, n, Create(t, 0));
    r := Step(n, Create(t, 0));
  }

  lemma EnqueueNext(m: Machine, es: seq<Event>, n: Machine, t: nat) returns (r: Machine)
    requires Reaches(m, es, n) && t in n.state && t !in n.tasks
    ensures Reaches(m, es + [Enqueue(t)], r)
    ensures r.tasks == [t] + n.tasks && r.cur == n.cur && r.state == n.state && r.queue == n.queue
  {
    ReachesNext(m, es, n, Enqueue(t));
    r := Step(n, Enqueue(t));
  }

  /** Two tasks, the first one running, none waiting to run for the first time. */
  ghost predicate JustStarted(m: Machine) {
    Reaches(m, [], m) && m.tasks == [1, 0] && m.cur == 1 && m.state == map[0 := Ready, 1 := Running] && m.queue[Created] == []
  }

  lemma Started(count: nat)
    ensures JustStarted(Start(0, 1, 0, 0, count))
  {
    StartIsConsistent(0, 1, 0, 0, count);
    var m := Start(0, 1, 0, 0, count);
    assert forall t :: t !in m.queue[Created];
  }

  /** From the start: a task is built and enqueued, and the idle task, now the last of three on the
      scheduler's list, is dequeued. The list code leaves a broken list. */
  lemma DequeueBreaksTheList(m: Machine) returns (es: seq<Event>)
    requires JustStarted(m)
    ensures LegalRun(m, es) && RunAsWritten(m, es) == None
  {
    var m1 := CreateNext(m, [], m, 2);
    es := [] + [Create(2, 0)];
    var m2 := EnqueueNext(m, es, m1, 2);
    es := es + [Enqueue(2)];
    BreaksNext(m, es, m2, Dequeue(0));
    es := es + [Dequeue(0)];
  }

  lemma BreaksNext(m: Machine, es: seq<Event>, n: Machine, e: Event)
    requires Reaches(m, es, n) && Legal(n, e) && !ExactStep(n, e)
    ensures LegalRun(m, es + [e]) && RunAsWritten(m, es + [e]) == None
  {
    ReachesNext(m, es, n, e);
    StepAsWrittenIff(n, e);
  }

  lemma RotateToReady(n: Machine, t: nat)
    requires Consistent(n) && t == Successor(n.tasks, n.cur) != n.cur && n.state[t] == Ready
    ensures ExactSwitch(n) && Rotate(n).state == n.state[n.cur := Ready][t := Running]
    ensures Rotate(n).queue[Created] == n.queue[Created]
  {
    RunningIsCurrent(n);
  }

  lemma YieldToReady(m: Machine, es: seq<Event>, n: Machine, t: nat) returns (r: Machine)
    requires Reaches(m, es, n) && t == Successor(n.tasks, n.cur) != n.cur && t in n.state && n.state[t] == Ready
    ensures Reaches(m, es + [Yield], r)
    ensures r.tasks == n.tasks && r.cur == t && r.state == n.state[n.cur := Ready][t := Running]
    ensures r.queue[Created] == n.queue[Created]
  {
    ReachesNext(m, es, n, Yield);
    RotateToReady(n, t);
    RotateAsWrittenIff(n);
    r := Rotate(n);
  }

  lemma ThreeBuilt(m: Machine) returns (es: seq<Event>, r: Machine)
    requires JustStarted(m)
    ensures Reaches(m, es, r) && r.tasks == [1, 0] && r.cur == 1 && r.queue[Created] == [2, 3, 4]
    ensures r.state == map[0 := Ready, 1 := Running, 2 := Created, 3 := Created, 4 := Created]
  {
    r := CreateNext(m, [], m, 2);
    es := [] + [Create(2, 0)];
    r := CreateNext(m, es, r, 3);
    es := es + [Create(3, 0)];
    r := CreateNext(m, es, r, 4);
    es := es + [Create(4, 0)];
  }

  /** Tasks 2 to 4 join the list in front. */
  lemma ThreeEnqueued(m: Machine, es0: seq<Event>, n: Machine) returns (es: seq<Event>, r: Machine)
    requires Reaches(m, es0, n) && n.tasks == [1, 0] && 2 in n.state && 3 in n.state && 4 in n.state
    ensures Reaches(m, es, r) && r.tasks == [4, 3, 2, 1, 0] && r.cur == n.cur && r.queue == n.queue && r.state == n.state
  {
    es, r := TwoEnqueued(m, es0, n);
    assert 4 !in r.tasks;
    r := EnqueueNext(m, es, r, 4);
    es := es + [Enqueue(4)];
  }

  lemma TwoEnqueued(m: Machine, es0: seq<Event>, n: Machine) returns (es: seq<Event>, r: Machine)
    requires Reaches(m, es0, n) && n.tasks == [1, 0] && 2 in n.state && 3 in n.state
    ensures Reaches(m, es, r) && r.tasks == [3, 2, 1, 0] && r.cur == n.cur && r.queue == n.queue && r.state == n.state
  {
    r := EnqueueNext(m, es0, n, 2);
    es := es0 + [Enqueue(2)];
    r := EnqueueNext(m, es, r, 3);
    es := es + [Enqueue(3)];
  }

  lemma ThreeWaiting(m: Machine) returns (es: seq<Event>, n: Machine)
    requires JustStarted(m)
    ensures Reaches(m, es, n) && n.tasks == [4, 3, 2, 1, 0] && n.cur == 0
    ensures n.queue[Created] == [2, 3, 4] && 4 in n.state && n.state[4] == Created
  {
    es, n := ThreeBuilt(m);
    es, n := ThreeEnqueued(m, es, n);
    IndexIsUnique(n.tasks, 3);
    n := YieldToReady(m, es, n, 0);
    es := es + [Yield];
  }

  /** From the start: three tasks are built and enqueued, and the running task yields to the idle one.
      When that yields, the list's first task goes on, the last of three on the queue of created
      tasks, and the list code leaves a broken queue. */
  lemma SwitchBreaksTheQueue(m: Machine) returns (es: seq<Event>)
    requires JustStarted(m)
    ensures LegalRun(m, es) && RunAsWritten(m, es) == None
  {
    var n: Machine;
    es, n := ThreeWaiting(m);
    IndexIsUnique(n.tasks, 4);
    BreaksNext(m, es, n, Yield);
    es := es + [Yield];
  }
}
