/** The saturating reference count: the compare-and-swap loops against the version under a lock. */
module Refcount {
  import opened Wrappers

  const REFCOUNT_MAX: nat := 0xffff_ffff

  type Count = n: nat | n <= REFCOUNT_MAX

  // ----- Under the lock -----

  datatype Op = Inc | DecAndTestZero

  /** What an operation says to its caller; Abort ends the whole process. */
  datatype Answer = Returned | Tested(isZero: bool) | Abort

  function Locked(count: Count, op: Op): (Count, Answer) {
    match op
    case Inc => (if count < REFCOUNT_MAX then count + 1 else count, Returned)
    case DecAndTestZero =>
      if count == 0 then (count, Abort) else
      var after := if count < REFCOUNT_MAX then count - 1 else count;
      (after, Tested(after == 0))
  }

  class LockedCounter {
    var count: Count

    constructor (initial: Count)
      ensures count == initial
    {
      count := initial;
    }

    method Increment()
      modifies this
      ensures (count, Returned) == Locked(old(count), Inc)
    {
      if count < REFCOUNT_MAX {
        count := count + 1;
      }
    }

    method DecrementAndTestZero() returns (answer: Answer)
      modifies this
      ensures (count, answer) == Locked(old(count), DecAndTestZero)
    {
      if count == 0 {
        return Abort;
      }
      if count < REFCOUNT_MAX {
        count := count - 1;
      }
      return Tested(count == 0);
    }
  }

  // ----- The loops, one atomic access at a time -----

  /** Where a thread is: outside both operations, or in the loop of one with the value it last read. */
  datatype Local = Idle | Looping(op: Op, expected: Count)

  /** `owned` counts the references the thread may use. */
  datatype Thread = Thread(local: Local, owned: nat)

  datatype State = State(count: Count, threads: seq<Thread>)

  datatype Step =
    | Begin(thread: nat, op: Op)
    | Turn(thread: nat, spurious: bool)
    | Give(thread: nat, to: nat)

  /** The value a compare-and-swap would write. */
  function Wanted(op: Op, expected: Count): Count
    requires expected != REFCOUNT_MAX && (op.DecAndTestZero? ==> expected != 0)
  {
    if op.Inc? then expected + 1 else expected - 1
  }

  /** What a turn of a thread's loop ends with; None when it goes round again. The compare-and-swap is
      the weak one: it may fail although the values agree. */
  function Answered(s: State, t: nat, spurious: bool): Option<Answer>
    requires t < |s.threads| && s.threads[t].local.Looping?
  {
    var Looping(op, expected) := s.threads[t].local;
    if op.DecAndTestZero? && expected == 0 then Some(Abort)
    else if expected == REFCOUNT_MAX then Some(if op.Inc? then Returned else Tested(false))
    else if s.count == expected && !spurious then
      Some(if op.Inc? then Returned else Tested(Wanted(op, expected) == 0))
    else None
  }

  predicate Possible(s: State, step: Step) {
    match step
    case Begin(t, _) => t < |s.threads| && s.threads[t].local.Idle?
    case Turn(t, _) => t < |s.threads| && s.threads[t].local.Looping?
    case Give(t, to) => t < |s.threads| && to < |s.threads|
  }

  function Owned(op: Op, owned: nat): nat {
    if op.Inc? then owned + 1 else if owned == 0 then 0 else owned - 1
  }

  function After(s: State, step: Step): State
    requires Possible(s, step)
  {
    match step
    case Begin(t, op) => s.(threads := s.threads[t := s.threads[t].(local := Looping(op, s.count))])
    case Turn(t, spurious) =>
      var thread := s.threads[t];
      var Looping(op, expected) := thread.local;
      (match Answered(s, t, spurious)
       case None => s.(threads := s.threads[t := thread.(local := Looping(op, s.count))])
       case Some(Abort) => s
       case Some(_) =>
         State(if expected == REFCOUNT_MAX then s.count else Wanted(op, expected),
               s.threads[t := Thread(Idle, Owned(op, thread.owned))]))
    case Give(t, to) =>
      if s.threads[t].owned == 0 then s else
      var gone := s.threads[t := s.threads[t].(owned := s.threads[t].owned - 1)];
      s.(threads := gone[to := gone[to].(owned := gone[to].owned + 1)])
  }

  // ----- Refinement -----

  predicate PossibleRun(init: State, run: Run<Step>)
    decreases run, 0
  {
    run.Then? ==> PossibleRun(init, run.past) && Possible(End(init, run.past), run.last)
  }

  function End(init: State, run: Run<Step>): State
    requires PossibleRun(init, run)
    decreases run, 1
  {
    match run
    case Start => init
    case Then(past, step) => After(End(init, past), step)
  }

  /** The operations of a run in the order in which they answered, with their answers. */
  function Answers(init: State, run: Run<Step>): Run<(Op, Answer)>
    requires PossibleRun(init, run)
  {
    match run
    case Start => Start
    case Then(past, step) =>
      var s, answers := End(init, past), Answers(init, past);
      match step
      case Turn(t, spurious) =>
        (match Answered(s, t, spurious)
         case Some(a) => Then(answers, (s.threads[t].local.op, a))
         case None => answers)
      case _ => answers
  }

  /** The counter under the lock, given the same operations in that order, reaches this count and
      gives the same answers. */
  ghost predicate LockedRun(initial: Count, answers: Run<(Op, Answer)>, count: Count) {
    match answers
    case Start => count == initial
    case Then(past, (op, answer)) =>
      exists before: Count :: LockedRun(initial, past, before) && Locked(before, op) == (count, answer)
  }

  predicate Fresh(init: State) {
    forall t :: 0 <= t < |init.threads| ==> init.threads[t].local.Idle?
  }

  /** Some thread's loop has read zero on the way to a decrement, and is bound to abort. */
  predicate Doomed(s: State) {
    exists t :: 0 <= t < |s.threads| && s.threads[t].local == Looping(DecAndTestZero, 0)
  }

  /** A thread that read the maximum still sees it: a saturated count never moves. */
  predicate MaxIsStuck(s: State) {
    forall t :: 0 <= t < |s.threads| && s.threads[t].local.Looping? && s.threads[t].local.expected == REFCOUNT_MAX ==>
      s.count == REFCOUNT_MAX
  }

  lemma {:induction false} MaxStaysStuck(s: State, step: Step)
    requires Possible(s, step) && MaxIsStuck(s)
    ensures MaxIsStuck(After(s, step))
    ensures s.count == REFCOUNT_MAX ==> After(s, step).count == REFCOUNT_MAX
  {
  }

  lemma {:induction false} MaxIsAlwaysStuck(init: State, run: Run<Step>)
    requires Fresh(init) && PossibleRun(init, run)
    ensures MaxIsStuck(End(init, run))
  {
    if run.Then? {
      MaxIsAlwaysStuck(init, run.past);
      MaxStaysStuck(End(init, run.past), run.last);
    }
  }

  /** A saturated count stays saturated for ever, under every interleaving. */
  lemma {:induction false} SaturatedForEver(init: State, run: Run<Step>, more: Run<Step>)
    requires Fresh(init) && PossibleRun(init, run) && PossibleRun(init, more) && Extends(run, more)
    requires End(init, run).count == REFCOUNT_MAX
    ensures End(init, more).count == REFCOUNT_MAX
  {
    if more != run {
      SaturatedForEver(init, run, more.past);
      MaxIsAlwaysStuck(init, more.past);
      MaxStaysStuck(End(init, more.past), more.last);
    }
  }

  predicate Extends<E(==)>(run: Run<E>, more: Run<E>) {
    more == run || (more.Then? && Extends(run, more.past))
  }

  lemma {:induction false} TurnIsLocked(s: State, t: nat, spurious: bool)
    requires Possible(s, Turn(t, spurious)) && MaxIsStuck(s) && s.threads[t].local != Looping(DecAndTestZero, 0)
    ensures match Answered(s, t, spurious)
      case Some(a) => Locked(s.count, s.threads[t].local.op) == (After(s, Turn(t, spurious)).count, a)
      case None => After(s, Turn(t, spurious)).count == s.count
  {
  }

  function AbortAnswers(answers: Run<(Op, Answer)>): nat {
    if answers.Start? then 0 else AbortAnswers(answers.past) + if answers.last.1 == Abort then 1 else 0
  }

  /** Every run of the loops, with any interleaving and any spurious failures, is a run of the counter
      under the lock, as long as the process was not aborted: each operation takes effect where it answers. */
  lemma {:induction false} LoopsRefineLock(init: State, run: Run<Step>)
    requires Fresh(init) && PossibleRun(init, run) && AbortAnswers(Answers(init, run)) == 0
    ensures LockedRun(init.count, Answers(init, run), End(init, run).count)
  {
    if run.Then? {
      var s, step := End(init, run.past), run.last;
      LoopsRefineLock(init, run.past);
      MaxIsAlwaysStuck(init, run.past);
      if step.Turn? {
        assert s.threads[step.thread].local != Looping(DecAndTestZero, 0);
        TurnIsLocked(s, step.thread, step.spurious);
      }
    }
  }

  /** The counter under the lock reaches one count only. */
  lemma {:induction false} LockedRunIsUnique(initial: Count, answers: Run<(Op, Answer)>, a: Count, b: Count)
    requires LockedRun(initial, answers, a) && LockedRun(initial, answers, b)
    ensures a == b
  {
    if answers.Then? {
      var (op, answer) := answers.last;
      var x: Count :| LockedRun(initial, answers.past, x) && Locked(x, op) == (a, answer);
      var y: Count :| LockedRun(initial, answers.past, y) && Locked(y, op) == (b, answer);
      LockedRunIsUnique(initial, answers.past, x, y);
    }
  }

  /** The abort itself is one of the counter under the lock if and only if the count is still zero. */
  lemma {:induction false} AbortIsExact(init: State, run: Run<Step>)
    requires Fresh(init) && PossibleRun(init, run) && run.Then?
    requires AbortAnswers(Answers(init, run.past)) == 0 && AbortAnswers(Answers(init, run)) == 1
    ensures LockedRun(init.count, Answers(init, run), End(init, run).count) <==> End(init, run).count == 0
  {
    LoopsRefineLock(init, run.past);
    var past, count := Answers(init, run.past), End(init, run).count;
    assert Answers(init, run) == Then(past, (DecAndTestZero, Abort));
    if LockedRun(init.count, Answers(init, run), count) {
      var x: Count :| LockedRun(init.count, past, x) && Locked(x, DecAndTestZero) == (count, Abort);
      LockedRunIsUnique(init.count, past, x, count);
    }
  }

  /** A late abort: between the loop that reads zero and its abort, another thread counts up. */
  lemma {:induction false} LateAbort() returns (init: State, run: Run<Step>)
    ensures Fresh(init) && PossibleRun(init, run)
    ensures Answers(init, run) == Then(Then(Start, (Inc, Returned)), (DecAndTestZero, Abort))
    ensures End(init, run).count == 1 && !LockedRun(init.count, Answers(init, run), 1)
  {
    init := State(0, [Thread(Idle, 0), Thread(Idle, 0)]);
    var a := Then(Start, Begin(0, DecAndTestZero));
    var b := Then(a, Begin(1, Inc));
    var c := Then(b, Turn(1, false));
    run := Then(c, Turn(0, false));
    assert PossibleRun(init, a) && End(init, a).threads == [Thread(Looping(DecAndTestZero, 0), 0), Thread(Idle, 0)];
    assert PossibleRun(init, b) && End(init, b).threads == [Thread(Looping(DecAndTestZero, 0), 0), Thread(Looping(Inc, 0), 0)];
    assert PossibleRun(init, c) && End(init, c).count == 1 && End(init, c).threads[0] == Thread(Looping(DecAndTestZero, 0), 0);
    assert Answers(init, c) == Then(Start, (Inc, Returned));
    AbortIsExact(init, run);
  }

  lemma {:induction false} DoomStays(s: State, step: Step)
    requires Possible(s, step) && Doomed(s)
    ensures Doomed(After(s, step))
  {
    var t :| 0 <= t < |s.threads| && s.threads[t].local == Looping(DecAndTestZero, 0);
    assert After(s, step).threads[t].local == Looping(DecAndTestZero, 0);
  }

  lemma {:induction false} AbortIsDoomed(init: State, run: Run<Step>)
    requires PossibleRun(init, run) && AbortAnswers(Answers(init, run)) > 0
    ensures Doomed(End(init, run))
  {
    var s, step := End(init, run.past), run.last;
    if AbortAnswers(Answers(init, run.past)) > 0 {
      AbortIsDoomed(init, run.past);
      DoomStays(s, step);
    } else {
      assert s.threads[step.thread].local == Looping(DecAndTestZero, 0);
    }
  }

  /** A loop reads zero only where the counter under the lock would abort at once. */
  lemma {:induction false} DoomIsLockedAbort(init: State, run: Run<Step>)
    requires Fresh(init) && PossibleRun(init, run) && run.Then?
    requires !Doomed(End(init, run.past)) && Doomed(End(init, run))
    ensures LockedRun(init.count, Answers(init, run.past), 0) && Locked(0, DecAndTestZero).1 == Abort
    ensures Answers(init, run) == Answers(init, run.past)
  {
    if AbortAnswers(Answers(init, run.past)) > 0 {
      AbortIsDoomed(init, run.past);
    }
    LoopsRefineLock(init, run.past);
    var s, e := End(init, run.past), End(init, run);
    var t :| 0 <= t < |e.threads| && e.threads[t].local == Looping(DecAndTestZero, 0);
    assert s.threads[t].local != Looping(DecAndTestZero, 0);
  }

  // ----- Threads that use and release only references they own -----

  function TotalOwned(threads: seq<Thread>): nat {
    if threads == [] then 0 else TotalOwned(threads[..|threads| - 1]) + threads[|threads| - 1].owned
  }

  lemma {:induction false} TotalChanges(threads: seq<Thread>, t: nat, thread: Thread)
    requires t < |threads|
    ensures TotalOwned(threads[t := thread]) == TotalOwned(threads) - threads[t].owned + thread.owned
    ensures threads[t].owned <= TotalOwned(threads)
  {
    var last := |threads| - 1;
    if t < last {
      TotalChanges(threads[..last], t, thread);
      assert threads[t := thread][..last] == threads[..last][t := thread];
    } else {
      assert threads[t := thread][..last] == threads[..last];
    }
  }

  /** Both operations are made through a reference of the caller, which only an idle thread gives away. */
  predicate Disciplined(s: State, step: Step)
    requires Possible(s, step)
  {
    match step
    case Begin(t, _) => s.threads[t].owned > 0
    case Turn(_, _) => true
    case Give(t, to) => s.threads[t].owned > 0 && s.threads[t].local.Idle?
  }

  predicate DisciplinedRun(init: State, run: Run<Step>)
    requires PossibleRun(init, run)
  {
    run.Then? ==> DisciplinedRun(init, run.past) && Disciplined(End(init, run.past), run.last)
  }

  /** Below saturation the count is the number of references; a loop in progress holds one. */
  predicate Balanced(s: State) {
    && (s.count == REFCOUNT_MAX || s.count == TotalOwned(s.threads))
    && forall t :: 0 <= t < |s.threads| && s.threads[t].local.Looping? ==>
         s.threads[t].owned > 0 && (s.threads[t].local.expected > 0)
  }

  lemma {:induction false} TurnStaysBalanced(s: State, step: Step)
    requires Possible(s, step) && !step.Give? && Disciplined(s, step) && MaxIsStuck(s) && Balanced(s)
    ensures Balanced(After(s, step))
  {
    TotalChanges(s.threads, step.thread, After(s, step).threads[step.thread]);
  }

  lemma {:induction false} GiveStaysBalanced(s: State, step: Step)
    requires Possible(s, step) && step.Give? && Disciplined(s, step) && Balanced(s)
    ensures Balanced(After(s, step))
  {
    var t := step.thread;
    var gone := s.threads[t := s.threads[t].(owned := s.threads[t].owned - 1)];
    TotalChanges(s.threads, t, gone[t]);
    TotalChanges(gone, step.to, gone[step.to].(owned := gone[step.to].owned + 1));
  }

  lemma {:induction false} StaysBalanced(s: State, step: Step)
    requires Possible(s, step) && Disciplined(s, step) && MaxIsStuck(s) && Balanced(s)
    ensures Balanced(After(s, step))
  {
    if step.Give? {
      GiveStaysBalanced(s, step);
    } else {
      TurnStaysBalanced(s, step);
    }
  }

  function ZeroAnswers(answers: Run<(Op, Answer)>): nat {
    if answers.Start? then 0 else ZeroAnswers(answers.past) + if answers.last.1 == Tested(true) then 1 else 0
  }

  predicate Created(init: State) {
    Fresh(init) && init.count == 1 && TotalOwned(init.threads) == 1
  }

  /** One object, from its creation with one reference, whatever the threads do with their references:
      nothing aborts; below saturation the count is the number of references, and exactly one release,
      the last, is told that it reached zero; a saturated object is never released. */
  lemma {:induction false} LastReleaseIsUnique(init: State, run: Run<Step>)
    requires Created(init) && PossibleRun(init, run) && DisciplinedRun(init, run)
    ensures Balanced(End(init, run)) && AbortAnswers(Answers(init, run)) == 0
    ensures ZeroAnswers(Answers(init, run)) == if End(init, run).count == 0 then 1 else 0
  {
    if run.Then? {
      var s, step := End(init, run.past), run.last;
      LastReleaseIsUnique(init, run.past);
      MaxIsAlwaysStuck(init, run.past);
      StaysBalanced(s, step);
      if step.Turn? {
        TotalChanges(s.threads, step.thread, s.threads[step.thread]);
      }
    }
  }

  /** So with threads that keep to their references every run is one of the counter under the lock. */
  lemma {:induction false} DisciplinedRefinesLock(init: State, run: Run<Step>)
    requires Created(init) && PossibleRun(init, run) && DisciplinedRun(init, run)
    ensures LockedRun(init.count, Answers(init, run), End(init, run).count)
  {
    LastReleaseIsUnique(init, run);
    LoopsRefineLock(init, run);
  }
}
