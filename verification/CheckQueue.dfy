/**
 The parallel check queue: one master and any number of workers share a stack of checks
 under a mutex. Every critical section is one step, every evaluated check is one step,
 and steps of different threads interleave in any order. A sleeping thread may wake at
 any time, so lost and spurious notifications are both covered.
 */
module CheckQueue {
  import opened Numbers

  /** A pending verification and what running it returns. */
  datatype Check = Check(id: int, passes: bool)

  /** Where a thread stands; thread 0 is the master. */
  datatype Phase =
    | Outside                                      // before the loop, or (master) after Wait returned
    | Waiting(notified: bool)                      // asleep on its condition variable
    | Working(batch: seq<Check>, done: nat, ok: bool)  // running its batch outside the lock

  /**
   `added` and `retired` record what was added since the last Wait returned, and which
   of that has been accounted for; no step reads them.
   */
  datatype State = State(
    queue: seq<Check>, nIdle: int, nTotal: int, fAllOk: bool, nTodo: int,
    threads: seq<Phase>, added: multiset<Check>, retired: multiset<Check>)

  datatype Action = Add(checks: seq<Check>) | Enter(t: nat) | Wake(t: nat) | Eval(t: nat)

  datatype Outcome = Outcome(s: State, returned: bool, verdict: bool)

  // ---------- the protocol ----------

  function Init(workers: nat): State {
    State([], 0, 0, true, 0, seq(workers + 1, _ => Outside), multiset{}, multiset{})
  }

  predicate Enabled(s: State, a: Action) {
    match a
    case Add(_) => |s.threads| > 0 && s.threads[0].Outside?
    case Enter(t) => t < |s.threads| && (s.threads[t].Outside?
        || (s.threads[t].Working? && s.threads[t].done == |s.threads[t].batch|))
    case Wake(t) => t < |s.threads| && s.threads[t].Waiting?
    case Eval(t) => t < |s.threads| && s.threads[t].Working? && s.threads[t].done < |s.threads[t].batch|
  }

  /**
   How many checks a thread takes off the queue: as many as leave an equal share for all
   threads, the idle ones counted twice, and for one more, up to a limit; but at least one.
   */
  function BatchSize(s: State, nBatchSize: nat): (n: int)
    requires s.nTotal + s.nIdle + 1 > 0
    ensures s.queue != [] ==> 1 <= n <= |s.queue|
    ensures 1 <= n <= Max(1, nBatchSize)
    ensures n > 1 ==> n * (s.nTotal + s.nIdle + 1) <= |s.queue|
    ensures n < nBatchSize ==> |s.queue| < (n + 1) * (s.nTotal + s.nIdle + 1)
  {
    var share := |s.queue| / (s.nTotal + s.nIdle + 1);
    QuotientFits(|s.queue|, s.nTotal + s.nIdle + 1);
    ShareMeans(|s.queue|, s.nTotal + s.nIdle + 1, Max(1, Min(nBatchSize, share)), nBatchSize);
    Max(1, Min(nBatchSize, share))
  }

  lemma ShareMeans(size: nat, k: int, n: nat, limit: nat)
    requires k > 0 && n == Max(1, Min(limit, size / k))
    ensures n > 1 ==> n * k <= size
    ensures n < limit ==> size < (n + 1) * k
  {
    var q := size / k;
    QuotientBounds(size, k);
    if n > 1 { MulLe(n, q, k); }
    if n < limit { MulLe(q + 1, n + 1, k); }
  }

  lemma {:induction false} Grows(q: nat, k: int)
    requires k > 0
    ensures q <= q * k
  {
    if k > 1 { Grows(q, k - 1); }
  }

  lemma QuotientFits(n: nat, k: int)
    requires k > 0
    ensures n / k <= n
  {
    var q, r := n / k, n % k;
    assert n == q * k + r;
    Grows(q, k);
  }

  /** The last n checks of the queue, the newest first, as popping them one by one gives. */
  function Popped(queue: seq<Check>, n: nat): seq<Check>
    requires n <= |queue|
  {
    seq(n, i requires 0 <= i < n => queue[|queue| - 1 - i])
  }

  /** The rest of the critical section, from the test for an empty queue on. */
  function Section(s: State, t: nat, nBatchSize: nat): Outcome
    requires t < |s.threads| && s.nTotal + s.nIdle + 1 > 0
  {
    if s.queue != [] then Outcome(Take(s, t, BatchSize(s, nBatchSize)), false, false)
    else if t == 0 && s.nTodo == 0 then Outcome(Return(s), true, s.fAllOk)
    else Outcome(Sleep(s, t), false, false)
  }

  /** Moves the newest n checks into a batch; the shared verdict decides whether to run them. */
  function Take(s: State, t: nat, n: nat): State
    requires t < |s.threads| && n <= |s.queue|
  {
    s.(queue := s.queue[..|s.queue| - n], threads := s.threads[t := Working(Popped(s.queue, n), 0, s.fAllOk)])
  }

  function Sleep(s: State, t: nat): State
    requires t < |s.threads|
  {
    s.(nIdle := s.nIdle + 1, threads := s.threads[t := Waiting(false)])
  }

  /** The master leaves, resetting the verdict for the next session. */
  function Return(s: State): State {
    s.(nTotal := s.nTotal - 1, fAllOk := true, added := multiset{}, retired := multiset{})
  }

  /** The state once a finished batch is accounted for, before any notification. */
  function Retired(s: State, t: nat): State
    requires t < |s.threads| && s.threads[t].Working?
  {
    var p := s.threads[t];
    s.(fAllOk := s.fAllOk && p.ok, nTodo := s.nTodo - |p.batch|, retired := s.retired + multiset(p.batch),
       threads := s.threads[t := Outside])
  }

  /** Entering the critical section: account for the batch just run, or count a newcomer. */
  function Arrive(s: State, t: nat): State
    requires t < |s.threads| && |s.threads| > 0
  {
    var p := s.threads[t];
    if p.Working? then
      var s' := Retired(s, t);
      if s'.nTodo == 0 && t != 0 && s'.threads[0].Waiting? then
        s'.(threads := s'.threads[0 := Waiting(true)])
      else s'
    else
      s.(nTotal := s.nTotal + 1)
  }

  /** The divisor in the batch size is positive. */
  predicate Countable(s: State, a: Action) {
    s.nTotal >= 0 && s.nIdle >= if a.Wake? then 1 else 0
  }

  function Step(s: State, a: Action, nBatchSize: nat): (r: Outcome)
    requires Enabled(s, a) && Countable(s, a)
  {
    match a
    case Add(checks) =>
      Outcome(s.(queue := s.queue + checks, nTodo := s.nTodo + |checks|, added := s.added + multiset(checks)), false,
          false)
    case Enter(t) => Section(Arrive(s, t), t, nBatchSize)
    case Wake(t) => Section(Woken(s, t), t, nBatchSize)
    case Eval(t) => Outcome(Evaluated(s, t), false, false)
  }

  /** One more check of a batch: once one has failed the rest are skipped. */
  function Evaluated(s: State, t: nat): State
    requires Enabled(s, Eval(t))
  {
    var Working(batch, done, ok) := s.threads[t];
    s.(threads := s.threads[t := Working(batch, done + 1, ok && batch[done].passes)])
  }

  function Woken(s: State, t: nat): State
    requires t < |s.threads|
  {
    s.(nIdle := s.nIdle - 1, threads := s.threads[t := Outside])
  }

  // ---------- sums over the threads ----------

  function BatchOf(p: Phase): multiset<Check> {
    if p.Working? then multiset(p.batch) else multiset{}
  }

  /** The checks that threads have taken but not yet accounted for. */
  function Held(ts: seq<Phase>): multiset<Check> {
    if ts == [] then multiset{} else BatchOf(ts[0]) + Held(ts[1..])
  }

  /** How many they are. */
  function Outstanding(ts: seq<Phase>): nat {
    if ts == [] then 0 else (if ts[0].Working? then |ts[0].batch| else 0) + Outstanding(ts[1..])
  }

  function Idle(ts: seq<Phase>): nat {
    if ts == [] then 0 else (if ts[0].Waiting? then 1 else 0) + Idle(ts[1..])
  }

  function Started(ts: seq<Phase>): nat {
    if ts == [] then 0 else (if ts[0].Outside? then 0 else 1) + Started(ts[1..])
  }

  /** Changing one thread's phase moves exactly its own batch. */
  lemma {:induction false} ReplaceHeldAt(ts: seq<Phase>, i: nat, p: Phase, c: Check)
    requires i < |ts|
    ensures Held(ts[i := p])[c] + BatchOf(ts[i])[c] == Held(ts)[c] + BatchOf(p)[c]
  {
    if i == 0 {
      assert ts[i := p][1..] == ts[1..];
    } else {
      ReplaceHeldAt(ts[1..], i - 1, p, c);
      assert ts[i := p][1..] == ts[1..][i - 1 := p];
    }
  }

  lemma {:induction false} ReplaceCounts(ts: seq<Phase>, i: nat, p: Phase)
    requires i < |ts|
    ensures Outstanding(ts[i := p]) ==
            Outstanding(ts) - (if ts[i].Working? then |ts[i].batch| else 0) + (if p.Working? then |p.batch| else 0)
    ensures Idle(ts[i := p]) == Idle(ts) - (if ts[i].Waiting? then 1 else 0) + (if p.Waiting? then 1 else 0)
    ensures Started(ts[i := p]) == Started(ts) - (if ts[i].Outside? then 0 else 1) + (if p.Outside? then 0 else 1)
  {
    if i == 0 {
      assert ts[i := p][1..] == ts[1..];
    } else {
      ReplaceCounts(ts[1..], i - 1, p);
      assert ts[i := p][1..] == ts[1..][i - 1 := p];
    }
  }

  lemma {:induction false} SleeperCounts(ts: seq<Phase>, t: nat)
    requires t < |ts| && ts[t].Waiting?
    ensures Idle(ts) >= 1
  {
    if t > 0 { SleeperCounts(ts[1..], t - 1); }
  }

  lemma {:induction false} SomeoneHolds(ts: seq<Phase>) returns (t: nat)
    requires Outstanding(ts) > 0
    ensures t < |ts| && ts[t].Working? && ts[t].batch != []
  {
    if ts[0].Working? && ts[0].batch != [] {
      t := 0;
    } else {
      t := SomeoneHolds(ts[1..]);
      t := t + 1;
    }
  }

  // ---------- the invariant ----------

  predicate AllPass(m: multiset<Check>) {
    forall c | c in m :: c.passes
  }

  /** A thread's local verdict speaks for exactly the checks it has run. */
  predicate PhaseOk(p: Phase, added: multiset<Check>) {
    p.Working? ==>
      && p.batch != [] && p.done <= |p.batch|
      && (p.ok ==> forall i | 0 <= i < p.done :: p.batch[i].passes)
      && (!p.ok ==> !AllPass(added))
  }

  /** Nothing is lost or run twice: what was added is queued, held or retired. */
  ghost predicate Conserved(s: State) {
    forall c :: ConservedAt(s, c)
  }

  predicate ConservedAt(s: State, c: Check) {
    s.added[c] == multiset(s.queue)[c] + Held(s.threads)[c] + s.retired[c]
  }

  /** The counters, with `inside` threads holding the lock and not shown in `threads`. */
  ghost predicate Counted(s: State, inside: nat) {
    && s.nTodo == |s.queue| + Outstanding(s.threads)
    && s.nIdle == Idle(s.threads)
    && s.nTotal == Started(s.threads) + inside
    && Conserved(s)
  }

  /** The shared verdict speaks for what is retired, each local one for what was run. */
  ghost predicate Verdicts(s: State) {
    && (s.fAllOk ==> AllPass(s.retired))
    && (!s.fAllOk ==> !AllPass(s.added))
    && (forall t | 0 <= t < |s.threads| :: PhaseOk(s.threads[t], s.added))
  }

  /** The master sleeps on an empty queue, notified exactly when nothing is outstanding. */
  ghost predicate MasterMaySleep(s: State) {
    && |s.threads| > 0
    && (s.threads[0].Waiting? ==> s.queue == [] && (s.threads[0].notified <==> s.nTodo == 0))
  }

  ghost predicate Consistent(s: State, inside: nat) {
    Counted(s, inside) && Verdicts(s) && MasterMaySleep(s)
  }

  ghost predicate Inv(s: State) {
    Consistent(s, 0)
  }

  /** A change of phase that takes up or drops no checks. */
  lemma PhaseConserves(s: State, s': State, t: nat, p: Phase)
    requires Conserved(s) && t < |s.threads| && s'.threads == s.threads[t := p] && BatchOf(p) == BatchOf(s.threads[t])
    requires s'.queue == s.queue && s'.added == s.added && s'.retired == s.retired
    ensures Conserved(s')
  {
    forall c ensures ConservedAt(s', c) {
      assert ConservedAt(s, c);
      ReplaceHeldAt(s.threads, t, p, c);
    }
  }

  lemma ArriveKeeps(s: State, t: nat)
    requires Inv(s) && Enabled(s, Enter(t))
    ensures Consistent(Arrive(s, t), 1) && Arrive(s, t).threads[t] == Outside
  {
    ArriveCounts(s, t);
    ArriveVerdicts(s, t);
    ArriveNotifies(s, t);
  }

  lemma ArriveNotifies(s: State, t: nat)
    requires MasterMaySleep(s) && Enabled(s, Enter(t)) && Arrive(s, t).nTodo >= 0
    ensures MasterMaySleep(Arrive(s, t)) && Arrive(s, t).threads[t] == Outside
  {
  }

  lemma RetireCounts(s: State, t: nat)
    requires Counted(s, 0) && t < |s.threads| && s.threads[t].Working?
    ensures Counted(Retired(s, t), 1)
  {
    ReplaceCounts(s.threads, t, Outside);
    forall c ensures ConservedAt(Retired(s, t), c) {
      assert ConservedAt(s, c);
      ReplaceHeldAt(s.threads, t, Outside, c);
    }
  }

  lemma ArriveCounts(s: State, t: nat)
    requires Counted(s, 0) && Enabled(s, Enter(t))
    ensures Counted(Arrive(s, t), 1)
  {
    if s.threads[t].Working? {
      RetireCounts(s, t);
      var s' := Retired(s, t);
      if s'.threads[0].Waiting? {
        ReplaceCounts(s'.threads, 0, Waiting(true));
        PhaseConserves(s', s'.(threads := s'.threads[0 := Waiting(true)]), 0, Waiting(true));
      }
    } else {
      PhaseConserves(s, Arrive(s, t), t, Outside);
    }
  }

  lemma ArriveVerdicts(s: State, t: nat)
    requires Inv(s) && Enabled(s, Enter(t))
    ensures Verdicts(Arrive(s, t))
  {
    var p := s.threads[t];
    if p.Working? && s.fAllOk && p.ok {
      assert forall c | c in multiset(p.batch) :: c in p.batch;
      assert forall i | 0 <= i < |p.batch| :: p.batch[i].passes;
    }
  }

  lemma WakeKeeps(s: State, t: nat)
    requires Inv(s) && Enabled(s, Wake(t))
    ensures Consistent(Woken(s, t), 1) && Woken(s, t).threads[t] == Outside
  {
    PhaseConserves(s, Woken(s, t), t, Outside);
    ReplaceCounts(s.threads, t, Outside);
  }

  lemma {:induction false} SplitQueue(queue: seq<Check>, n: nat, c: Check)
    requires n <= |queue|
    ensures multiset(queue)[c] == multiset(queue[..|queue| - n])[c] + multiset(Popped(queue, n))[c]
  {
    if n == 0 {
      assert queue[..|queue| - n] == queue;
    } else {
      var rest := queue[..|queue| - 1];
      SplitQueue(rest, n - 1, c);
      assert queue == rest + [queue[|queue| - 1]];
      assert rest[..|rest| - (n - 1)] == queue[..|queue| - n];
      assert Popped(queue, n) == [queue[|queue| - 1]] + Popped(rest, n - 1);
    }
  }

  lemma TakeConserves(s: State, t: nat, n: nat)
    requires t < |s.threads| && s.threads[t] == Outside && Conserved(s) && n <= |s.queue|
    ensures Conserved(Take(s, t, n))
  {
    forall c ensures ConservedAt(Take(s, t, n), c) {
      assert ConservedAt(s, c);
      ReplaceHeldAt(s.threads, t, Take(s, t, n).threads[t], c);
      SplitQueue(s.queue, n, c);
    }
  }

  lemma TakeCounts(s: State, t: nat, n: nat)
    requires t < |s.threads| && s.threads[t] == Outside && Counted(s, 1) && n <= |s.queue|
    ensures Counted(Take(s, t, n), 0)
  {
    ReplaceCounts(s.threads, t, Take(s, t, n).threads[t]);
    TakeConserves(s, t, n);
  }

  lemma SleepCounts(s: State, t: nat)
    requires t < |s.threads| && s.threads[t] == Outside && Counted(s, 1)
    ensures Counted(Sleep(s, t), 0)
  {
    PhaseConserves(s, Sleep(s, t), t, Waiting(false));
    ReplaceCounts(s.threads, t, Waiting(false));
  }

  lemma ReturnCounts(s: State)
    requires Counted(s, 1) && s.queue == [] && s.nTodo == 0
    ensures Counted(Return(s), 0)
  {
    NobodyHolds(s.threads);
    assert forall c :: ConservedAt(Return(s), c);
  }

  lemma SectionCounts(s: State, t: nat, nBatchSize: nat)
    requires t < |s.threads| && s.threads[t] == Outside && Counted(s, 1)
    ensures Counted(Section(s, t, nBatchSize).s, 0)
  {
    if s.queue != [] {
      TakeCounts(s, t, BatchSize(s, nBatchSize));
    } else if t == 0 && s.nTodo == 0 {
      ReturnCounts(s);
    } else {
      SleepCounts(s, t);
    }
  }

  lemma {:induction false} NobodyHolds(ts: seq<Phase>)
    requires Outstanding(ts) == 0
    ensures Held(ts) == multiset{}
    ensures forall t | 0 <= t < |ts| :: ts[t].Working? ==> ts[t].batch == []
  {
    if ts != [] {
      NobodyHolds(ts[1..]);
      forall t | 0 <= t < |ts| ensures ts[t].Working? ==> ts[t].batch == [] {
        if t > 0 { assert ts[t] == ts[1..][t - 1]; }
      }
    }
  }

  lemma SectionVerdicts(s: State, t: nat, nBatchSize: nat)
    requires t < |s.threads| && s.threads[t] == Outside && Consistent(s, 1)
    ensures Verdicts(Section(s, t, nBatchSize).s)
    ensures Section(s, t, nBatchSize).returned ==> (Section(s, t, nBatchSize).verdict <==> AllPass(s.added))
  {
    if s.queue == [] && t == 0 && s.nTodo == 0 {
      NobodyHolds(s.threads);
      assert forall c :: ConservedAt(s, c) ==> s.added[c] == s.retired[c];
      assert s.added == s.retired;
    }
  }

  /** The end of the critical section keeps the invariant, and a verdict is exactly right. */
  lemma SectionKeeps(s: State, t: nat, nBatchSize: nat)
    requires t < |s.threads| && s.threads[t] == Outside && Consistent(s, 1)
    ensures Inv(Section(s, t, nBatchSize).s)
    ensures Section(s, t, nBatchSize).returned ==> t == 0 && (Section(s, t, nBatchSize).verdict <==> AllPass(s.added))
  {
    SectionCounts(s, t, nBatchSize);
    SectionVerdicts(s, t, nBatchSize);
  }

  lemma EvalCounts(s: State, t: nat)
    requires Counted(s, 0) && Enabled(s, Eval(t))
    ensures Counted(Evaluated(s, t), 0)
  {
    var p := Evaluated(s, t).threads[t];
    PhaseConserves(s, Evaluated(s, t), t, p);
    ReplaceCounts(s.threads, t, p);
  }

  lemma EvalVerdicts(s: State, t: nat)
    requires Conserved(s) && Verdicts(s) && Enabled(s, Eval(t))
    ensures Verdicts(Evaluated(s, t))
  {
    var Working(batch, done, ok) := s.threads[t];
    assert PhaseOk(s.threads[t], s.added);
    if ok && !batch[done].passes {
      HeldHas(s.threads, t, batch[done]);
      assert ConservedAt(s, batch[done]);
    }
  }

  lemma EvalKeeps(s: State, t: nat)
    requires Inv(s) && Enabled(s, Eval(t))
    ensures Inv(Evaluated(s, t))
  {
    EvalCounts(s, t);
    EvalVerdicts(s, t);
  }

  lemma {:induction false} HeldHas(ts: seq<Phase>, t: nat, c: Check)
    requires t < |ts| && BatchOf(ts[t])[c] > 0
    ensures Held(ts)[c] > 0
  {
    if t > 0 { HeldHas(ts[1..], t - 1, c); }
  }

  lemma AddKeeps(s: State, checks: seq<Check>, nBatchSize: nat)
    requires Inv(s) && Enabled(s, Add(checks)) && Countable(s, Add(checks))
    ensures Inv(Step(s, Add(checks), nBatchSize).s)
  {
    var s' := Step(s, Add(checks), nBatchSize).s;
    assert forall c | c in s.added :: c in s'.added;
    assert multiset(s'.queue) == multiset(s.queue) + multiset(checks);
    forall c ensures ConservedAt(s', c) {
      assert ConservedAt(s, c);
    }
  }

  lemma EnterKeeps(s: State, t: nat, nBatchSize: nat)
    requires Inv(s) && Enabled(s, Enter(t)) && Countable(s, Enter(t))
    ensures Inv(Step(s, Enter(t), nBatchSize).s)
    ensures Step(s, Enter(t), nBatchSize).returned ==> (Step(s, Enter(t), nBatchSize).verdict <==> AllPass(s.added))
  {
    ArriveKeeps(s, t);
    SectionKeeps(Arrive(s, t), t, nBatchSize);
  }

  lemma WakeStepKeeps(s: State, t: nat, nBatchSize: nat)
    requires Inv(s) && Enabled(s, Wake(t)) && Countable(s, Wake(t))
    ensures Inv(Step(s, Wake(t), nBatchSize).s)
    ensures Step(s, Wake(t), nBatchSize).returned ==> (Step(s, Wake(t), nBatchSize).verdict <==> AllPass(s.added))
  {
    WakeKeeps(s, t);
    SectionKeeps(Woken(s, t), t, nBatchSize);
  }

  /** The batch size never divides by zero: the counters are what they count. */
  lemma StepDefined(s: State, a: Action)
    requires Inv(s) && Enabled(s, a)
    ensures Countable(s, a)
  {
    if a.Wake? { SleeperCounts(s.threads, a.t); }
  }

  /** Every enabled step is defined and keeps the invariant; a verdict covers all that was added. */
  lemma StepKeeps(s: State, a: Action, nBatchSize: nat)
    requires Inv(s) && Enabled(s, a)
    ensures Countable(s, a)
    ensures Inv(Step(s, a, nBatchSize).s)
    ensures Step(s, a, nBatchSize).returned ==> (Step(s, a, nBatchSize).verdict <==> AllPass(s.added))
  {
    StepDefined(s, a);
    match a
    case Add(checks) => AddKeeps(s, checks, nBatchSize);
    case Enter(t) => EnterKeeps(s, t, nBatchSize);
    case Wake(t) => WakeStepKeeps(s, t, nBatchSize);
    case Eval(t) => EvalKeeps(s, t);
  }

  lemma StepAdded(s: State, a: Action, nBatchSize: nat)
    requires Enabled(s, a) && Countable(s, a)
    ensures Step(s, a, nBatchSize).s.added ==
            if Step(s, a, nBatchSize).returned then multiset{}
            else s.added + if a.Add? then multiset(a.checks) else multiset{}
  {
  }

  // ---------- whole runs ----------

  /** `states` is what some interleaving of `actions` produces from the start. */
  ghost predicate IsRun(workers: nat, nBatchSize: nat, states: seq<State>, actions: seq<Action>) {
    && |states| == |actions| + 1
    && states[0] == Init(workers)
    && forall i | 0 <= i < |actions| :: RunStep(nBatchSize, states, actions, i)
  }

  ghost predicate RunStep(nBatchSize: nat, states: seq<State>, actions: seq<Action>, i: nat)
    requires i < |actions| && |states| == |actions| + 1
  {
    && Enabled(states[i], actions[i])
    && (Countable(states[i], actions[i]) ==> states[i + 1] == Step(states[i], actions[i], nBatchSize).s)
  }

  /** The checks added before step i and after the latest return of Wait before it. */
  ghost function AddedSince(nBatchSize: nat, states: seq<State>, actions: seq<Action>, i: nat): multiset<Check>
    requires i <= |actions| && |states| == |actions| + 1
  {
    if i == 0 then multiset{}
    else if Enabled(states[i - 1], actions[i - 1]) && Countable(states[i - 1], actions[i - 1])
         && Step(states[i - 1], actions[i - 1], nBatchSize).returned then multiset{}
    else AddedSince(nBatchSize, states, actions, i - 1) + if actions[i - 1].Add? then multiset(actions[i - 1].checks)
        else multiset{}
  }

  lemma {:induction false} InitHolds(workers: nat)
    ensures Inv(Init(workers))
  {
    AllOutside(Init(workers).threads);
    assert forall c :: ConservedAt(Init(workers), c);
  }

  lemma {:induction false} AllOutside(ts: seq<Phase>)
    requires forall i | 0 <= i < |ts| :: ts[i] == Outside
    ensures Held(ts) == multiset{} && Outstanding(ts) == 0 && Idle(ts) == 0 && Started(ts) == 0
  {
    if ts != [] { AllOutside(ts[1..]); }
  }

  lemma {:induction false} RunKeeps(workers: nat, nBatchSize: nat, states: seq<State>, actions: seq<Action>, i: nat)
    requires IsRun(workers, nBatchSize, states, actions) && i <= |actions|
    ensures Inv(states[i]) && states[i].added == AddedSince(nBatchSize, states, actions, i)
  {
    if i == 0 {
      InitHolds(workers);
    } else {
      RunKeeps(workers, nBatchSize, states, actions, i - 1);
      assert RunStep(nBatchSize, states, actions, i - 1);
      StepKeeps(states[i - 1], actions[i - 1], nBatchSize);
      StepAdded(states[i - 1], actions[i - 1], nBatchSize);
    }
  }

  /** On every run, Wait returns true exactly when all checks added since the previous Wait pass. */
  lemma VerdictIsExact(workers: nat, nBatchSize: nat, states: seq<State>, actions: seq<Action>, i: nat)
    requires IsRun(workers, nBatchSize, states, actions) && i < |actions|
    ensures Enabled(states[i], actions[i]) && Countable(states[i], actions[i])
    ensures Step(states[i], actions[i], nBatchSize).returned ==>
              (Step(states[i], actions[i], nBatchSize).verdict <==> AllPass(AddedSince(nBatchSize, states, actions, i)))
  {
    RunKeeps(workers, nBatchSize, states, actions, i);
    assert RunStep(nBatchSize, states, actions, i);
    StepKeeps(states[i], actions[i], nBatchSize);
  }

  /** A master asleep without a pending notification is waiting for a worker that holds checks. */
  lemma MasterSleepsOnlyForWork(workers: nat, nBatchSize: nat, states: seq<State>, actions: seq<Action>,
                            i: nat) returns (t: nat)
    requires IsRun(workers, nBatchSize, states, actions) && i <= |actions|
    requires states[i].threads != [] && states[i].threads[0] == Waiting(false)
    ensures 0 < t < |states[i].threads| && states[i].threads[t].Working? && states[i].threads[t].batch != []
    ensures Enabled(states[i], Eval(t)) || Enabled(states[i], Enter(t))
  {
    RunKeeps(workers, nBatchSize, states, actions, i);
    t := SomeoneHolds(states[i].threads);
    assert PhaseOk(states[i].threads[t], states[i].added);
  }

  /** Waking a notified master ends its Wait; waking it too early never does. */
  lemma MasterReturnsExactlyWhenNotified(workers: nat, nBatchSize: nat, states: seq<State>, actions: seq<Action>,
                            i: nat)
    requires IsRun(workers, nBatchSize, states, actions) && i <= |actions|
    requires states[i].threads != [] && states[i].threads[0].Waiting?
    ensures Countable(states[i], Wake(0))
    ensures Step(states[i], Wake(0), nBatchSize).returned <==> states[i].threads[0].notified
  {
    RunKeeps(workers, nBatchSize, states, actions, i);
    StepDefined(states[i], Wake(0));
  }

  // ---------- the loops inside a step ----------

  /** The loop that moves checks from the back of the queue into a batch. */
  method PopBatch(queue: seq<Check>, n: nat) returns (batch: seq<Check>, rest: seq<Check>)
    requires n <= |queue|
    ensures batch == Popped(queue, n) && rest == queue[..|queue| - n]
    ensures multiset(queue) == multiset(rest) + multiset(batch)
  {
    batch, rest := [], queue;
    for i := 0 to n
      invariant |rest| == |queue| - i && rest == queue[..|queue| - i]
      invariant |batch| == i && forall j | 0 <= j < i :: batch[j] == queue[|queue| - 1 - j]
      invariant multiset(queue) == multiset(rest) + multiset(batch)
    {
      var last := rest[|rest| - 1];
      assert rest == rest[..|rest| - 1] + [last];
      batch := batch + [last];
      rest := rest[..|rest| - 1];
    }
  }

  /** The loop that runs a batch, skipping all checks once one has failed. */
  method RunBatch(batch: seq<Check>, fOk: bool) returns (ok: bool)
    ensures ok <==> fOk && forall i | 0 <= i < |batch| :: batch[i].passes
  {
    ok := fOk;
    for i := 0 to |batch|
      invariant ok <==> fOk && forall j | 0 <= j < i :: batch[j].passes
    {
      if ok { ok := batch[i].passes; }
    }
  }
}
