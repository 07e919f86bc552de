/** The lazy module registry as a protocol of atomic steps: what runs between two suspensions of an
    `async` function is one step, and steps of different calls interleave arbitrarily. */
module LazyModules {

  type Name = string
  type Module = int

  /** The registered modules and their dependency names. */
  type Registry = map<Name, seq<Name>>

  /** What a call of `load` gave its caller to wait for. */
  datatype Promise = Ready | Of(task: nat) | Rejected

  /** Where one run of `resolve` stands. `Starting` lasts only inside a step. */
  datatype Phase =
    | Starting
    | Awaiting(dep: nat, on: Promise)
    | Loading
    | Succeeded(mod: Module)
    | Failed

  /** One run of `resolve`; `closed` once its `load` has deleted the pending entry. */
  datatype Task = Task(name: Name, phase: Phase, closed: bool)

  datatype Metrics = Metrics(loads: nat, successes: nat, failures: nat)

  datatype State = State(
    tasks: seq<Task>,
    pending: map<Name, nat>,
    resolved: map<Name, Module>,
    metrics: map<Name, Metrics>)

  predicate Acyclic(reg: Registry, rank: Name -> nat) {
    forall n, d :: n in reg && d in reg[n] && d in reg ==> rank(d) < rank(n)
  }

  function Height(reg: Registry, rank: Name -> nat, name: Name): nat {
    if name in reg then rank(name) + 1 else 0
  }

  function MetricsOf(s: State, name: Name): Metrics {
    if name in s.metrics then s.metrics[name] else Metrics(0, 0, 0)
  }

  // ---------------------------------------------------------------------------
  // Steps

  function SetPhase(s: State, id: nat, phase: Phase): State
    requires id < |s.tasks|
  {
    s.(tasks := s.tasks[id := s.tasks[id].(phase := phase)])
  }

  /** `resolve` is entered: a new task, counted as a load. */
  function Enter(s: State, name: Name): State {
    var m := MetricsOf(s, name);
    s.(tasks := s.tasks + [Task(name, Starting, false)],
       metrics := s.metrics[name := m.(loads := m.loads + 1)])
  }

  /** `load`, up to its first suspension. `pending` is set only after `resolve` has suspended. */
  function Load(reg: Registry, rank: Name -> nat, s: State, name: Name): (r: (State, Promise))
    requires Acyclic(reg, rank)
    ensures |s.tasks| <= |r.0.tasks|
    decreases Height(reg, rank, name), 0
  {
    if name in s.resolved then (s, Ready)
    else if name in s.pending then (s, Of(s.pending[name]))
    else if name !in reg then (s, Rejected)
    else
      var id := |s.tasks|;
      var suspended := Proceed(reg, rank, Enter(s, name), id, name, 0);
      (suspended.(pending := suspended.pending[name := id]), Of(id))
  }

  /** `resolve` goes on to dependency number `dep`, or to its loader after the last one. */
  function Proceed(reg: Registry, rank: Name -> nat, s: State, id: nat, name: Name, dep: nat): (s': State)
    requires Acyclic(reg, rank) && name in reg && id < |s.tasks|
    ensures |s.tasks| <= |s'.tasks|
    decreases rank(name), 1
  {
    if dep < |reg[name]| then
      var (after, promise) := Load(reg, rank, s, reg[name][dep]);
      SetPhase(after, id, Awaiting(dep, promise))
    else
      SetPhase(s, id, Loading)
  }

  datatype Event =
    | Call(name: Name)
    | Resume(id: nat)
    | LoaderReturns(id: nat, mod: Module)
    | LoaderThrows(id: nat)
    | Close(id: nat)

  predicate SettledOk(s: State, on: Promise) {
    on.Ready? || (on.Of? && on.task < |s.tasks| && s.tasks[on.task].phase.Succeeded?)
  }

  predicate SettledBad(s: State, on: Promise) {
    on.Rejected? || (on.Of? && on.task < |s.tasks| && s.tasks[on.task].phase.Failed?)
  }

  predicate Settled(phase: Phase) {
    phase.Succeeded? || phase.Failed?
  }

  /** A new `load` can come at any time; the others wait for what they continue. */
  predicate Enabled(s: State, e: Event) {
    match e
    case Call(_) => true
    case Resume(id) =>
      id < |s.tasks| && s.tasks[id].phase.Awaiting?
      && (SettledOk(s, s.tasks[id].phase.on) || SettledBad(s, s.tasks[id].phase.on))
    case LoaderReturns(id, _) => id < |s.tasks| && s.tasks[id].phase.Loading?
    case LoaderThrows(id) => id < |s.tasks| && s.tasks[id].phase.Loading?
    case Close(id) => id < |s.tasks| && Settled(s.tasks[id].phase) && !s.tasks[id].closed
  }

  function Fail(s: State, id: nat): State
    requires id < |s.tasks|
  {
    var name := s.tasks[id].name;
    var m := MetricsOf(s, name);
    SetPhase(s, id, Failed).(metrics := s.metrics[name := m.(failures := m.failures + 1)])
  }

  function Succeed(s: State, id: nat, mod: Module): State
    requires id < |s.tasks|
  {
    var name := s.tasks[id].name;
    var m := MetricsOf(s, name);
    SetPhase(s, id, Succeeded(mod)).(
      resolved := s.resolved[name := mod],
      metrics := s.metrics[name := m.(successes := m.successes + 1)])
  }

  predicate KnownNames(reg: Registry, s: State) {
    forall i :: 0 <= i < |s.tasks| ==> s.tasks[i].name in reg
  }

  function Step(reg: Registry, rank: Name -> nat, s: State, e: Event): State
    requires Acyclic(reg, rank) && Enabled(s, e) && KnownNames(reg, s)
  {
    match e
    case Call(name) => Load(reg, rank, s, name).0
    case Resume(id) =>
      if SettledOk(s, s.tasks[id].phase.on)
      then Proceed(reg, rank, s, id, s.tasks[id].name, s.tasks[id].phase.dep + 1)
      else Fail(s, id)
    case LoaderReturns(id, mod) => Succeed(s, id, mod)
    case LoaderThrows(id) => Fail(s, id)
    case Close(id) =>
      s.(tasks := s.tasks[id := s.tasks[id].(closed := true)], pending := s.pending - {s.tasks[id].name})
  }

  // ---------------------------------------------------------------------------
  // Invariant

  predicate DepsResolved(reg: Registry, s: State, name: Name, upTo: nat)
    requires name in reg
  {
    forall j :: 0 <= j < upTo && j < |reg[name]| ==> reg[name][j] in s.resolved
  }

  /** The promise a task waits for is one for that dependency. */
  predicate WaitsFor(reg: Registry, s: State, dep: Name, on: Promise) {
    match on
    case Ready => dep in s.resolved
    case Of(t) => t < |s.tasks| && s.tasks[t].name == dep && !s.tasks[t].phase.Starting?
    case Rejected => dep !in reg
  }

  /** A live task is the one its module's pending entry points to. */
  predicate OwnsPending(s: State, id: nat)
    requires id < |s.tasks|
  {
    s.tasks[id].name in s.pending && s.pending[s.tasks[id].name] == id
  }

  /** Dependencies are resolved in order, and all of them before the loader runs. */
  predicate PhaseFits(reg: Registry, s: State, name: Name, phase: Phase)
    requires name in reg
  {
    match phase
    case Awaiting(dep, on) =>
      dep < |reg[name]| && DepsResolved(reg, s, name, dep) && WaitsFor(reg, s, reg[name][dep], on)
    case Loading => DepsResolved(reg, s, name, |reg[name]|)
    case Succeeded(mod) => name in s.resolved && s.resolved[name] == mod
    case _ => true
  }

  predicate TaskOk(reg: Registry, s: State, id: nat)
    requires id < |s.tasks|
  {
    var t := s.tasks[id];
    && t.name in reg
    && (!Settled(t.phase) ==> !t.closed && t.name !in s.resolved)
    && (t.phase.Starting? ==> t.name !in s.pending)
    && (!t.phase.Starting? && !t.closed ==> OwnsPending(s, id))
    && PhaseFits(reg, s, t.name, t.phase)
  }

  predicate PendingOk(s: State, name: Name)
    requires name in s.pending
  {
    var id := s.pending[name];
    id < |s.tasks| && s.tasks[id].name == name && !s.tasks[id].closed && !s.tasks[id].phase.Starting?
  }

  predicate ClosedUnderDeps(reg: Registry, s: State) {
    forall n :: n in s.resolved ==> n in reg && DepsResolved(reg, s, n, |reg[n]|)
  }

  predicate StartingDistinct(s: State) {
    forall a, b :: 0 <= a < b < |s.tasks| && s.tasks[a].phase.Starting? && s.tasks[b].phase.Starting? ==>
      s.tasks[a].name != s.tasks[b].name
  }

  /** How many runs of `resolve` for `name` are in each kind of phase. */
  function Count(tasks: seq<Task>, name: Name, kind: Kind): nat {
    if tasks == [] then 0
    else
      var last := tasks[|tasks| - 1];
      Count(tasks[..|tasks| - 1], name, kind) + if last.name == name && Is(last.phase, kind) then 1 else 0
  }

  datatype Kind = Any | Done | Broken | InFlight

  predicate Is(phase: Phase, kind: Kind) {
    match kind
    case Any => true
    case Done => phase.Succeeded?
    case Broken => phase.Failed?
    case InFlight => !Settled(phase)
  }

  predicate Counted(s: State, name: Name) {
    && MetricsOf(s, name).loads == Count(s.tasks, name, Any)
    && MetricsOf(s, name).successes == Count(s.tasks, name, Done)
    && MetricsOf(s, name).failures == Count(s.tasks, name, Broken)
    && Count(s.tasks, name, Done) == if name in s.resolved then 1 else 0
  }

  ghost predicate Inv(reg: Registry, s: State) {
    && (forall id :: 0 <= id < |s.tasks| ==> TaskOk(reg, s, id))
    && (forall n :: n in s.pending ==> PendingOk(s, n))
    && ClosedUnderDeps(reg, s)
    && StartingDistinct(s)
    && (forall n :: Counted(s, n))
  }

  /** No task is inside a step. */
  predicate Quiescent(s: State) {
    forall i :: 0 <= i < |s.tasks| ==> !s.tasks[i].phase.Starting?
  }

  // ---------------------------------------------------------------------------
  // Counting

  lemma CountAppend(tasks: seq<Task>, t: Task, name: Name, kind: Kind)
    ensures Count(tasks + [t], name, kind) ==
            Count(tasks, name, kind) + if t.name == name && Is(t.phase, kind) then 1 else 0
  {
    assert (tasks + [t])[..|tasks|] == tasks;
  }

  lemma {:induction false} CountUpdate(tasks: seq<Task>, id: nat, t: Task, name: Name, kind: Kind)
    requires id < |tasks|
    ensures Count(tasks[id := t], name, kind) ==
            Count(tasks, name, kind)
            - (if tasks[id].name == name && Is(tasks[id].phase, kind) then 1 else 0)
            + (if t.name == name && Is(t.phase, kind) then 1 else 0)
  {
    var init, last := tasks[..|tasks| - 1], tasks[|tasks| - 1];
    var updated := tasks[id := t];
    if id == |tasks| - 1 {
      assert updated[..|updated| - 1] == init;
    } else {
      CountUpdate(init, id, t, name, kind);
      assert updated[..|updated| - 1] == init[id := t];
      assert updated[|updated| - 1] == last;
    }
  }

  /** Every run of `resolve` succeeded, failed or is in flight. */
  lemma {:induction false} CountsAddUp(tasks: seq<Task>, name: Name)
    ensures Count(tasks, name, Any) == Count(tasks, name, Done) + Count(tasks, name, Broken) + Count(tasks, name, InFlight)
  {
    if tasks != [] { CountsAddUp(tasks[..|tasks| - 1], name); }
  }

  // ---------------------------------------------------------------------------
  // Loading preserves the invariant

  /** What `load` and `resolve` leave alone: earlier tasks, resolved modules, pending entries. */
  predicate Extends(s: State, s': State) {
    && |s.tasks| <= |s'.tasks| && s'.tasks[..|s.tasks|] == s.tasks
    && s'.resolved == s.resolved
    && (forall n :: n in s.pending ==> n in s'.pending && s'.pending[n] == s.pending[n])
  }

  /** Every task now starting ranks above `name`. */
  predicate StackAbove(reg: Registry, rank: Name -> nat, s: State, name: Name) {
    forall i :: 0 <= i < |s.tasks| && s.tasks[i].phase.Starting? && name in reg ==> rank(name) < rank(s.tasks[i].name)
  }

  lemma EnterInv(reg: Registry, rank: Name -> nat, s: State, name: Name)
    requires Inv(reg, s) && name in reg && name !in s.resolved && name !in s.pending
    requires StackAbove(reg, rank, s, name)
    ensures Inv(reg, Enter(s, name)) && Extends(s, Enter(s, name))
  {
    var s' := Enter(s, name);
    forall id | 0 <= id < |s'.tasks| ensures TaskOk(reg, s', id) {
      if id < |s.tasks| { assert TaskOk(reg, s, id); }
    }
    forall n | n in s'.pending ensures PendingOk(s', n) { assert PendingOk(s, n); }
    forall a, b | 0 <= a < b < |s'.tasks| && s'.tasks[a].phase.Starting? && s'.tasks[b].phase.Starting?
      ensures s'.tasks[a].name != s'.tasks[b].name
    {
      assert s.tasks[a] == s'.tasks[a];
    }
    forall n ensures Counted(s', n) {
      assert Counted(s, n);
      forall kind { CountAppend(s.tasks, Task(name, Starting, false), n, kind); }
    }
    assert ClosedUnderDeps(reg, s') by {
      forall n | n in s'.resolved ensures n in reg && DepsResolved(reg, s', n, |reg[n]|) {
        assert DepsResolved(reg, s, n, |reg[n]|);
      }
    }
  }

  /** Giving an in-flight task another in-flight phase, with what that phase requires. */
  lemma PhaseInv(reg: Registry, s: State, id: nat, phase: Phase, s': State)
    requires Inv(reg, s) && id < |s.tasks|
    requires s.tasks[id].name in reg
    requires !Settled(s.tasks[id].phase) && !Settled(phase) && !phase.Starting?
    requires s' == SetPhase(s, id, phase).(pending := s.pending[s.tasks[id].name := id])
    requires PhaseFits(reg, s, s.tasks[id].name, phase)
    ensures Inv(reg, s')
  {
    hide Counted;
    var name := s.tasks[id].name;
    assert TaskOk(reg, s, id);
    forall i | 0 <= i < |s'.tasks| ensures TaskOk(reg, s', i) {
      assert TaskOk(reg, s, i);
    }
    forall n | n in s'.pending ensures PendingOk(s', n) {
      if n != name { assert PendingOk(s, n); }
    }
    forall n ensures Counted(s', n) {
      assert Counted(s, n);
      PhaseCounts(s, id, phase, n, s');
    }
    forall n | n in s'.resolved ensures n in reg && DepsResolved(reg, s', n, |reg[n]|) {
      assert DepsResolved(reg, s, n, |reg[n]|);
    }
  }

  lemma PhaseCounts(s: State, id: nat, phase: Phase, n: Name, s': State)
    requires id < |s.tasks| && !Settled(s.tasks[id].phase) && !Settled(phase) && Counted(s, n)
    requires s'.tasks == s.tasks[id := s.tasks[id].(phase := phase)]
    requires s'.metrics == s.metrics && s'.resolved == s.resolved
    ensures Counted(s', n)
  {
    forall kind { CountUpdate(s.tasks, id, s.tasks[id].(phase := phase), n, kind); }
  }

  /** Tasks still starting in s' were starting in s, other than task `id`. */
  predicate StartsNoMore(s: State, s': State, id: nat) {
    forall i :: 0 <= i < |s'.tasks| && s'.tasks[i].phase.Starting? ==>
      i < |s.tasks| && i != id && s.tasks[i] == s'.tasks[i]
  }

  /** `load` keeps the invariant, disturbs nothing and returns a promise for the named module. */
  lemma {:induction false} LoadInv(reg: Registry, rank: Name -> nat, s: State, name: Name)
    requires Acyclic(reg, rank) && Inv(reg, s) && StackAbove(reg, rank, s, name)
    ensures var (s', on) := Load(reg, rank, s, name);
            Inv(reg, s') && Extends(s, s') && WaitsFor(reg, s', name, on) && StartsNoMore(s, s', |s'.tasks|)
    decreases Height(reg, rank, name), 1
  {
    hide Inv, Enter, Proceed;
    var (s', on) := Load(reg, rank, s, name);
    if name in s.pending {
      assert PendingOk(s, name) by { InvPending(reg, s, name); }
    }
    if name !in s.resolved && name !in s.pending && name in reg {
      EnterInv(reg, rank, s, name);
      EnterAdds(s, name);
      var id, entered := |s.tasks|, Enter(s, name);
      ProceedInv(reg, rank, entered, id, name, 0);
    }
  }

  lemma InvPending(reg: Registry, s: State, name: Name)
    requires Inv(reg, s) && name in s.pending
    ensures PendingOk(s, name)
  {
  }

  lemma EnterAdds(s: State, name: Name)
    ensures Enter(s, name).tasks == s.tasks + [Task(name, Starting, false)]
    ensures Enter(s, name).resolved == s.resolved && Enter(s, name).pending == s.pending
  {
  }

  /** Everything but task `id` is extended. */
  predicate ExtendsBut(s: State, s': State, id: nat) {
    && |s.tasks| <= |s'.tasks|
    && (forall i :: 0 <= i < |s.tasks| && i != id ==> s'.tasks[i] == s.tasks[i])
    && s'.resolved == s.resolved
    && (forall n :: n in s.pending ==> n in s'.pending && s'.pending[n] == s.pending[n])
  }

  lemma {:induction false} ProceedInv(reg: Registry, rank: Name -> nat, s: State, id: nat, name: Name, dep: nat)
    requires Acyclic(reg, rank) && Inv(reg, s) && name in reg
    requires id < |s.tasks| && s.tasks[id].name == name && !Settled(s.tasks[id].phase)
    requires DepsResolved(reg, s, name, dep)
    requires name in s.pending ==> s.pending[name] == id
    requires forall i :: 0 <= i < |s.tasks| && s.tasks[i].phase.Starting? ==> rank(name) <= rank(s.tasks[i].name)
    ensures var s0 := Proceed(reg, rank, s, id, name, dep);
            var s' := s0.(pending := s0.pending[name := id]);
            Inv(reg, s') && ExtendsBut(s, s', id) && StartsNoMore(s, s', id) &&
            s'.tasks[id].name == name && !s'.tasks[id].phase.Starting? && !s'.tasks[id].closed
    decreases rank(name) + 1, 0
  {
    hide Inv, Load;
    InvTask(reg, s, id);
    if dep < |reg[name]| {
      var d := reg[name][dep];
      LoadInv(reg, rank, s, d);
      var (after, on) := Load(reg, rank, s, d);
      assert after.tasks[id] == s.tasks[id] by { assert after.tasks[..|s.tasks|][id] == after.tasks[id]; }
      assert forall i :: 0 <= i < |s.tasks| ==> after.tasks[..|s.tasks|][i] == after.tasks[i];
      assert DepsResolved(reg, after, name, dep);
      PhaseInv(reg, after, id, Awaiting(dep, on), SetPhase(after, id, Awaiting(dep, on)).(pending := after.pending[name := id]));
    } else {
      PhaseInv(reg, s, id, Loading, SetPhase(s, id, Loading).(pending := s.pending[name := id]));
    }
  }

  lemma InvTask(reg: Registry, s: State, id: nat)
    requires Inv(reg, s) && id < |s.tasks|
    ensures TaskOk(reg, s, id)
  {
  }

  // ---------------------------------------------------------------------------
  // Every step preserves the invariant

  /** Settling an in-flight task, with or without resolving its module. */
  lemma FailInv(reg: Registry, s: State, id: nat)
    requires Inv(reg, s) && id < |s.tasks| && !Settled(s.tasks[id].phase) && !s.tasks[id].phase.Starting?
    ensures Inv(reg, Fail(s, id))
  {
    var s' := Fail(s, id);
    assert TaskOk(reg, s, id);
    forall i | 0 <= i < |s'.tasks| ensures TaskOk(reg, s', i) { assert TaskOk(reg, s, i); }
    forall n | n in s'.pending ensures PendingOk(s', n) { assert PendingOk(s, n); }
    forall n ensures Counted(s', n) {
      assert Counted(s, n);
      forall kind { CountUpdate(s.tasks, id, s.tasks[id].(phase := Failed), n, kind); }
    }
    forall n | n in s'.resolved ensures n in reg && DepsResolved(reg, s', n, |reg[n]|) {
      assert DepsResolved(reg, s, n, |reg[n]|);
    }
  }

  lemma SucceedInv(reg: Registry, s: State, id: nat, mod: Module)
    requires Inv(reg, s) && id < |s.tasks| && s.tasks[id].phase.Loading?
    ensures Inv(reg, Succeed(s, id, mod))
  {
    hide Counted;
    var s' := Succeed(s, id, mod);
    var name := s.tasks[id].name;
    assert TaskOk(reg, s, id);
    forall i | 0 <= i < |s'.tasks| ensures TaskOk(reg, s', i) {
      assert TaskOk(reg, s, i);
      PhaseFitsLater(reg, s, s', s.tasks[i].name, s.tasks[i].phase);
    }
    forall n | n in s'.pending ensures PendingOk(s', n) { assert PendingOk(s, n); }
    forall n ensures Counted(s', n) {
      assert Counted(s, n);
      SucceedCounts(s, id, mod, n);
    }
    forall n | n in s'.resolved ensures n in reg && DepsResolved(reg, s', n, |reg[n]|) {
      if n != name { assert DepsResolved(reg, s, n, |reg[n]|); }
    }
  }

  lemma SucceedCounts(s: State, id: nat, mod: Module, n: Name)
    requires id < |s.tasks| && s.tasks[id].phase.Loading? && Counted(s, n)
    requires s.tasks[id].name !in s.resolved
    ensures Counted(Succeed(s, id, mod), n)
  {
    forall kind { CountUpdate(s.tasks, id, s.tasks[id].(phase := Succeeded(mod)), n, kind); }
  }

  /** Resolving one more module and settling tasks keeps what other phases rely on. */
  lemma PhaseFitsLater(reg: Registry, s: State, s': State, name: Name, phase: Phase)
    requires name in reg && PhaseFits(reg, s, name, phase)
    requires forall n :: n in s.resolved ==> n in s'.resolved && s'.resolved[n] == s.resolved[n]
    requires |s'.tasks| == |s.tasks|
    requires forall i :: 0 <= i < |s.tasks| ==>
               s'.tasks[i].name == s.tasks[i].name && (s'.tasks[i].phase.Starting? ==> s.tasks[i].phase.Starting?)
    ensures PhaseFits(reg, s', name, phase)
  {
  }

  lemma CloseInv(reg: Registry, s: State, id: nat)
    requires Inv(reg, s) && id < |s.tasks| && Settled(s.tasks[id].phase) && !s.tasks[id].closed
    ensures Inv(reg, s.(tasks := s.tasks[id := s.tasks[id].(closed := true)], pending := s.pending - {s.tasks[id].name}))
  {
    var name := s.tasks[id].name;
    var s' := s.(tasks := s.tasks[id := s.tasks[id].(closed := true)], pending := s.pending - {name});
    assert TaskOk(reg, s, id);
    forall i | 0 <= i < |s'.tasks| ensures TaskOk(reg, s', i) {
      assert TaskOk(reg, s, i);
      PhaseFitsLater(reg, s, s', s.tasks[i].name, s.tasks[i].phase);
    }
    forall n | n in s'.pending ensures PendingOk(s', n) { assert PendingOk(s, n); }
    forall n ensures Counted(s', n) {
      assert Counted(s, n);
      forall kind { CountUpdate(s.tasks, id, s.tasks[id].(closed := true), n, kind); }
    }
    forall n | n in s'.resolved ensures n in reg && DepsResolved(reg, s', n, |reg[n]|) {
      assert DepsResolved(reg, s, n, |reg[n]|);
    }
  }

  lemma InvKnownNames(reg: Registry, s: State)
    requires Inv(reg, s)
    ensures KnownNames(reg, s)
  {
    forall i | 0 <= i < |s.tasks| ensures s.tasks[i].name in reg { assert TaskOk(reg, s, i); }
  }

  lemma ResumeInv(reg: Registry, rank: Name -> nat, s: State, id: nat)
    requires Acyclic(reg, rank) && Inv(reg, s) && Quiescent(s) && KnownNames(reg, s) && Enabled(s, Resume(id))
    ensures Inv(reg, Step(reg, rank, s, Resume(id))) && Quiescent(Step(reg, rank, s, Resume(id)))
  {
    hide Inv, Proceed, Fail;
    InvTask(reg, s, id);
    var name, phase := s.tasks[id].name, s.tasks[id].phase;
    if SettledOk(s, phase.on) {
      if phase.on.Of? { InvTask(reg, s, phase.on.task); }
      ProceedInv(reg, rank, s, id, name, phase.dep + 1);
      var s' := Proceed(reg, rank, s, id, name, phase.dep + 1);
      ProceedUndisturbed(reg, rank, s, id, name, phase.dep + 1);
      assert s'.pending[name := id] == s'.pending;
    } else {
      FailInv(reg, s, id);
      FailKeepsNames(s, id);
    }
  }

  lemma FailKeepsNames(s: State, id: nat)
    requires id < |s.tasks|
    ensures Fail(s, id).tasks == s.tasks[id := s.tasks[id].(phase := Failed)]
  {
  }

  lemma StepInv(reg: Registry, rank: Name -> nat, s: State, e: Event)
    requires Acyclic(reg, rank) && Inv(reg, s) && Quiescent(s) && KnownNames(reg, s) && Enabled(s, e)
    ensures Inv(reg, Step(reg, rank, s, e)) && Quiescent(Step(reg, rank, s, e))
  {
    hide Inv, Load, Proceed;
    match e {
      case Call(name) => LoadInv(reg, rank, s, name);
      case Resume(id) => ResumeInv(reg, rank, s, id);
      case LoaderReturns(id, mod) => SucceedInv(reg, s, id, mod);
      case LoaderThrows(id) => FailInv(reg, s, id);
      case Close(id) => CloseInv(reg, s, id);
    }
  }

  // ---------------------------------------------------------------------------
  // Runs

  const INITIAL := State([], map[], map[], map[])

  /** A run: each state follows from the one before by an enabled event. That tasks have known
      names is what makes a step well-defined; RunsExtend shows that it excludes no run. */
  predicate IsRun(reg: Registry, rank: Name -> nat, states: seq<State>, events: seq<Event>)
    requires Acyclic(reg, rank)
  {
    && |states| == |events| + 1 && states[0] == INITIAL
    && forall i :: 0 <= i < |events| ==>
         Enabled(states[i], events[i]) && KnownNames(reg, states[i])
         && states[i + 1] == Step(reg, rank, states[i], events[i])
  }

  lemma {:induction false} RunInv(reg: Registry, rank: Name -> nat, states: seq<State>, events: seq<Event>, i: nat)
    requires Acyclic(reg, rank) && IsRun(reg, rank, states, events) && i < |states|
    ensures Inv(reg, states[i]) && Quiescent(states[i])
  {
    if i == 0 {
      InitialInv(reg);
    } else {
      hide Inv, Step;
      RunInv(reg, rank, states, events, i - 1);
      StepInv(reg, rank, states[i - 1], events[i - 1]);
    }
  }

  /** Whatever event is enabled after a run, taking it gives a run again. */
  lemma RunsExtend(reg: Registry, rank: Name -> nat, states: seq<State>, events: seq<Event>, e: Event)
    requires Acyclic(reg, rank) && IsRun(reg, rank, states, events) && Enabled(states[|events|], e)
    ensures KnownNames(reg, states[|events|])
    ensures IsRun(reg, rank, states + [Step(reg, rank, states[|events|], e)], events + [e])
  {
    hide Inv, Step, Enabled, KnownNames;
    RunInv(reg, rank, states, events, |events|);
    InvKnownNames(reg, states[|events|]);
  }

  lemma InitialInv(reg: Registry)
    ensures Inv(reg, INITIAL)
  {
  }

  /** MAIN RESULT. In every state of every run: at most one resolve per module is in flight, a
      loader runs only with all dependencies resolved, the resolved modules are closed under
      dependencies, and every load counted succeeded, failed or is in flight. */
  lemma SafetyOfRuns(reg: Registry, rank: Name -> nat, states: seq<State>, events: seq<Event>, i: nat)
    requires Acyclic(reg, rank) && IsRun(reg, rank, states, events) && i < |states|
    ensures var s := states[i];
            && (forall a, b :: 0 <= a < b < |s.tasks| && !Settled(s.tasks[a].phase) && !Settled(s.tasks[b].phase) ==>
                  s.tasks[a].name != s.tasks[b].name)
            && (forall a :: 0 <= a < |s.tasks| && s.tasks[a].phase.Loading? ==>
                  s.tasks[a].name in reg && DepsResolved(reg, s, s.tasks[a].name, |reg[s.tasks[a].name]|))
            && ClosedUnderDeps(reg, s)
            && (forall n :: var m := MetricsOf(s, n); m.loads == m.successes + m.failures + Count(s.tasks, n, InFlight))
  {
    RunInv(reg, rank, states, events, i);
    var s := states[i];
    forall a, b | 0 <= a < b < |s.tasks| && !Settled(s.tasks[a].phase) && !Settled(s.tasks[b].phase)
      ensures s.tasks[a].name != s.tasks[b].name
    {
      assert TaskOk(reg, s, a) && TaskOk(reg, s, b);
    }
    forall a | 0 <= a < |s.tasks| && s.tasks[a].phase.Loading?
      ensures s.tasks[a].name in reg && DepsResolved(reg, s, s.tasks[a].name, |reg[s.tasks[a].name]|)
    {
      assert TaskOk(reg, s, a);
    }
    forall n ensures var m := MetricsOf(s, n); m.loads == m.successes + m.failures + Count(s.tasks, n, InFlight) {
      assert Counted(s, n);
      CountsAddUp(s.tasks, n);
    }
  }

  // ---------------------------------------------------------------------------
  // A resolved module is never loaded again

  /** Earlier tasks, resolved modules and the metrics of resolved modules stay as they are. */
  predicate Undisturbed(s: State, s': State) {
    && |s.tasks| <= |s'.tasks|
    && (forall i :: 0 <= i < |s.tasks| ==> s'.tasks[i] == s.tasks[i])
    && s'.resolved == s.resolved
    && (forall n :: n in s.pending ==> n in s'.pending && s'.pending[n] == s.pending[n])
    && (forall n :: n in s.resolved ==> MetricsOf(s', n) == MetricsOf(s, n))
  }

  lemma {:induction false} LoadUndisturbed(reg: Registry, rank: Name -> nat, s: State, name: Name)
    requires Acyclic(reg, rank)
    ensures Undisturbed(s, Load(reg, rank, s, name).0)
    decreases Height(reg, rank, name), 0
  {
    hide Proceed;
    if name !in s.resolved && name !in s.pending && name in reg {
      var id, entered := |s.tasks|, Enter(s, name);
      ProceedUndisturbed(reg, rank, entered, id, name, 0);
      var after := Proceed(reg, rank, entered, id, name, 0);
      forall i | 0 <= i < |s.tasks| ensures after.tasks[i] == s.tasks[i] {
        assert after.tasks[id := entered.tasks[id]][i] == entered.tasks[i];
      }
    }
  }

  lemma {:induction false} ProceedUndisturbed(reg: Registry, rank: Name -> nat, s: State, id: nat, name: Name, dep: nat)
    requires Acyclic(reg, rank) && name in reg && id < |s.tasks|
    ensures var s' := Proceed(reg, rank, s, id, name, dep);
            Undisturbed(s, s'.(tasks := s'.tasks[id := s.tasks[id]])) && s'.tasks[id].name == s.tasks[id].name
    decreases rank(name), 1
  {
    if dep < |reg[name]| {
      LoadUndisturbed(reg, rank, s, reg[name][dep]);
    }
  }

  lemma StepKeepsResolved(reg: Registry, rank: Name -> nat, s: State, e: Event, n: Name)
    requires Acyclic(reg, rank) && Inv(reg, s) && KnownNames(reg, s) && Enabled(s, e) && n in s.resolved
    ensures var s' := Step(reg, rank, s, e);
            n in s'.resolved && s'.resolved[n] == s.resolved[n] && MetricsOf(s', n) == MetricsOf(s, n)
  {
    hide Inv, Load, Proceed;
    match e {
      case Call(name) => LoadUndisturbed(reg, rank, s, name);
      case Resume(id) =>
        InvTask(reg, s, id);
        if SettledOk(s, s.tasks[id].phase.on) {
          ProceedUndisturbed(reg, rank, s, id, s.tasks[id].name, s.tasks[id].phase.dep + 1);
        }
      case LoaderReturns(id, mod) => InvTask(reg, s, id);
      case LoaderThrows(id) => InvTask(reg, s, id);
      case Close(id) =>
    }
  }

  /** MAIN RESULT. Once a module is resolved, its value and its load count never change again. */
  lemma {:induction false} LoadedOnce(reg: Registry, rank: Name -> nat, states: seq<State>, events: seq<Event>,
                                      i: nat, j: nat, n: Name)
    requires Acyclic(reg, rank) && IsRun(reg, rank, states, events) && i <= j < |states|
    requires n in states[i].resolved
    ensures n in states[j].resolved && states[j].resolved[n] == states[i].resolved[n]
    ensures MetricsOf(states[j], n) == MetricsOf(states[i], n)
    decreases j
  {
    hide Inv, Step;
    if i < j {
      LoadedOnce(reg, rank, states, events, i, j - 1, n);
      RunInv(reg, rank, states, events, j - 1);
      StepKeepsResolved(reg, rank, states[j - 1], events[j - 1], n);
    }
  }

  // ---------------------------------------------------------------------------
  // What resolves a module, and what ends a task

  /** Event `e` is the return of a loader, for module `n`. */
  predicate ReturnsFor(s: State, e: Event, n: Name) {
    e.LoaderReturns? && e.id < |s.tasks| && s.tasks[e.id].name == n
  }

  /** Event `e` makes task `id` fail: its loader throws, or it resumes on a dependency that failed. */
  predicate Breaks(s: State, e: Event, id: nat) {
    || e == LoaderThrows(id)
    || (e == Resume(id) && id < |s.tasks| && s.tasks[id].phase.Awaiting? && SettledBad(s, s.tasks[id].phase.on))
  }

  lemma StepResolves(reg: Registry, rank: Name -> nat, s: State, e: Event, n: Name)
    requires Acyclic(reg, rank) && Inv(reg, s) && KnownNames(reg, s) && Enabled(s, e)
    ensures var s' := Step(reg, rank, s, e);
            && (n in s'.resolved <==> n in s.resolved || ReturnsFor(s, e, n))
            && (ReturnsFor(s, e, n) ==> s'.resolved[n] == e.mod)
  {
    hide Inv, Load, Proceed;
    match e {
      case Call(name) => LoadUndisturbed(reg, rank, s, name);
      case Resume(id) =>
        if SettledOk(s, s.tasks[id].phase.on) {
          ProceedUndisturbed(reg, rank, s, id, s.tasks[id].name, s.tasks[id].phase.dep + 1);
        }
      case LoaderReturns(id, mod) =>
      case LoaderThrows(id) =>
      case Close(id) =>
    }
  }

  /** MAIN RESULT. A module is resolved exactly if a loader of it has returned, and then to what
      that loader returned. */
  lemma {:induction false} ResolvedByLoader(reg: Registry, rank: Name -> nat, states: seq<State>, events: seq<Event>,
                                            i: nat, n: Name)
    requires Acyclic(reg, rank) && IsRun(reg, rank, states, events) && i < |states|
    ensures n in states[i].resolved <==> exists k :: 0 <= k < i && ReturnsFor(states[k], events[k], n)
    ensures forall k :: 0 <= k < i && ReturnsFor(states[k], events[k], n) ==>
              n in states[i].resolved && states[i].resolved[n] == events[k].mod
  {
    hide Inv, Step, Enabled, KnownNames, ReturnsFor;
    if i > 0 {
      ResolvedByLoader(reg, rank, states, events, i - 1, n);
      RunInv(reg, rank, states, events, i - 1);
      StepResolves(reg, rank, states[i - 1], events[i - 1], n);
      if n in states[i - 1].resolved {
        StepKeepsResolved(reg, rank, states[i - 1], events[i - 1], n);
        NoSecondReturn(reg, states[i - 1], events[i - 1], n);
      }
    }
  }

  lemma NoSecondReturn(reg: Registry, s: State, e: Event, n: Name)
    requires Inv(reg, s) && Enabled(s, e) && n in s.resolved
    ensures !ReturnsFor(s, e, n)
  {
    hide Inv;
    if e.LoaderReturns? { InvTask(reg, s, e.id); }
  }

  /** A step keeps the names of tasks, settles only the one it is about, and starts none settled. */
  lemma StepSettles(reg: Registry, rank: Name -> nat, s: State, e: Event, id: nat)
    requires Acyclic(reg, rank) && Inv(reg, s) && Quiescent(s) && KnownNames(reg, s) && Enabled(s, e)
    requires id < |Step(reg, rank, s, e).tasks|
    ensures |s.tasks| <= |Step(reg, rank, s, e).tasks|
    ensures var phase := Step(reg, rank, s, e).tasks[id].phase;
            if id >= |s.tasks| then !Settled(phase)
            else
              && (phase.Succeeded? <==> s.tasks[id].phase.Succeeded? || (e.LoaderReturns? && e.id == id))
              && (e.LoaderReturns? && e.id == id ==> phase == Succeeded(e.mod))
              && (s.tasks[id].phase.Succeeded? ==> phase == s.tasks[id].phase)
              && (phase.Failed? <==> s.tasks[id].phase.Failed? || Breaks(s, e, id))
  {
    hide Inv, Load, Proceed;
    match e {
      case Call(name) =>
        LoadUndisturbed(reg, rank, s, name);
        if id >= |s.tasks| { LoadStartsUnsettled(reg, rank, s, name, id); }
      case Resume(r) =>
        if SettledOk(s, s.tasks[r].phase.on) {
          var name, dep := s.tasks[r].name, s.tasks[r].phase.dep + 1;
          ProceedUndisturbed(reg, rank, s, r, name, dep);
          ProceedStartsUnsettled(reg, rank, s, r, name, dep, id);
        }
      case LoaderReturns(_, mod) =>
      case LoaderThrows(_) =>
      case Close(_) =>
    }
  }

  lemma {:induction false} LoadStartsUnsettled(reg: Registry, rank: Name -> nat, s: State, name: Name, id: nat)
    requires Acyclic(reg, rank) && |s.tasks| <= id < |Load(reg, rank, s, name).0.tasks|
    ensures !Settled(Load(reg, rank, s, name).0.tasks[id].phase)
    decreases Height(reg, rank, name), 0
  {
    var first := |s.tasks|;
    ProceedStartsUnsettled(reg, rank, Enter(s, name), first, name, 0, id);
  }

  lemma {:induction false} ProceedStartsUnsettled(reg: Registry, rank: Name -> nat, s: State, own: nat, name: Name, dep: nat, id: nat)
    requires Acyclic(reg, rank) && name in reg && own < |s.tasks|
    requires id < |Proceed(reg, rank, s, own, name, dep).tasks|
    ensures id == own || id >= |s.tasks| ==> !Settled(Proceed(reg, rank, s, own, name, dep).tasks[id].phase)
    decreases rank(name), 1
  {
    if dep < |reg[name]| && id >= |s.tasks| {
      LoadStartsUnsettled(reg, rank, s, reg[name][dep], id);
    }
  }

  /** Up to state `i`, the loader of task `id` returned. */
  ghost predicate ReturnedUpTo(events: seq<Event>, i: nat, id: nat)
    requires i <= |events|
  {
    exists k :: 0 <= k < i && events[k].LoaderReturns? && events[k].id == id
  }

  ghost predicate BrokenUpTo(states: seq<State>, events: seq<Event>, i: nat, id: nat)
    requires i <= |events| <= |states|
  {
    exists k :: 0 <= k < i && Breaks(states[k], events[k], id)
  }

  /** MAIN RESULT. A task succeeds exactly if its own loader returns, with what it returned; it fails
      exactly if its loader throws or it resumes on a dependency that failed. */
  lemma {:induction false} TaskEnds(reg: Registry, rank: Name -> nat, states: seq<State>, events: seq<Event>, i: nat, id: nat)
    requires Acyclic(reg, rank) && IsRun(reg, rank, states, events) && i < |states| && id < |states[i].tasks|
    ensures states[i].tasks[id].phase.Succeeded? <==> ReturnedUpTo(events, i, id)
    ensures forall k :: 0 <= k < i && events[k].LoaderReturns? && events[k].id == id ==>
              states[i].tasks[id].phase == Succeeded(events[k].mod)
    ensures states[i].tasks[id].phase.Failed? <==> BrokenUpTo(states, events, i, id)
  {
    hide Inv, Step, KnownNames, Quiescent;
    if i > 0 {
      var s, e := states[i - 1], events[i - 1];
      RunInv(reg, rank, states, events, i - 1);
      StepSettles(reg, rank, s, e, id);
      if id < |s.tasks| {
        TaskEnds(reg, rank, states, events, i - 1, id);
        if s.tasks[id].phase.Succeeded? {
          assert !(e.LoaderReturns? && e.id == id);
        }
      } else {
        forall k | 0 <= k < i ensures !(events[k].LoaderReturns? && events[k].id == id) && !Breaks(states[k], events[k], id) {
          TasksGrow(reg, rank, states, events, k, i - 1);
          assert Enabled(states[k], events[k]);
        }
      }
    }
  }

  lemma {:induction false} TasksGrow(reg: Registry, rank: Name -> nat, states: seq<State>, events: seq<Event>, k: nat, i: nat)
    requires Acyclic(reg, rank) && IsRun(reg, rank, states, events) && k <= i < |states|
    ensures |states[k].tasks| <= |states[i].tasks|
    decreases i
  {
    hide Inv, Step, KnownNames, Enabled, Quiescent;
    if k < i {
      TasksGrow(reg, rank, states, events, k, i - 1);
      StepAddsTasks(reg, rank, states[i - 1], events[i - 1]);
    }
  }

  lemma StepAddsTasks(reg: Registry, rank: Name -> nat, s: State, e: Event)
    requires Acyclic(reg, rank) && KnownNames(reg, s) && Enabled(s, e)
    ensures |s.tasks| <= |Step(reg, rank, s, e).tasks|
  {
  }

  /** A promise handed out for a module yields, once it has settled well, what the module resolved to. */
  lemma PromiseYields(reg: Registry, s: State, n: Name, on: Promise)
    requires Inv(reg, s) && WaitsFor(reg, s, n, on) && SettledOk(s, on)
    ensures n in s.resolved
    ensures on.Of? ==> s.tasks[on.task].phase == Succeeded(s.resolved[n])
  {
    if on.Of? { assert TaskOk(reg, s, on.task); }
  }

  /** A call changes nothing if the module is resolved, on its way or unknown; otherwise it starts a
      task for it, which the pending entry points to. A failed module is loaded anew. */
  lemma CallStarts(reg: Registry, rank: Name -> nat, s: State, n: Name)
    requires Acyclic(reg, rank) && KnownNames(reg, s)
    ensures var s' := Step(reg, rank, s, Call(n));
            if n in s.resolved || n in s.pending || n !in reg then s' == s
            else
              && |s'.tasks| > |s.tasks| && s'.tasks[|s.tasks|].name == n
              && n in s'.pending && s'.pending[n] == |s.tasks|
  {
    hide Proceed;
    if n !in s.resolved && n !in s.pending && n in reg {
      ProceedUndisturbed(reg, rank, Enter(s, n), |s.tasks|, n, 0);
    }
  }

  // ---------------------------------------------------------------------------
  // Every load terminates

  /** How many steps a fresh `resolve` of `name` can take, dependencies included. */
  function Cost(reg: Registry, rank: Name -> nat, name: Name): nat
    requires Acyclic(reg, rank)
    decreases Height(reg, rank, name), 0, 0
  {
    if name in reg then 2 + DepsCost(reg, rank, name, 0) else 0
  }

  function DepsCost(reg: Registry, rank: Name -> nat, name: Name, from: nat): nat
    requires Acyclic(reg, rank) && name in reg
    decreases rank(name), 1, |reg[name]| - from
  {
    if from >= |reg[name]| then 0
    else 1 + Cost(reg, rank, reg[name][from]) + DepsCost(reg, rank, name, from + 1)
  }

  /** How many steps a task still has ahead of it. */
  function TaskWork(reg: Registry, rank: Name -> nat, t: Task): nat
    requires Acyclic(reg, rank)
  {
    match t.phase
    case Starting => 0
    case Awaiting(dep, _) => if t.name in reg then 3 + DepsCost(reg, rank, t.name, dep + 1) else 0
    case Loading => 2
    case _ => if t.closed then 0 else 1
  }

  function Work(reg: Registry, rank: Name -> nat, tasks: seq<Task>): nat
    requires Acyclic(reg, rank)
  {
    if tasks == [] then 0
    else Work(reg, rank, tasks[..|tasks| - 1]) + TaskWork(reg, rank, tasks[|tasks| - 1])
  }

  lemma WorkAppend(reg: Registry, rank: Name -> nat, tasks: seq<Task>, t: Task)
    requires Acyclic(reg, rank)
    ensures Work(reg, rank, tasks + [t]) == Work(reg, rank, tasks) + TaskWork(reg, rank, t)
  {
    assert (tasks + [t])[..|tasks|] == tasks;
  }

  lemma {:induction false} WorkUpdate(reg: Registry, rank: Name -> nat, tasks: seq<Task>, id: nat, t: Task)
    requires Acyclic(reg, rank) && id < |tasks|
    ensures Work(reg, rank, tasks[id := t]) ==
            Work(reg, rank, tasks) - TaskWork(reg, rank, tasks[id]) + TaskWork(reg, rank, t)
    ensures TaskWork(reg, rank, tasks[id]) <= Work(reg, rank, tasks)
  {
    hide TaskWork;
    var init, last := tasks[..|tasks| - 1], tasks[|tasks| - 1];
    var updated := tasks[id := t];
    if id == |tasks| - 1 {
      assert updated[..|updated| - 1] == init;
    } else {
      WorkUpdate(reg, rank, init, id, t);
      assert updated[..|updated| - 1] == init[id := t];
      assert updated[|updated| - 1] == last;
    }
  }

  lemma {:induction false} LoadWork(reg: Registry, rank: Name -> nat, s: State, name: Name)
    requires Acyclic(reg, rank)
    ensures Work(reg, rank, Load(reg, rank, s, name).0.tasks) <= Work(reg, rank, s.tasks) + Cost(reg, rank, name)
    decreases Height(reg, rank, name), 0
  {
    hide Work, Proceed;
    if name !in s.resolved && name !in s.pending && name in reg {
      var id, entered := |s.tasks|, Enter(s, name);
      WorkAppend(reg, rank, s.tasks, Task(name, Starting, false));
      ProceedWork(reg, rank, entered, id, name, 0);
    }
  }

  lemma {:induction false} ProceedWork(reg: Registry, rank: Name -> nat, s: State, id: nat, name: Name, dep: nat)
    requires Acyclic(reg, rank) && name in reg && id < |s.tasks| && s.tasks[id].name == name
    ensures Work(reg, rank, Proceed(reg, rank, s, id, name, dep).tasks) + TaskWork(reg, rank, s.tasks[id]) <=
            Work(reg, rank, s.tasks) + 2 + DepsCost(reg, rank, name, dep)
    decreases rank(name), 1
  {
    hide Work, Load;
    if dep < |reg[name]| {
      var d := reg[name][dep];
      LoadWork(reg, rank, s, d);
      LoadUndisturbed(reg, rank, s, d);
      var (after, on) := Load(reg, rank, s, d);
      WorkUpdate(reg, rank, after.tasks, id, after.tasks[id].(phase := Awaiting(dep, on)));
    } else {
      WorkUpdate(reg, rank, s.tasks, id, s.tasks[id].(phase := Loading));
    }
  }

  /** A call adds at most its cost to the work ahead; every other step takes at least one off. */
  lemma StepWork(reg: Registry, rank: Name -> nat, s: State, e: Event)
    requires Acyclic(reg, rank) && KnownNames(reg, s) && Enabled(s, e)
    ensures var before, after := Work(reg, rank, s.tasks), Work(reg, rank, Step(reg, rank, s, e).tasks);
            if e.Call? then after <= before + Cost(reg, rank, e.name) else after < before
  {
    hide Work, Load, Proceed;
    match e {
      case Call(name) => LoadWork(reg, rank, s, name);
      case Resume(id) =>
        var t := s.tasks[id];
        if SettledOk(s, t.phase.on) {
          ProceedWork(reg, rank, s, id, t.name, t.phase.dep + 1);
        } else {
          WorkUpdate(reg, rank, s.tasks, id, t.(phase := Failed));
        }
      case LoaderReturns(id, mod) => WorkUpdate(reg, rank, s.tasks, id, s.tasks[id].(phase := Succeeded(mod)));
      case LoaderThrows(id) => WorkUpdate(reg, rank, s.tasks, id, s.tasks[id].(phase := Failed));
      case Close(id) => WorkUpdate(reg, rank, s.tasks, id, s.tasks[id].(closed := true));
    }
  }

  function CallCost(reg: Registry, rank: Name -> nat, events: seq<Event>): nat
    requires Acyclic(reg, rank)
  {
    if events == [] then 0
    else
      var last := events[|events| - 1];
      CallCost(reg, rank, events[..|events| - 1]) + if last.Call? then Cost(reg, rank, last.name) else 0
  }

  function OtherSteps(events: seq<Event>): nat {
    if events == [] then 0
    else OtherSteps(events[..|events| - 1]) + if events[|events| - 1].Call? then 0 else 1
  }

  /** MAIN RESULT. However the steps interleave, calls of `load` cause only a bounded number of
      further steps. */
  lemma {:induction false} RunsAreBounded(reg: Registry, rank: Name -> nat, states: seq<State>, events: seq<Event>)
    requires Acyclic(reg, rank) && IsRun(reg, rank, states, events)
    ensures OtherSteps(events) + Work(reg, rank, states[|events|].tasks) <= CallCost(reg, rank, events)
  {
    hide Step, Cost;
    if events != [] {
      var n := |events| - 1;
      RunsAreBounded(reg, rank, states[..n + 1], events[..n]);
      StepWork(reg, rank, states[n], events[n]);
    } else {
      hide Acyclic;
    }
  }

  /** While any task is not closed, some step other than a new call can happen: no deadlock. */
  lemma {:induction false} SomethingCanHappen(reg: Registry, rank: Name -> nat, s: State, id: nat) returns (e: Event)
    requires Acyclic(reg, rank) && Inv(reg, s) && Quiescent(s)
    requires id < |s.tasks| && !s.tasks[id].closed
    ensures !e.Call? && Enabled(s, e)
    decreases if s.tasks[id].name in reg then rank(s.tasks[id].name) else 0
  {
    InvTask(reg, s, id);
    var t := s.tasks[id];
    match t.phase {
      case Awaiting(dep, on) =>
        if SettledOk(s, on) || SettledBad(s, on) {
          e := Resume(id);
        } else {
          InvTask(reg, s, on.task);
          assert s.tasks[on.task].name in reg[t.name];
          e := SomethingCanHappen(reg, rank, s, on.task);
        }
      case Loading => e := LoaderThrows(id);
      case _ => e := Close(id);
    }
  }

  /** When no work is left, every load has settled and nothing is pending. */
  lemma NoWorkMeansSettled(reg: Registry, rank: Name -> nat, s: State)
    requires Acyclic(reg, rank) && Inv(reg, s) && Quiescent(s)
    requires Work(reg, rank, s.tasks) == 0
    ensures forall id :: 0 <= id < |s.tasks| ==> Settled(s.tasks[id].phase) && s.tasks[id].closed
    ensures s.pending == map[]
  {
    forall id | 0 <= id < |s.tasks| ensures Settled(s.tasks[id].phase) && s.tasks[id].closed {
      InvTask(reg, s, id);
      WorkUpdate(reg, rank, s.tasks, id, s.tasks[id]);
    }
    if s.pending != map[] {
      var n :| n in s.pending;
      InvPending(reg, s, n);
    }
  }

  // ---------------------------------------------------------------------------
  // The object; each method is one atomic step

  class LazyModuleRegistry {
    const entries: Registry
    ghost const rank: Name -> nat
    var tasks: seq<Task>
    var pending: map<Name, nat>
    var resolved: map<Name, Module>
    var metrics: map<Name, Metrics>

    constructor (entries: Registry, ghost rank: Name -> nat)
      ensures this.entries == entries && this.rank == rank && View() == INITIAL
    {
      this.entries, this.rank := entries, rank;
      tasks, pending, resolved, metrics := [], map[], map[], map[];
    }

    function View(): State
      reads this
    {
      State(tasks, pending, resolved, metrics)
    }

    /** `load` up to its first suspension. */
    method LoadModule(name: Name) returns (promise: Promise)
      requires Acyclic(entries, rank)
      modifies this
      ensures (View(), promise) == Load(entries, rank, old(View()), name)
      decreases Height(entries, rank, name), 0
    {
      if name in resolved {
        return Ready;
      }
      if name in pending {
        return Of(pending[name]);
      }
      if name !in entries {
        return Rejected;
      }
      var id := |tasks|;
      var m := MetricsOf(View(), name);
      tasks := tasks + [Task(name, Starting, false)];
      metrics := metrics[name := m.(loads := m.loads + 1)];
      ContinueResolve(id, name, 0);
      pending := pending[name := id];
      return Of(id);
    }

    /** The loop of `resolve` from dependency `dep` to its next suspension. */
    method ContinueResolve(id: nat, name: Name, dep: nat)
      requires Acyclic(entries, rank) && name in entries && id < |tasks|
      modifies this
      ensures View() == Proceed(entries, rank, old(View()), id, name, dep)
      decreases rank(name), 1
    {
      if dep < |entries[name]| {
        var promise := LoadModule(entries[name][dep]);
        tasks := tasks[id := tasks[id].(phase := Awaiting(dep, promise))];
      } else {
        tasks := tasks[id := tasks[id].(phase := Loading)];
      }
    }

    /** The awaited dependency has settled. */
    method DependencySettled(id: nat)
      requires Acyclic(entries, rank) && KnownNames(entries, View()) && Enabled(View(), Resume(id))
      modifies this
      ensures View() == Step(entries, rank, old(View()), Resume(id))
    {
      var t := tasks[id];
      if SettledOk(View(), t.phase.on) {
        ContinueResolve(id, t.name, t.phase.dep + 1);
      } else {
        RecordFailure(id);
      }
    }

    method LoaderReturned(id: nat, mod: Module)
      requires Acyclic(entries, rank) && KnownNames(entries, View()) && Enabled(View(), LoaderReturns(id, mod))
      modifies this
      ensures View() == Step(entries, rank, old(View()), LoaderReturns(id, mod))
    {
      var name := tasks[id].name;
      var m := MetricsOf(View(), name);
      resolved := resolved[name := mod];
      metrics := metrics[name := m.(successes := m.successes + 1)];
      tasks := tasks[id := tasks[id].(phase := Succeeded(mod))];
    }

    method LoaderThrew(id: nat)
      requires Acyclic(entries, rank) && KnownNames(entries, View()) && Enabled(View(), LoaderThrows(id))
      modifies this
      ensures View() == Step(entries, rank, old(View()), LoaderThrows(id))
    {
      RecordFailure(id);
    }

    method RecordFailure(id: nat)
      requires id < |tasks|
      modifies this
      ensures View() == Fail(old(View()), id)
    {
      var name := tasks[id].name;
      var m := MetricsOf(View(), name);
      metrics := metrics[name := m.(failures := m.failures + 1)];
      tasks := tasks[id := tasks[id].(phase := Failed)];
    }

    /** The `finally` of `load`. */
    method DeletePending(id: nat)
      requires Acyclic(entries, rank) && KnownNames(entries, View()) && Enabled(View(), Close(id))
      modifies this
      ensures View() == Step(entries, rank, old(View()), Close(id))
    {
      pending := pending - {tasks[id].name};
      tasks := tasks[id := tasks[id].(closed := true)];
    }
  }
}
