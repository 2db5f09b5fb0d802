/**
 Asynchronous tasks (src/dawn_native/AsyncTask.cpp) with reference counting
 (src/common/RefCounted.cpp). The main thread posts tasks and waits for them; each task runs on a
 worker. A run interleaves the steps of the main thread and of the workers, where each access to a
 reference count and each critical section is one step.
 */
module AsyncTasks {
  const REF_COUNT_INCREMENT := 2

  /** Where a worker is. It holds a reference from Ready to Removed. */
  datatype Worker = Absent | Ready | Running | Ran | Removed | Released | Signalled

  /** A task object; `count` is mRefCount with its payload bit, `deletions` how often it was deleted. */
  datatype Task = Task(address: int, payload: nat, count: int, deletions: nat, worker: Worker, eventSet: bool)

  /** How far PostTask is. */
  datatype Stage = Created | Inserted | Shared | Started | EventSet

  datatype Main =
    | Idle
    | Posting(task: nat, stage: Stage)
    | Waiting(held: set<int>, posted: nat)
    | Releasing(held: set<int>, posted: nat)

  /** Tasks are numbered in the order of creation; `pending` is mPendingTasks, keyed by address. */
  datatype State = State(tasks: seq<Task>, pending: map<int, int>, main: Main)

  datatype Action =
    | New(address: int, payload: nat)
    | Insert
    | Share
    | Start
    | SetEvent
    | EndPost
    | BeginWait
    | AllComplete
    | DropHeld(task: nat)
    | EndWait
    | Run(task: nat)
    | Finish(task: nat)
    | Remove(task: nat)
    | DropWorkerRef(task: nat)
    | Signal(task: nat)

  // ----- Reference counts -----

  function Reference(t: Task): Task {
    t.(count := t.count + REF_COUNT_INCREMENT)
  }

  /** The object is deleted if this was the last reference; the payload bit does not matter. */
  function Release(t: Task): Task {
    t.(count := t.count - REF_COUNT_INCREMENT,
       deletions := if t.count < 2 * REF_COUNT_INCREMENT then t.deletions + 1 else t.deletions)
  }

  ghost predicate Alive(s: State, t: int) {
    0 <= t < |s.tasks| && s.tasks[t].deletions == 0
  }

  function Update(s: State, t: nat, task: Task): State
    requires t < |s.tasks|
  {
    s.(tasks := s.tasks[t := task])
  }

  // ----- Steps -----

  predicate AtStage(s: State, stage: Stage) {
    s.main.Posting? && s.main.stage == stage && s.main.task < |s.tasks|
  }

  predicate WorkerAt(s: State, t: int, w: Worker) {
    0 <= t < |s.tasks| && s.tasks[t].worker == w
  }

  /** A new object gets an address that no live object has. Entries of the map name tasks, see Inv. */
  ghost predicate Enabled(s: State, a: Action) {
    match a
    case New(address, payload) =>
      s.main == Idle && payload <= 1 && forall t :: Alive(s, t) ==> s.tasks[t].address != address
    case Insert => AtStage(s, Created)
    case Share => AtStage(s, Inserted)
    case Start => AtStage(s, Shared)
    case SetEvent => AtStage(s, Started)
    case EndPost => AtStage(s, EventSet)
    case BeginWait => s.main == Idle
    case AllComplete => s.main.Waiting? && forall t :: t in s.main.held ==> WorkerAt(s, t, Signalled)
    case DropHeld(t) => s.main.Releasing? && t in s.main.held && t < |s.tasks|
    case EndWait => s.main.Releasing? && s.main.held == {}
    case Run(t) => WorkerAt(s, t, Ready)
    case Finish(t) => WorkerAt(s, t, Running)
    case Remove(t) =>
      && WorkerAt(s, t, Ran)
      && (s.tasks[t].address in s.pending ==> 0 <= s.pending[s.tasks[t].address] < |s.tasks|)
    case DropWorkerRef(t) => WorkerAt(s, t, Removed)
    case Signal(t) => WorkerAt(s, t, Released)
  }

  function SetWorker(s: State, t: nat, w: Worker): State
    requires t < |s.tasks|
  {
    Update(s, t, s.tasks[t].(worker := w))
  }

  function PendingTasks(s: State): set<int> {
    set a | a in s.pending :: s.pending[a]
  }

  ghost function Step(s: State, a: Action): State
    requires Enabled(s, a)
  {
    match a
    case New(address, payload) =>
      s.(tasks := s.tasks + [Task(address, payload, REF_COUNT_INCREMENT + payload, 0, Absent, false)],
         main := Posting(|s.tasks|, Created))
    case Insert =>
      // emplace keeps an entry that is already there.
      var t, s1 := s.main.task, s.(main := s.main.(stage := Inserted));
      if s.tasks[t].address in s.pending then s1
      else Update(s1, t, Reference(s.tasks[t])).(pending := s.pending[s.tasks[t].address := t])
    case Share => Update(s, s.main.task, Reference(s.tasks[s.main.task])).(main := s.main.(stage := Shared))
    case Start => SetWorker(s, s.main.task, Ready).(main := s.main.(stage := Started))
    case SetEvent =>
      Update(s, s.main.task, s.tasks[s.main.task].(eventSet := true)).(main := s.main.(stage := EventSet))
    case EndPost => Update(s, s.main.task, Release(s.tasks[s.main.task])).(main := Idle)
    case BeginWait => s.(pending := map[], main := Waiting(PendingTasks(s), |s.tasks|))
    case AllComplete => s.(main := Releasing(s.main.held, s.main.posted))
    case DropHeld(t) =>
      Update(s, t, Release(s.tasks[t])).(main := Releasing(s.main.held - {t}, s.main.posted))
    case EndWait => s.(main := Idle)
    case Run(t) => SetWorker(s, t, Running)
    case Finish(t) => SetWorker(s, t, Ran)
    case Remove(t) =>
      var a := s.tasks[t].address;
      if a in s.pending then
        var u := s.pending[a];
        SetWorker(Update(s, u, Release(s.tasks[u])), t, Removed).(pending := s.pending - {a})
      else SetWorker(s, t, Removed)
    case DropWorkerRef(t) => SetWorker(Update(s, t, Release(s.tasks[t])), t, Released)
    case Signal(t) => SetWorker(s, t, Signalled)
  }

  // ----- Who holds references -----

  predicate Listed(s: State, t: nat)
    requires t < |s.tasks|
  {
    s.tasks[t].address in s.pending && s.pending[s.tasks[t].address] == t
  }

  predicate Held(s: State, t: int) {
    (s.main.Waiting? || s.main.Releasing?) && t in s.main.held
  }

  /** The worker's own reference; PostTask takes it before it starts the worker. */
  predicate WorkerHolds(s: State, t: nat)
    requires t < |s.tasks|
  {
    s.main == Posting(t, Shared) || s.tasks[t].worker in {Ready, Running, Ran, Removed}
  }

  function Bit(b: bool): nat {
    if b then 1 else 0
  }

  function Holders(s: State, t: nat): nat
    requires t < |s.tasks|
  {
    Bit(s.main.Posting? && s.main.task == t) + Bit(Listed(s, t)) + Bit(Held(s, t)) + Bit(WorkerHolds(s, t))
  }

  /** The task has run and its worker will not enter the manager again. */
  predicate HasLeft(w: Worker) {
    w in {Removed, Released, Signalled}
  }

  /** The count is the number of holders; an object without holders has been deleted once. */
  ghost predicate Counted(s: State, t: nat)
    requires t < |s.tasks|
  {
    && s.tasks[t].payload <= 1
    && s.tasks[t].count == REF_COUNT_INCREMENT * Holders(s, t) + s.tasks[t].payload
    && s.tasks[t].deletions == Bit(Holders(s, t) == 0)
  }

  /** The worker starts, and the event is stored, during PostTask; the worker of a task in no map has left. */
  ghost predicate Staged(s: State, t: nat)
    requires t < |s.tasks|
  {
    && (s.tasks[t].worker == Absent <==>
          s.main.Posting? && s.main.task == t && s.main.stage in {Created, Inserted, Shared})
    && (s.tasks[t].eventSet <==>
          !(s.main.Posting? && s.main.task == t && s.main.stage != EventSet))
    && (Listed(s, t) || Held(s, t) || HasLeft(s.tasks[t].worker) || s.main == Posting(t, Created))
    && (Listed(s, t) ==>
          !Held(s, t) && s.main != Posting(t, Created) && !HasLeft(s.tasks[t].worker))
    && (Held(s, t) ==> s.tasks[t].worker != Absent)
    && (s.main.Releasing? && t < s.main.posted ==> HasLeft(s.tasks[t].worker))
    && (s.main.Waiting? && t < s.main.posted ==> Held(s, t) || HasLeft(s.tasks[t].worker))
  }

  ghost predicate TaskOk(s: State, t: nat)
    requires t < |s.tasks|
  {
    Counted(s, t) && Staged(s, t)
  }

  ghost predicate SameAddress(s: State, t: nat, u: nat)
    requires t < |s.tasks| && u < |s.tasks|
  {
    s.tasks[t].address == s.tasks[u].address
  }

  ghost predicate Entry(s: State, a: int)
    requires a in s.pending
  {
    0 <= s.pending[a] < |s.tasks| && s.tasks[s.pending[a]].address == a
  }

  ghost predicate Inv(s: State) {
    && (forall t: nat {:trigger TaskOk(s, t)} :: t < |s.tasks| ==> TaskOk(s, t))
    && (forall t: nat, u: nat {:trigger SameAddress(s, t, u)} ::
          t < |s.tasks| && u < |s.tasks| && t != u && Alive(s, t) && Alive(s, u) ==> !SameAddress(s, t, u))
    && (forall a {:trigger Entry(s, a)} :: a in s.pending ==> Entry(s, a))
    && (s.main.Posting? ==> s.main.task < |s.tasks|)
    && (s.main.Waiting? || s.main.Releasing? ==> s.main.posted == |s.tasks| && s.pending == map[])
    && (forall t :: Held(s, t) ==> 0 <= t < |s.tasks|)
  }

  // ----- What every step keeps -----

  /** A task that someone holds is alive; one with an entry or a worker is held. */
  lemma HolderKeepsAlive(s: State, t: nat)
    requires Inv(s) && t < |s.tasks|
    ensures Alive(s, t) <==> Holders(s, t) > 0
    ensures s.main.Posting? && s.main.task == t ==> Alive(s, t)
    ensures Listed(s, t) || Held(s, t) || WorkerHolds(s, t) ==> Alive(s, t)
  {
    assert TaskOk(s, t);
  }

  /** Even if addresses are reused, the entry at the address of a live task is its own. */
  lemma OwnEntry(s: State, t: nat)
    requires Inv(s) && Alive(s, t) && s.tasks[t].address in s.pending
    ensures s.pending[s.tasks[t].address] == t
  {
    var a := s.tasks[t].address;
    assert Entry(s, a);
    var u := s.pending[a];
    HolderKeepsAlive(s, u);
    assert SameAddress(s, t, u);
  }

  lemma InsertStepTask(s: State, t: nat)
    requires Inv(s) && Enabled(s, Insert) && t < |s.tasks|
    ensures TaskOk(Step(s, Insert), t)
  {
    assert TaskOk(s, t);
    var u := s.main.task;
    HolderKeepsAlive(s, u);
    assert TaskOk(s, u);
    if s.tasks[u].address in s.pending { OwnEntry(s, u); }
    assert s.tasks[u].address !in s.pending;
  }

  lemma PostStepTask(s: State, a: Action, t: nat)
    requires Inv(s) && Enabled(s, a) && (a.Share? || a.Start? || a.SetEvent? || a.EndPost?)
    requires t < |s.tasks|
    ensures TaskOk(Step(s, a), t)
  {
    assert TaskOk(s, t);
    assert TaskOk(s, s.main.task);
  }

  lemma NewStepTask(s: State, a: Action, t: nat)
    requires Inv(s) && Enabled(s, a) && a.New? && t <= |s.tasks|
    ensures TaskOk(Step(s, a), t)
  {
    if t < |s.tasks| {
      assert TaskOk(s, t);
    } else if a.address in s.pending {
      assert Entry(s, a.address);
      HolderKeepsAlive(s, s.pending[a.address]);
    }
  }

  lemma BeginWaitTask(s: State, t: nat)
    requires Inv(s) && s.main == Idle && t < |s.tasks|
    ensures TaskOk(Step(s, BeginWait), t)
  {
    assert TaskOk(s, t);
    var v: int := t;
    if v in PendingTasks(s) {
      var key :| key in s.pending && s.pending[key] == v;
      assert Entry(s, key);
    }
    assert Held(Step(s, BeginWait), v) <==> Listed(s, t);
  }

  lemma WaitStepTask(s: State, a: Action, t: nat)
    requires Inv(s) && Enabled(s, a) && (a.AllComplete? || a.EndWait? || a.DropHeld?)
    requires t < |s.tasks|
    ensures TaskOk(Step(s, a), t)
  {
    assert TaskOk(s, t);
    var v: int := t;
    assert a == AllComplete && v in s.main.held ==> WorkerAt(s, v, Signalled);
  }

  lemma WorkerStepTask(s: State, a: Action, t: nat)
    requires Inv(s) && Enabled(s, a) && (a.Run? || a.Finish? || a.DropWorkerRef? || a.Signal?)
    requires t < |s.tasks|
    ensures TaskOk(Step(s, a), t)
  {
    assert TaskOk(s, t);
  }

  lemma RemoveStepTask(s: State, a: Action, t: nat)
    requires Inv(s) && Enabled(s, a) && a.Remove? && t < |s.tasks|
    ensures TaskOk(Step(s, a), t)
  {
    assert TaskOk(s, t) && TaskOk(s, a.task);
    HolderKeepsAlive(s, a.task);
    if s.tasks[a.task].address in s.pending { OwnEntry(s, a.task); }
  }

  lemma StepTask(s: State, a: Action, t: nat)
    requires Inv(s) && Enabled(s, a) && t < |Step(s, a).tasks|
    ensures TaskOk(Step(s, a), t)
  {
    match a
    case New(_, _) => NewStepTask(s, a, t);
    case Insert => InsertStepTask(s, t);
    case Share => PostStepTask(s, a, t);
    case Start => PostStepTask(s, a, t);
    case SetEvent => PostStepTask(s, a, t);
    case EndPost => PostStepTask(s, a, t);
    case BeginWait => BeginWaitTask(s, t);
    case AllComplete => WaitStepTask(s, a, t);
    case DropHeld(_) => WaitStepTask(s, a, t);
    case EndWait => WaitStepTask(s, a, t);
    case Remove(_) => RemoveStepTask(s, a, t);
    case Run(_) => WorkerStepTask(s, a, t);
    case Finish(_) => WorkerStepTask(s, a, t);
    case DropWorkerRef(_) => WorkerStepTask(s, a, t);
    case Signal(_) => WorkerStepTask(s, a, t);
  }

  lemma StepEntries(s: State, a: Action, key: int)
    requires Inv(s) && Enabled(s, a) && key in Step(s, a).pending
    ensures Entry(Step(s, a), key)
  {
    if key in s.pending { assert Entry(s, key); }
    if a.Remove? && s.tasks[a.task].address in s.pending { assert Entry(s, s.tasks[a.task].address); }
  }

  lemma StepAddresses(s: State, a: Action, t: nat, u: nat)
    requires Inv(s) && Enabled(s, a) && t < |Step(s, a).tasks| && u < |Step(s, a).tasks| && t != u
    requires Alive(Step(s, a), t) && Alive(Step(s, a), u)
    ensures !SameAddress(Step(s, a), t, u)
  {
    if t < |s.tasks| && u < |s.tasks| {
      StepKeepsObject(s, a, t);
      StepKeepsObject(s, a, u);
      assert Alive(s, t) && Alive(s, u) ==> !SameAddress(s, t, u);
    }
  }

  /** An object keeps its address and is never brought back. */
  lemma StepKeepsObject(s: State, a: Action, t: nat)
    requires Enabled(s, a) && t < |s.tasks|
    ensures t < |Step(s, a).tasks| && Step(s, a).tasks[t].address == s.tasks[t].address
    ensures Step(s, a).tasks[t].deletions >= s.tasks[t].deletions
  {
  }

  lemma StepKeepsInv(s: State, a: Action)
    requires Inv(s) && Enabled(s, a)
    ensures Inv(Step(s, a))
  {
    var n := Step(s, a);
    forall t: nat {:trigger TaskOk(n, t)} | t < |n.tasks|
      ensures TaskOk(n, t)
    {
      StepTask(s, a, t);
    }
    forall t: nat, u: nat {:trigger SameAddress(n, t, u)}
      | t < |n.tasks| && u < |n.tasks| && t != u && Alive(n, t) && Alive(n, u)
      ensures !SameAddress(n, t, u)
    {
      StepAddresses(s, a, t, u);
    }
    forall key {:trigger Entry(n, key)} | key in n.pending
      ensures Entry(n, key)
    {
      StepEntries(s, a, key);
    }
    StepHeld(s, a);
  }

  lemma StepHeld(s: State, a: Action)
    requires Inv(s) && Enabled(s, a)
    ensures forall t :: Held(Step(s, a), t) ==> 0 <= t < |Step(s, a).tasks|
    ensures Step(s, a).main.Posting? ==> Step(s, a).main.task < |Step(s, a).tasks|
    ensures Step(s, a).main.Waiting? || Step(s, a).main.Releasing? ==>
              Step(s, a).main.posted == |Step(s, a).tasks| && Step(s, a).pending == map[]
  {
    if a == BeginWait {
      forall t | t in PendingTasks(s)
        ensures 0 <= t < |s.tasks|
      {
        var key :| key in s.pending && s.pending[key] == t;
        assert Entry(s, key);
      }
    } else {
      assert forall t :: Held(Step(s, a), t) ==> Held(s, t);
    }
  }

  // ----- Runs -----

  /** Each action is possible when it is taken. */
  ghost predicate Legal(s: State, run: seq<Action>)
    decreases |run|
  {
    run == [] || (Enabled(s, run[0]) && Legal(Step(s, run[0]), run[1..]))
  }

  ghost function Exec(s: State, run: seq<Action>): State
    requires Legal(s, run)
    decreases |run|
  {
    if run == [] then s else Exec(Step(s, run[0]), run[1..])
  }

  ghost function Init(): State {
    State([], map[], Idle)
  }

  lemma {:induction false} RunKeepsInv(s: State, run: seq<Action>)
    requires Inv(s) && Legal(s, run)
    ensures Inv(Exec(s, run))
    decreases |run|
  {
    if run != [] {
      StepKeepsInv(s, run[0]);
      RunKeepsInv(Step(s, run[0]), run[1..]);
    }
  }

  /** Over every run no object is deleted twice, and one is deleted exactly when nobody holds it. */
  lemma DeletedOnce(run: seq<Action>, t: nat)
    requires Legal(Init(), run) && t < |Exec(Init(), run).tasks|
    ensures var s := Exec(Init(), run);
            s.tasks[t].deletions == Bit(Holders(s, t) == 0)
  {
    RunKeepsInv(Init(), run);
    assert TaskOk(Exec(Init(), run), t);
  }

  /** The objects a step reads or writes. */
  ghost function Touched(s: State, a: Action): set<int>
    requires Enabled(s, a)
  {
    match a
    case New(_, _) => {}
    case Insert => {s.main.task}
    case Share => {s.main.task}
    case Start => {s.main.task}
    case SetEvent => {s.main.task}
    case EndPost => {s.main.task}
    case BeginWait => {}
    case AllComplete => s.main.held
    case DropHeld(t) => {t}
    case EndWait => {}
    case Run(t) => {t}
    case Finish(t) => {t}
    case Remove(t) => if s.tasks[t].address in s.pending then {t, s.pending[s.tasks[t].address]} else {t}
    case DropWorkerRef(t) => {t}
    case Signal(_) => {}
  }

  /** Over every run, whatever is interleaved, a step only touches objects that are alive. */
  lemma TouchesLiveObjects(run: seq<Action>, a: Action)
    requires Legal(Init(), run) && Enabled(Exec(Init(), run), a)
    ensures forall t :: t in Touched(Exec(Init(), run), a) ==> Alive(Exec(Init(), run), t)
  {
    var s := Exec(Init(), run);
    RunKeepsInv(Init(), run);
    forall t | t in Touched(s, a)
      ensures Alive(s, t)
    {
      if a == AllComplete { assert Held(s, t); }
      if a.Remove? {
        assert TaskOk(s, a.task);
        HolderKeepsAlive(s, a.task);
        if s.tasks[a.task].address in s.pending { OwnEntry(s, a.task); }
      } else {
        HolderKeepsAlive(s, t);
      }
    }
  }

  /** The event of every task that is waited for has been stored. */
  lemma WaitsForStoredEvents(run: seq<Action>, t: nat)
    requires Legal(Init(), run) && Exec(Init(), run).main.Waiting? && Held(Exec(Init(), run), t)
    ensures t < |Exec(Init(), run).tasks| && Exec(Init(), run).tasks[t].eventSet
  {
    RunKeepsInv(Init(), run);
    assert TaskOk(Exec(Init(), run), t);
  }

  /** A finished task takes out its own entry, never that of another task at the same address. */
  lemma RemovesOwnEntry(run: seq<Action>, t: nat, u: nat)
    requires Legal(Init(), run) && Enabled(Exec(Init(), run), Remove(t))
    requires u < |Exec(Init(), run).tasks| && u != t
    ensures var s := Exec(Init(), run);
            && Listed(Step(s, Remove(t)), u) == Listed(s, u)
            && Step(s, Remove(t)).tasks[u] == s.tasks[u]
            && !Listed(Step(s, Remove(t)), t)
  {
    var s := Exec(Init(), run);
    RunKeepsInv(Init(), run);
    assert TaskOk(s, t);
    HolderKeepsAlive(s, t);
    if s.tasks[t].address in s.pending { OwnEntry(s, t); }
  }

  /** When WaitAllPendingTasks returns, every task posted before it has run and its worker has left. */
  lemma WaitCoversAllTasks(run: seq<Action>, t: nat)
    requires Legal(Init(), run) && Enabled(Exec(Init(), run), EndWait)
    requires t < |Exec(Init(), run).tasks|
    ensures HasLeft(Exec(Init(), run).tasks[t].worker)
  {
    RunKeepsInv(Init(), run);
    assert TaskOk(Exec(Init(), run), t);
  }

  /** Nothing is being posted and every worker has left. */
  ghost predicate Quiet(s: State) {
    !s.main.Posting? && forall t :: 0 <= t < |s.tasks| ==> HasLeft(s.tasks[t].worker)
  }

  lemma QuietStep(s: State, a: Action)
    requires Quiet(s) && Enabled(s, a) && !a.New?
    ensures Quiet(Step(s, a))
  {
  }

  lemma {:induction false} QuietRun(s: State, rest: seq<Action>)
    requires Quiet(s) && Legal(s, rest) && forall i :: 0 <= i < |rest| ==> !rest[i].New?
    ensures Quiet(Exec(s, rest))
    decreases |rest|
  {
    if rest != [] {
      QuietStep(s, rest[0]);
      QuietRun(Step(s, rest[0]), rest[1..]);
    }
  }

  lemma {:induction false} QuietAfterWait(run: seq<Action>)
    requires Legal(Init(), run) && Enabled(Exec(Init(), run), EndWait)
    ensures Quiet(Step(Exec(Init(), run), EndWait))
  {
    var s := Exec(Init(), run);
    forall u | 0 <= u < |s.tasks|
      ensures HasLeft(s.tasks[u].worker)
    {
      WaitCoversAllTasks(run, u);
    }
  }

  lemma QuietWorkers(s: State, t: nat)
    requires Quiet(s)
    ensures !Enabled(s, Run(t)) && !Enabled(s, Finish(t)) && !Enabled(s, Remove(t))
  {
  }

  /**
   Once WaitAllPendingTasks has returned and nothing more is posted, no worker runs a task or enters
   the manager at any later time, so the manager can be deleted.
   */
  lemma {:induction false} ManagerCanBeDeleted(run: seq<Action>, rest: seq<Action>, t: nat)
    requires Legal(Init(), run) && Enabled(Exec(Init(), run), EndWait)
    requires Legal(Step(Exec(Init(), run), EndWait), rest) && forall i :: 0 <= i < |rest| ==> !rest[i].New?
    ensures var s := Exec(Step(Exec(Init(), run), EndWait), rest);
            !Enabled(s, Run(t)) && !Enabled(s, Finish(t)) && !Enabled(s, Remove(t))
  {
    QuietAfterWait(run);
    QuietRun(Step(Exec(Init(), run), EndWait), rest);
    QuietWorkers(Exec(Step(Exec(Init(), run), EndWait), rest), t);
  }

  /** With the main thread idle, an empty map means that all tasks have run and their workers have left. */
  lemma NoPendingTasksMeansAllRan(run: seq<Action>, t: nat)
    requires Legal(Init(), run) && Exec(Init(), run).main == Idle && Exec(Init(), run).pending == map[]
    requires t < |Exec(Init(), run).tasks|
    ensures HasLeft(Exec(Init(), run).tasks[t].worker)
  {
    RunKeepsInv(Init(), run);
    assert TaskOk(Exec(Init(), run), t);
  }

  /** Once the main thread is idle and a task's worker is done, the object has been deleted exactly once. */
  lemma NothingLeaks(run: seq<Action>, t: nat)
    requires Legal(Init(), run) && t < |Exec(Init(), run).tasks|
    ensures var s := Exec(Init(), run);
            s.main == Idle && (s.tasks[t].worker == Released || s.tasks[t].worker == Signalled) ==>
              s.tasks[t].deletions == 1
  {
    RunKeepsInv(Init(), run);
    assert TaskOk(Exec(Init(), run), t);
  }

  // ----- Everything ends -----

  /** Steps that neither post nor begin to wait. */
  predicate Finishing(a: Action) {
    !a.New? && !a.BeginWait?
  }

  function StepsLeft(w: Worker): nat {
    match w
    case Absent => 6
    case Ready => 5
    case Running => 4
    case Ran => 3
    case Removed => 2
    case Released => 1
    case Signalled => 0
  }

  function WorkLeft(tasks: seq<Task>): nat {
    if tasks == [] then 0 else WorkLeft(tasks[..|tasks| - 1]) + StepsLeft(tasks[|tasks| - 1].worker)
  }

  ghost function MainLeft(m: Main): nat {
    match m
    case Idle => 0
    case Posting(_, stage) =>
      (match stage case Created => 5 case Inserted => 4 case Shared => 3 case Started => 2 case EventSet => 1)
    case Waiting(held, _) => 2 + |held|
    case Releasing(held, _) => 1 + |held|
  }

  /** An upper bound on the steps until everything has ended. */
  ghost function Left(s: State): nat {
    WorkLeft(s.tasks) + MainLeft(s.main)
  }

  lemma {:induction false} WorkAfter(tasks: seq<Task>, t: nat, task: Task)
    requires t < |tasks|
    ensures WorkLeft(tasks[t := task]) == WorkLeft(tasks) - StepsLeft(tasks[t].worker) + StepsLeft(task.worker)
    decreases |tasks|
  {
    var n := |tasks| - 1;
    if t == n {
      assert tasks[t := task][..n] == tasks[..n];
    } else {
      WorkAfter(tasks[..n], t, task);
      assert tasks[t := task][..n] == tasks[..n][t := task];
    }
  }

  lemma WorkerStepEnds(s: State, a: Action)
    requires Inv(s) && Enabled(s, a) && (a.Run? || a.Finish? || a.DropWorkerRef? || a.Signal? || a.Remove?)
    ensures Left(Step(s, a)) < Left(s)
  {
    var t, n := a.task, Step(s, a);
    if a.Remove? && s.tasks[t].address in s.pending {
      var u := s.pending[s.tasks[t].address];
      WorkAfter(s.tasks, u, Release(s.tasks[u]));
      WorkAfter(s.tasks[u := Release(s.tasks[u])], t, n.tasks[t]);
    } else if a.DropWorkerRef? {
      WorkAfter(s.tasks, t, Release(s.tasks[t]));
      WorkAfter(s.tasks[t := Release(s.tasks[t])], t, n.tasks[t]);
    } else {
      WorkAfter(s.tasks, t, n.tasks[t]);
    }
  }

  lemma MainStepEnds(s: State, a: Action)
    requires Inv(s) && Enabled(s, a) && Finishing(a)
    requires !a.Run? && !a.Finish? && !a.DropWorkerRef? && !a.Signal? && !a.Remove?
    ensures Left(Step(s, a)) < Left(s)
  {
    if s.main.Posting? {
      WorkAfter(s.tasks, s.main.task, Step(s, a).tasks[s.main.task]);
      assert TaskOk(s, s.main.task);
    } else if a.DropHeld? {
      WorkAfter(s.tasks, a.task, Release(s.tasks[a.task]));
    }
  }

  lemma StepEnds(s: State, a: Action)
    requires Inv(s) && Enabled(s, a) && Finishing(a)
    ensures Left(Step(s, a)) < Left(s)
  {
    if a.Run? || a.Finish? || a.DropWorkerRef? || a.Signal? || a.Remove? {
      WorkerStepEnds(s, a);
    } else {
      MainStepEnds(s, a);
    }
  }

  /** Nothing can go on but a new post or a new wait. */
  ghost predicate Stuck(s: State) {
    forall a :: Finishing(a) ==> !Enabled(s, a)
  }

  /** The step that a worker can take. */
  lemma WorkerMoves(s: State, t: nat)
    requires Inv(s) && t < |s.tasks| && s.tasks[t].worker != Absent && s.tasks[t].worker != Signalled
    ensures !Stuck(s)
  {
    var a := match s.tasks[t].worker
      case Ready => Run(t)
      case Running => Finish(t)
      case Ran => Remove(t)
      case Removed => DropWorkerRef(t)
      case _ => Signal(t);
    if a.Remove? && s.tasks[t].address in s.pending { assert Entry(s, s.tasks[t].address); }
    assert Finishing(a) && Enabled(s, a);
  }

  lemma NoMembers(held: set<int>)
    requires forall t :: t !in held
    ensures held == {}
  {
    var none: set<int> := {};
    assert forall t :: t in held <==> t in none;
  }

  lemma MainMoves(s: State)
    requires Inv(s) && s.main != Idle
    ensures !Stuck(s)
  {
    match s.main
    case Posting(t, stage) =>
      var a := match stage
        case Created => Insert
        case Inserted => Share
        case Shared => Start
        case Started => SetEvent
        case EventSet => EndPost;
      assert Finishing(a) && Enabled(s, a);
    case Waiting(held, _) =>
      if t :| t in held && !WorkerAt(s, t, Signalled) {
        assert Held(s, t);
        assert TaskOk(s, t);
        WorkerMoves(s, t);
      } else {
        assert Finishing(AllComplete) && Enabled(s, AllComplete);
      }
    case Releasing(held, _) =>
      if t :| t in held {
        assert Held(s, t);
        assert Finishing(DropHeld(t)) && Enabled(s, DropHeld(t));
      } else {
        NoMembers(held);
        assert Finishing(EndWait) && Enabled(s, EndWait);
      }
  }

  /** There is no deadlock: when nothing can go on, no call is under way and every object was deleted once. */
  lemma StuckIsDone(s: State)
    requires Inv(s) && Stuck(s)
    ensures s.main == Idle
    ensures forall t :: 0 <= t < |s.tasks| ==> s.tasks[t].worker == Signalled && s.tasks[t].deletions == 1
  {
    if s.main != Idle { MainMoves(s); }
    forall t | 0 <= t < |s.tasks|
      ensures s.tasks[t].worker == Signalled && s.tasks[t].deletions == 1
    {
      assert TaskOk(s, t);
      if s.tasks[t].worker != Signalled { WorkerMoves(s, t); }
    }
  }

  /**
   Whatever the interleaving, unless tasks are posted or waits begun again and again, a run ends: it
   has a bounded number of steps, and one that cannot go on has finished every call and every task.
   */
  lemma {:induction false} RunsEnd(s: State, run: seq<Action>)
    requires Inv(s) && Legal(s, run) && forall i :: 0 <= i < |run| ==> Finishing(run[i])
    ensures |run| + Left(Exec(s, run)) <= Left(s)
    ensures Stuck(Exec(s, run)) ==>
              && Exec(s, run).main == Idle
              && forall t :: 0 <= t < |Exec(s, run).tasks| ==>
                   Exec(s, run).tasks[t].worker == Signalled && Exec(s, run).tasks[t].deletions == 1
    decreases |run|
  {
    if run == [] {
      if Stuck(s) { StuckIsDone(s); }
    } else {
      StepEnds(s, run[0]);
      StepKeepsInv(s, run[0]);
      RunsEnd(Step(s, run[0]), run[1..]);
    }
  }
}
