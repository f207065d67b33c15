/** The worker pool (dxrk/task.py, WorkerPool) as a state machine. */
module WorkerPool {
  // Each locked section and each unlocked read or write of a task's status is one step; workers,
  // submitters, cancellers and the closing caller interleave freely.

  import opened Wrappers
  import BinaryHeap

  type TaskId = BinaryHeap.TaskId

  datatype Status = Pending | Running | Completed | Failed | Cancelled

  predicate Terminal(st: Status) {
    st.Completed? || st.Failed? || st.Cancelled?
  }

  /** Where a worker stands in its loop. */
  datatype Worker =
    | AtPop
    | Checking(task: TaskId)              // popped, status not read yet
    | Entering(task: TaskId)              // not cancelled when read
    | Starting(task: TaskId)              // counted as active
    | Handling(task: TaskId)              // marked RUNNING
    | Finishing(task: TaskId, ok: bool)   // the handler has returned
    | Leaving                             // outcome recorded, still counted
    | Exited

  predicate Holding(w: Worker, t: TaskId) {
    (w.Checking? || w.Entering? || w.Starting? || w.Handling? || w.Finishing?) && w.task == t
  }

  predicate Counted(w: Worker) {
    w.Starting? || w.Handling? || w.Finishing? || w.Leaving?
  }

  /**
   queue holds the heap's tasks; accepted and withdrawn record which tasks a push
   took in, and which an outside remove or try_pop took out again.
   */
  datatype State = State(
    queue: multiset<TaskId>,
    closed: bool,
    status: map<TaskId, Status>,
    workers: seq<Worker>,
    active: int,
    hasHandler: bool,
    accepted: set<TaskId>,
    withdrawn: set<TaskId>)

  datatype Action =
    | Submit(task: TaskId)
    | Cancel(task: TaskId)
    | Remove(task: TaskId)
    | TryPop(task: TaskId)
    | Close
    | Pop(w: nat, task: TaskId)
    | SeeClosed(w: nat)
    | Check(w: nat)
    | Enter(w: nat)
    | Start(w: nat)
    | Handle(w: nat, ok: bool)
    | Finish(w: nat)
    | Leave(w: nat)

  predicate IsWorkerAction(a: Action) {
    !(a.Submit? || a.Cancel? || a.Remove? || a.TryPop? || a.Close?)
  }

  predicate Enabled(s: State, a: Action) {
    match a
    case Submit(t) => true
    case Cancel(t) => t in s.status
    case Remove(t) => true
    case TryPop(t) => t in s.queue && !s.closed
    case Close => true
    case Pop(w, t) => w < |s.workers| && s.workers[w].AtPop? && t in s.queue
    case SeeClosed(w) => w < |s.workers| && s.workers[w].AtPop? && s.queue == multiset{} && s.closed
    case Check(w) => w < |s.workers| && s.workers[w].Checking? && s.workers[w].task in s.status
    case Enter(w) => w < |s.workers| && s.workers[w].Entering?
    case Start(w) => w < |s.workers| && s.workers[w].Starting?
    case Handle(w, ok) => w < |s.workers| && s.workers[w].Handling?
    case Finish(w) => w < |s.workers| && s.workers[w].Finishing?
    case Leave(w) => w < |s.workers| && s.workers[w].Leaving?
  }

  function At(s: State, w: nat, pc: Worker): State
    requires w < |s.workers|
  {
    s.(workers := s.workers[w := pc])
  }

  function Apply(s: State, a: Action): State
    requires Enabled(s, a)
  {
    match a
    case Submit(t) =>
      if s.closed then s
      else s.(queue := s.queue + multiset{t}, accepted := s.accepted + {t},
              status := if t in s.status then s.status else s.status[t := Pending])
    case Cancel(t) =>
      if Terminal(s.status[t]) then s else s.(status := s.status[t := Cancelled])
    case Remove(t) => s.(queue := s.queue[t := 0], withdrawn := s.withdrawn + {t})
    case TryPop(t) => s.(queue := s.queue - multiset{t}, withdrawn := s.withdrawn + {t})
    case Close => s.(closed := true)
    case Pop(w, t) => At(s.(queue := s.queue - multiset{t}), w, Checking(t))
    case SeeClosed(w) => At(s, w, Exited)
    case Check(w) =>
      var t := s.workers[w].task;
      At(s, w, if s.status[t].Cancelled? || !s.hasHandler then AtPop else Entering(t))
    case Enter(w) => At(s.(active := s.active + 1), w, Starting(s.workers[w].task))
    case Start(w) =>
      var t := s.workers[w].task;
      At(s.(status := s.status[t := Running]), w, Handling(t))
    case Handle(w, ok) => At(s, w, Finishing(s.workers[w].task, ok))
    case Finish(w) =>
      var Finishing(t, ok) := s.workers[w];
      At(s.(status := s.status[t := if ok then Completed else Failed]), w, Leaving)
    case Leave(w) => At(s.(active := s.active - 1), w, AtPop)
  }

  ghost predicate Init(s: State) {
    && s.queue == multiset{} && !s.closed && s.status == map[]
    && (forall w :: 0 <= w < |s.workers| ==> s.workers[w].AtPop?)
    && s.active == 0 && s.accepted == {} && s.withdrawn == {}
  }

  // ----- The invariant -----

  function CountActive(ws: seq<Worker>): nat {
    if ws == [] then 0 else (if Counted(ws[0]) then 1 else 0) + CountActive(ws[1..])
  }

  lemma {:induction false} CountAfterUpdate(ws: seq<Worker>, w: nat, pc: Worker)
    requires w < |ws|
    ensures CountActive(ws[w := pc])
         == CountActive(ws) - (if Counted(ws[w]) then 1 else 0) + (if Counted(pc) then 1 else 0)
  {
    if w > 0 {
      CountAfterUpdate(ws[1..], w - 1, pc);
      assert ws[w := pc][1..] == ws[1..][w - 1 := pc];
    }
  }

  ghost predicate Held(s: State, t: TaskId) {
    exists w :: 0 <= w < |s.workers| && Holding(s.workers[w], t)
  }

  /** An accepted task is queued, in a worker's hands, finished, or was taken out again. */
  ghost predicate Accounted(s: State, t: TaskId) {
    t in s.status && (t in s.queue || Held(s, t) || Terminal(s.status[t]) || t in s.withdrawn || !s.hasHandler)
  }

  ghost predicate AllAccounted(s: State) {
    forall t :: t in s.accepted ==> Accounted(s, t)
  }

  ghost predicate KnownTasks(s: State) {
    && (forall t :: t in s.queue ==> t in s.status)
    && (forall w, t :: 0 <= w < |s.workers| && Holding(s.workers[w], t) ==> t in s.status)
  }

  ghost predicate ExitsWhenDrained(s: State) {
    forall w :: 0 <= w < |s.workers| && s.workers[w].Exited? ==> s.closed && s.queue == multiset{}
  }

  /** Without a handler no worker gets past its checks and no task is ever started. */
  ghost predicate IdleWithoutHandler(s: State) {
    !s.hasHandler ==>
      && (forall t :: t in s.status ==> s.status[t].Pending? || s.status[t].Cancelled?)
      && (forall w :: 0 <= w < |s.workers| ==>
            s.workers[w].AtPop? || s.workers[w].Checking? || s.workers[w].Exited?)
  }

  ghost predicate Inv(s: State) {
    && s.active == CountActive(s.workers)
    && AllAccounted(s)
    && KnownTasks(s)
    && ExitsWhenDrained(s)
    && IdleWithoutHandler(s)
  }

  lemma {:induction false} NoneCounted(ws: seq<Worker>)
    requires forall w :: 0 <= w < |ws| ==> !Counted(ws[w])
    ensures CountActive(ws) == 0
  {
    if ws != [] {
      NoneCounted(ws[1..]);
    }
  }

  lemma InitHolds(s: State)
    requires Init(s)
    ensures Inv(s)
  {
    NoneCounted(s.workers);
  }

  lemma OutsideStepAccounts(s: State, a: Action, t: TaskId)
    requires Enabled(s, a) && !IsWorkerAction(a) && t in Apply(s, a).accepted
    requires t in s.accepted ==> Accounted(s, t)
    ensures Accounted(Apply(s, a), t)
  {
    var s' := Apply(s, a);
    assert Held(s, t) <==> Held(s', t);
  }

  lemma OutsideStepKeepsInv(s: State, a: Action)
    requires Inv(s) && Enabled(s, a) && !IsWorkerAction(a)
    ensures Inv(Apply(s, a))
  {
    OutsideStepKnows(s, a);
    OutsideStepDrains(s, a);
    forall t | t in Apply(s, a).accepted {
      OutsideStepAccounts(s, a, t);
    }
  }

  lemma OutsideStepKnows(s: State, a: Action)
    requires KnownTasks(s) && Enabled(s, a) && !IsWorkerAction(a)
    ensures KnownTasks(Apply(s, a))
  {
  }

  lemma OutsideStepDrains(s: State, a: Action)
    requires ExitsWhenDrained(s) && IdleWithoutHandler(s) && Enabled(s, a) && !IsWorkerAction(a)
    ensures Apply(s, a).workers == s.workers && Apply(s, a).active == s.active
    ensures ExitsWhenDrained(Apply(s, a)) && IdleWithoutHandler(Apply(s, a))
  {
    assert s.queue == multiset{} && s.closed ==> Apply(s, a).queue == multiset{};
  }

  lemma StillHeld(s: State, s': State, w: nat, t: TaskId)
    requires Held(s, t) && w < |s.workers| == |s'.workers| && s'.workers == s.workers[w := s'.workers[w]]
    requires Holding(s.workers[w], t) ==> Holding(s'.workers[w], t)
    ensures Held(s', t)
  {
    var v :| 0 <= v < |s.workers| && Holding(s.workers[v], t);
    assert Holding(s'.workers[v], t);
  }

  /** A worker's step touches its own program counter and, at most, the task it holds. */
  lemma WorkerStepIsLocal(s: State, a: Action)
    requires Enabled(s, a) && IsWorkerAction(a)
    ensures var s' := Apply(s, a);
      && a.w < |s.workers| == |s'.workers| && s'.workers == s.workers[a.w := s'.workers[a.w]]
      && s'.accepted == s.accepted && s'.withdrawn == s.withdrawn && s'.hasHandler == s.hasHandler
      && s'.closed == s.closed && (forall t :: t in s.status ==> t in s'.status)
      && (forall t :: t in s'.queue ==> t in s.queue)
  {
  }

  lemma WorkerStepAccounts(s: State, a: Action, t: TaskId)
    requires Accounted(s, t) && Enabled(s, a) && IsWorkerAction(a)
    ensures Accounted(Apply(s, a), t)
  {
    var s' := Apply(s, a);
    WorkerStepIsLocal(s, a);
    if Holding(s.workers[a.w], t) || Holding(s'.workers[a.w], t) {
      assert Holding(s'.workers[a.w], t) ==> Held(s', t);
    } else if Held(s, t) {
      StillHeld(s, s', a.w, t);
    }
  }

  lemma WorkerStepCounts(s: State, a: Action)
    requires s.active == CountActive(s.workers) && Enabled(s, a) && IsWorkerAction(a)
    ensures Apply(s, a).active == CountActive(Apply(s, a).workers)
  {
    WorkerStepIsLocal(s, a);
    WorkerStepActive(s, a);
    CountAfterUpdate(s.workers, a.w, Apply(s, a).workers[a.w]);
  }

  lemma WorkerStepActive(s: State, a: Action)
    requires Enabled(s, a) && IsWorkerAction(a)
    ensures a.w < |s.workers| == |Apply(s, a).workers|
    ensures Apply(s, a).active
         == s.active - (if Counted(s.workers[a.w]) then 1 else 0) + (if Counted(Apply(s, a).workers[a.w]) then 1 else 0)
  {
    if a.Enter? || a.Leave? {
      assert Counted(Apply(s, a).workers[a.w]) == a.Enter?;
    } else {
      assert Apply(s, a).active == s.active;
    }
  }

  lemma WorkerStepKnows(s: State, a: Action)
    requires KnownTasks(s) && Enabled(s, a) && IsWorkerAction(a)
    ensures KnownTasks(Apply(s, a))
  {
    var s' := Apply(s, a);
    WorkerStepIsLocal(s, a);
    forall w, t | 0 <= w < |s'.workers| && Holding(s'.workers[w], t)
      ensures t in s'.status
    {
      if w != a.w || !a.Pop? {
        assert Holding(s.workers[w], t);
      }
    }
  }

  lemma WorkerStepStaysIdle(s: State, a: Action)
    requires IdleWithoutHandler(s) && Enabled(s, a) && IsWorkerAction(a)
    ensures IdleWithoutHandler(Apply(s, a))
  {
    if !s.hasHandler {
      WorkerStepIsLocal(s, a);
      assert a.Pop? || a.Check? || a.SeeClosed?;
    }
  }

  lemma WorkerStepDrains(s: State, a: Action)
    requires ExitsWhenDrained(s) && Enabled(s, a) && IsWorkerAction(a)
    ensures ExitsWhenDrained(Apply(s, a))
  {
    var s' := Apply(s, a);
    WorkerStepIsLocal(s, a);
    forall w | 0 <= w < |s'.workers| && s'.workers[w].Exited?
      ensures s'.closed && s'.queue == multiset{}
    {
      if w != a.w {
        assert s.workers[w].Exited?;
      }
    }
  }

  lemma WorkerStepKeepsInv(s: State, a: Action)
    requires Inv(s) && Enabled(s, a) && IsWorkerAction(a)
    ensures Inv(Apply(s, a))
  {
    WorkerStepIsLocal(s, a);
    WorkerStepCounts(s, a);
    WorkerStepKnows(s, a);
    WorkerStepDrains(s, a);
    WorkerStepStaysIdle(s, a);
    forall t | t in s.accepted {
      WorkerStepAccounts(s, a, t);
    }
  }

  // ----- Whole runs -----

  ghost predicate IsRun(states: seq<State>, actions: seq<Action>) {
    IsPath(states, actions) && Init(states[0])
  }

  /** The actions lead from each state to the next; the first may be any state. */
  ghost predicate IsPath(states: seq<State>, actions: seq<Action>) {
    && |states| == |actions| + 1
    && forall i :: 0 <= i < |actions| ==> StepOfRun(states, actions, i)
  }

  ghost predicate StepOfRun(states: seq<State>, actions: seq<Action>, i: nat)
    requires |states| == |actions| + 1 && i < |actions|
  {
    Enabled(states[i], actions[i]) && states[i + 1] == Apply(states[i], actions[i])
  }

  lemma {:induction false} RunKeepsInv(states: seq<State>, actions: seq<Action>, i: nat)
    requires IsRun(states, actions) && i < |states|
    ensures Inv(states[i])
  {
    if i == 0 {
      InitHolds(states[0]);
    } else {
      RunKeepsInv(states, actions, i - 1);
      assert StepOfRun(states, actions, i - 1);
      if IsWorkerAction(actions[i - 1]) {
        WorkerStepKeepsInv(states[i - 1], actions[i - 1]);
      } else {
        OutsideStepKeepsInv(states[i - 1], actions[i - 1]);
      }
    }
  }

  /** stop() returns once every worker thread has been joined. */
  ghost predicate Joined(s: State) {
    s.closed && forall w :: 0 <= w < |s.workers| ==> s.workers[w].Exited?
  }

  /**
   When stop() has joined at least one worker, in any interleaving, nothing is queued,
   nobody is active, and every task that was accepted and not taken out again is
   terminal; with no handler installed, that last part holds for a task exactly when
   it was cancelled.
   */
  lemma StopDrains(states: seq<State>, actions: seq<Action>)
    requires IsRun(states, actions)
    ensures var s := states[|actions|];
      Joined(s) && |s.workers| > 0 ==>
        && s.queue == multiset{} && s.active == 0
        && (forall t :: t in s.accepted ==> t in s.status)
        && (s.hasHandler ==> forall t :: t in s.accepted && t !in s.withdrawn ==> Terminal(s.status[t]))
        && (!s.hasHandler ==> forall t :: t in s.accepted ==> (Terminal(s.status[t]) <==> s.status[t].Cancelled?))
  {
    var s := states[|actions|];
    RunKeepsInv(states, actions, |actions|);
    if Joined(s) && |s.workers| > 0 {
      assert s.workers[0].Exited?;
      NoneCounted(s.workers);
      forall t | t in s.accepted
        ensures t in s.status && (s.hasHandler && t !in s.withdrawn ==> Terminal(s.status[t]))
      {
        assert Accounted(s, t) && !Held(s, t);
      }
    }
  }

  lemma NoWorkersRun(t: TaskId) returns (states: seq<State>, actions: seq<Action>)
    ensures IsRun(states, actions) && |states[0].workers| == 0
    ensures Joined(states[|actions|]) && t in states[|actions|].queue
  {
    var s0 := State(multiset{}, false, map[], [], 0, true, {}, {});
    var s1 := Apply(s0, Submit(t));
    var s2 := Apply(s1, Close);
    states, actions := [s0, s1, s2], [Submit(t), Close];
    assert StepOfRun(states, actions, 0) && StepOfRun(states, actions, 1);
  }

  /** With no workers at all, stop() leaves the queue as it was. */
  lemma NoWorkersDrainNothing(t: TaskId)
    ensures exists states: seq<State>, actions: seq<Action> ::
              IsRun(states, actions) && Joined(states[|actions|]) && t in states[|actions|].queue
  {
    var states, actions := NoWorkersRun(t);
  }

  lemma {:induction false} WorkersStay(states: seq<State>, actions: seq<Action>, i: nat)
    requires IsRun(states, actions) && i < |states|
    ensures |states[i].workers| == |states[0].workers|
  {
    if i > 0 {
      WorkersStay(states, actions, i - 1);
      assert StepOfRun(states, actions, i - 1);
    }
  }

  /** Every run with n workers, in whatever interleaving, has an empty queue once they are joined. */
  ghost predicate AlwaysDrains(n: nat) {
    forall states: seq<State>, actions: seq<Action> ::
      IsRun(states, actions) && |states[0].workers| == n && Joined(states[|actions|]) ==>
        states[|actions|].queue == multiset{}
  }

  /** Exactly which pools are sure to drain: those with a worker. */
  lemma AlwaysDrainsIff(n: nat)
    ensures AlwaysDrains(n) <==> n > 0
  {
    if n == 0 {
      var t: TaskId :| true;
      var states, actions := NoWorkersRun(t);
      assert states[|actions|].queue != multiset{};
    } else {
      forall states: seq<State>, actions: seq<Action>
          | IsRun(states, actions) && |states[0].workers| == n && Joined(states[|actions|])
        ensures states[|actions|].queue == multiset{}
      {
        WorkersStay(states, actions, |actions|);
        StopDrains(states, actions);
      }
    }
  }

  // ----- What a task's status comes from -----

  /** The worker w is past its check with the task t: it will run t, or has run it. */
  predicate Past(s: State, w: nat, t: TaskId) {
    w < |s.workers| && var pc := s.workers[w];
    (pc.Entering? || pc.Starting? || pc.Handling? || pc.Finishing?) && pc.task == t
  }

  /** Step i writes the status of t: the first submission, a start, a finish, or a cancellation in time. */
  predicate Writes(s: State, a: Action, t: TaskId) {
    match a
    case Submit(u) => u == t && !s.closed && t !in s.status
    case Cancel(u) => u == t && t in s.status && !Terminal(s.status[t])
    case Start(w) => w < |s.workers| && s.workers[w] == Starting(t)
    case Finish(w) => w < |s.workers| && s.workers[w].Finishing? && s.workers[w].task == t
    case _ => false
  }

  /** What the handler that worker w called last returned, among the first k steps. */
  function LastVerdict(actions: seq<Action>, k: nat, w: nat): Option<bool>
    requires k <= |actions|
  {
    if k == 0 then None
    else if actions[k - 1].Handle? && actions[k - 1].w == w then Some(actions[k - 1].ok)
    else LastVerdict(actions, k - 1, w)
  }

  /** The status that step i of a run gives to the task it writes, read off the actions alone. */
  function Written(actions: seq<Action>, i: nat): Option<Status>
    requires i < |actions|
  {
    match actions[i]
    case Submit(_) => Some(Pending)
    case Cancel(_) => Some(Cancelled)
    case Start(_) => Some(Running)
    case Finish(w) => if LastVerdict(actions, i, w) == Some(true) then Some(Completed) else Some(Failed)
    case _ => None
  }

  /** The status of t is what the last of the first k steps that wrote it gave it, if there was one. */
  function StatusAfter(states: seq<State>, actions: seq<Action>, k: nat, t: TaskId): Option<Status>
    requires k <= |actions| < |states|
  {
    if k == 0 then None
    else if Writes(states[k - 1], actions[k - 1], t) then Written(actions, k - 1)
    else StatusAfter(states, actions, k - 1, t)
  }

  function StatusOf(s: State, t: TaskId): Option<Status> {
    if t in s.status then Some(s.status[t]) else None
  }

  /** A worker about to record an outcome carries what its handler returned last. */
  lemma {:induction false} CarriesVerdict(states: seq<State>, actions: seq<Action>, k: nat, w: nat)
    requires IsRun(states, actions) && k <= |actions| && w < |states[k].workers| && states[k].workers[w].Finishing?
    ensures LastVerdict(actions, k, w) == Some(states[k].workers[w].ok)
  {
    if k > 0 {
      assert StepOfRun(states, actions, k - 1);
      if !(actions[k - 1].Handle? && actions[k - 1].w == w) {
        OnlyHandleFinishes(states[k - 1], actions[k - 1], w);
        CarriesVerdict(states, actions, k - 1, w);
      }
    }
  }

  lemma OnlyHandleFinishes(s: State, a: Action, w: nat)
    requires Enabled(s, a) && w < |Apply(s, a).workers| && Apply(s, a).workers[w].Finishing?
    requires !(a.Handle? && a.w == w)
    ensures w < |s.workers| && s.workers[w] == Apply(s, a).workers[w]
  {
  }

  lemma StepWrites(s: State, a: Action, t: TaskId, verdict: Option<bool>)
    requires Enabled(s, a) && (a.Finish? ==> verdict == Some(s.workers[a.w].ok))
    ensures StatusOf(Apply(s, a), t) ==
            if !Writes(s, a, t) then StatusOf(s, t)
            else if a.Submit? then Some(Pending)
            else if a.Cancel? then Some(Cancelled)
            else if a.Start? then Some(Running)
            else if verdict == Some(true) then Some(Completed)
            else Some(Failed)
  {
  }

  /** In every run, the status of every task is what the last step that wrote it gave it. */
  lemma {:induction false} StatusIsLastWritten(states: seq<State>, actions: seq<Action>, k: nat, t: TaskId)
    requires IsRun(states, actions) && k <= |actions|
    ensures StatusOf(states[k], t) == StatusAfter(states, actions, k, t)
  {
    if k > 0 {
      var a := actions[k - 1];
      StatusIsLastWritten(states, actions, k - 1, t);
      assert StepOfRun(states, actions, k - 1);
      if a.Finish? {
        CarriesVerdict(states, actions, k - 1, a.w);
      }
      StepWrites(states[k - 1], a, t, if a.Finish? then LastVerdict(actions, k - 1, a.w) else None);
    }
  }

  /** The last of the first k steps that wrote the status of t. */
  function LastWrite(states: seq<State>, actions: seq<Action>, k: nat, t: TaskId): (i: Option<nat>)
    requires k <= |actions| < |states|
    ensures i.Some? ==> i.value < k && Writes(states[i.value], actions[i.value], t)
    ensures StatusAfter(states, actions, k, t) == if i.Some? then Written(actions, i.value) else None
  {
    if k == 0 then None
    else if Writes(states[k - 1], actions[k - 1], t) then Some(k - 1)
    else LastWrite(states, actions, k - 1, t)
  }

  /** The end of a task that nobody cancelled: what the handler returned to the worker that recorded last. */
  ghost predicate EndsAsHandled(states: seq<State>, actions: seq<Action>, t: TaskId)
    requires |states| == |actions| + 1
  {
    var i, status := LastWrite(states, actions, |actions|, t), StatusOf(states[|actions|], t);
    i.Some? && actions[i.value].Finish? &&
    var verdict := LastVerdict(actions, i.value, actions[i.value].w);
    verdict.Some? && status == Some(if verdict.value then Completed else Failed)
  }

  /** After stop(), every accepted task that was neither withdrawn nor cancelled ends as its handler said. */
  lemma UncancelledEndsAsHandled(states: seq<State>, actions: seq<Action>, t: TaskId)
    requires IsRun(states, actions)
    requires var s := states[|actions|];
      Joined(s) && |s.workers| > 0 && s.hasHandler && t in s.accepted && t !in s.withdrawn
    requires Cancel(t) !in actions
    ensures EndsAsHandled(states, actions, t)
  {
    StopDrains(states, actions);
    StatusIsLastWritten(states, actions, |actions|, t);
    var i := LastWrite(states, actions, |actions|, t).value;
    assert actions[i] in actions;
    if actions[i].Finish? {
      assert StepOfRun(states, actions, i);
      CarriesVerdict(states, actions, i, actions[i].w);
    }
  }

  /** A worker that carries an outcome for t got it from handling t. */
  lemma {:induction false} VerdictIsAbout(states: seq<State>, actions: seq<Action>, k: nat, w: nat) returns (j: nat)
    requires IsRun(states, actions) && k <= |actions| && w < |states[k].workers| && states[k].workers[w].Finishing?
    ensures j < k && w < |states[j].workers| && states[j].workers[w] == Handling(states[k].workers[w].task)
    ensures actions[j] == Handle(w, states[k].workers[w].ok)
  {
    assert k > 0 ==> StepOfRun(states, actions, k - 1);
    if actions[k - 1].Handle? && actions[k - 1].w == w {
      return k - 1;
    }
    OnlyHandleFinishes(states[k - 1], actions[k - 1], w);
    j := VerdictIsAbout(states, actions, k - 1, w);
  }

  predicate HandlesAt(states: seq<State>, actions: seq<Action>, j: nat, t: TaskId)
    requires |states| == |actions| + 1 && j < |actions|
  {
    actions[j].Handle? && actions[j].w < |states[j].workers| && states[j].workers[actions[j].w] == Handling(t)
  }

  /** A task that was handled once, and never cancelled, is Completed when that brought no error, and else Failed. */
  lemma HandledOnceDecides(states: seq<State>, actions: seq<Action>, t: TaskId, j: nat)
    requires IsRun(states, actions)
    requires var s := states[|actions|];
      Joined(s) && |s.workers| > 0 && s.hasHandler && t in s.accepted && t !in s.withdrawn
    requires Cancel(t) !in actions
    requires j < |actions| && HandlesAt(states, actions, j, t)
    requires forall k :: 0 <= k < |actions| && HandlesAt(states, actions, k, t) ==> k == j
    ensures StatusOf(states[|actions|], t) == Some(if actions[j].ok then Completed else Failed)
  {
    UncancelledEndsAsHandled(states, actions, t);
    var i := LastWrite(states, actions, |actions|, t).value;
    assert StepOfRun(states, actions, i);
    CarriesVerdict(states, actions, i, actions[i].w);
    var k := VerdictIsAbout(states, actions, i, actions[i].w);
    assert HandlesAt(states, actions, k, t);
  }

  lemma OneMoreStep(states: seq<State>, actions: seq<Action>, a: Action) returns (longer: seq<State>, more: seq<Action>)
    requires IsRun(states, actions) && Enabled(states[|actions|], a)
    ensures IsRun(longer, more) && longer[0] == states[0]
    ensures longer[|more|] == Apply(states[|actions|], a)
  {
    longer, more := states + [Apply(states[|actions|], a)], actions + [a];
    forall i | 0 <= i < |more|
      ensures StepOfRun(longer, more, i)
    {
      assert i < |actions| ==> StepOfRun(states, actions, i);
    }
  }

  /** A worker pops a task and starts to handle it. */
  lemma TakesOn(states: seq<State>, actions: seq<Action>, w: nat, t: TaskId)
    returns (longer: seq<State>, more: seq<Action>)
    requires IsRun(states, actions)
    requires var s := states[|actions|];
      && w < |s.workers| && s.workers[w].AtPop? && t in s.queue && t in s.status && !s.status[t].Cancelled?
      && s.hasHandler
    ensures IsRun(longer, more) && longer[0] == states[0]
    ensures var s, s' := states[|actions|], longer[|more|];
      && s'.workers == s.workers[w := Handling(t)] && s'.queue == s.queue - multiset{t}
      && s'.status == s.status[t := Running] && s'.hasHandler
  {
    longer, more := OneMoreStep(states, actions, Pop(w, t));
    longer, more := OneMoreStep(longer, more, Check(w));
    longer, more := OneMoreStep(longer, more, Enter(w));
    longer, more := OneMoreStep(longer, more, Start(w));
  }

  /** A task that was submitted twice can be handled by two workers at a time. */
  lemma TwoHandleOneTask(s: State, t: TaskId) returns (states: seq<State>, actions: seq<Action>)
    requires Init(s) && |s.workers| >= 2 && s.hasHandler
    ensures IsRun(states, actions) && states[0] == s
    ensures var s' := states[|actions|];
      t in s'.status && |s'.workers| == |s.workers| && s'.workers[0] == Handling(t) == s'.workers[1]
  {
    states, actions := [s], [];
    states, actions := OneMoreStep(states, actions, Submit(t));
    states, actions := OneMoreStep(states, actions, Submit(t));
    states, actions := TakesOn(states, actions, 0, t);
    states, actions := TakesOn(states, actions, 1, t);
  }

  /** Then the one that records its verdict last decides, whoever came first, and whatever the verdicts. */
  lemma LastToRecordDecides(s: State, v: nat, w: nat, t: TaskId, a: bool, b: bool)
    returns (states: seq<State>, actions: seq<Action>)
    requires v < |s.workers| && w < |s.workers| && v != w
    requires s.workers[v] == Handling(t) == s.workers[w] && t in s.status
    ensures IsPath(states, actions) && states[0] == s
    ensures actions == [Handle(v, a), Handle(w, b), Finish(w), Finish(v)]
    ensures StatusOf(states[4], t) == Some(if a then Completed else Failed)
  {
    actions := [Handle(v, a), Handle(w, b), Finish(w), Finish(v)];
    var s1 := Apply(s, actions[0]);
    var s2 := Apply(s1, actions[1]);
    var s3 := Apply(s2, actions[2]);
    var s4 := Apply(s3, actions[3]);
    states := [s, s1, s2, s3, s4];
    assert StepOfRun(states, actions, 0) && StepOfRun(states, actions, 1);
    assert StepOfRun(states, actions, 2) && StepOfRun(states, actions, 3);
  }

  // ----- Cancelled tasks -----

  /** A worker that reads Cancelled goes back for another task. */
  lemma CancelledIsSkipped(s: State, w: nat)
    requires Enabled(s, Check(w)) && s.status[s.workers[w].task].Cancelled?
    ensures Apply(s, Check(w)) == s.(workers := s.workers[w := AtPop])
  {
  }

  /** A worker that stands at pop handles nothing before it pops again. */
  lemma {:induction false} HandleNeedsPop(states: seq<State>, actions: seq<Action>, i: nat, j: nat, w: nat)
    returns (p: nat)
    requires IsPath(states, actions) && i <= j < |actions| && w < |states[i].workers| && states[i].workers[w].AtPop?
    requires w < |states[j].workers| && !states[j].workers[w].AtPop? && !states[j].workers[w].Exited?
    ensures i <= p < j && actions[p].Pop? && actions[p].w == w
  {
    assert StepOfRun(states, actions, j - 1);
    OnlyPopLeavesPop(states[j - 1], actions[j - 1], w);
    if states[j - 1].workers[w].AtPop? {
      return j - 1;
    }
    p := HandleNeedsPop(states, actions, i, j - 1, w);
  }

  lemma OnlyPopLeavesPop(s: State, a: Action, w: nat)
    requires Enabled(s, a) && w < |Apply(s, a).workers|
    requires !Apply(s, a).workers[w].AtPop? && !Apply(s, a).workers[w].Exited?
    ensures w < |s.workers| && !s.workers[w].Exited?
    ensures s.workers[w].AtPop? ==> a.Pop? && a.w == w
  {
  }

  /** A worker that reads any other status takes the task on, unless there is no handler. */
  lemma {:induction false} ReadIsHandled(states: seq<State>, actions: seq<Action>, c: nat, j: nat, t: TaskId)
    returns (h: nat)
    requires IsPath(states, actions) && c < j <= |actions| && actions[c].Check?
    requires var w := actions[c].w;
      && w < |states[c].workers| && states[c].workers[w] == Checking(t) && states[c].hasHandler
      && StatusOf(states[c], t) != Some(Cancelled)
      && w < |states[j].workers| && !Underway(states[j].workers[w], t)
    ensures c < h < j && HandlesAt(states, actions, h, t) && actions[h].w == actions[c].w
  {
    var w := actions[c].w;
    h := j - 1;
    assert StepOfRun(states, actions, h);
    OtherWorkersStay(states[h], actions[h], w);
    if h == c {
      CheckGoesOn(states[c], w, t);
    } else if Underway(states[h].workers[w], t) {
      StaysUnderway(states[h], actions[h], w, t);
    } else {
      h := ReadIsHandled(states, actions, c, h, t);
    }
  }

  lemma CheckGoesOn(s: State, w: nat, t: TaskId)
    requires Enabled(s, Check(w)) && s.workers[w] == Checking(t) && s.hasHandler && !s.status[t].Cancelled?
    ensures Apply(s, Check(w)).workers[w] == Entering(t)
  {
  }

  predicate Underway(pc: Worker, t: TaskId) {
    pc == Entering(t) || pc == Starting(t) || pc == Handling(t)
  }

  lemma StaysUnderway(s: State, a: Action, w: nat, t: TaskId)
    requires Enabled(s, a) && w < |s.workers| && Underway(s.workers[w], t)
    ensures |Apply(s, a).workers| == |s.workers|
    ensures !Underway(Apply(s, a).workers[w], t) ==> a.Handle? && a.w == w && s.workers[w] == Handling(t)
  {
  }

  ghost predicate NobodyPast(s: State, t: TaskId) {
    forall w: nat :: !Past(s, w, t)
  }

  ghost predicate IsCancelled(s: State, t: TaskId) {
    StatusOf(s, t) == Some(Cancelled)
  }

  lemma StaysCancelledStep(s: State, a: Action, t: TaskId)
    requires IsCancelled(s, t) && NobodyPast(s, t) && Enabled(s, a)
    ensures IsCancelled(Apply(s, a), t) && NobodyPast(Apply(s, a), t)
    ensures a.Handle? ==> s.workers[a.w].task != t
  {
    if IsWorkerAction(a) {
      assert !Past(s, a.w, t);
      OwnStepStaysBack(s, a, t);
    }
    forall w: nat
      ensures !Past(Apply(s, a), w, t)
    {
      assert !Past(s, w, t);
      OtherWorkersStay(s, a, w);
    }
  }

  lemma OtherWorkersStay(s: State, a: Action, w: nat)
    requires Enabled(s, a)
    ensures |Apply(s, a).workers| == |s.workers|
    ensures w < |s.workers| && !(IsWorkerAction(a) && a.w == w) ==> Apply(s, a).workers[w] == s.workers[w]
  {
  }

  lemma OwnStepStaysBack(s: State, a: Action, t: TaskId)
    requires Enabled(s, a) && IsWorkerAction(a) && IsCancelled(s, t) && !Past(s, a.w, t)
    ensures !Past(Apply(s, a), a.w, t) && IsCancelled(Apply(s, a), t)
  {
  }

  /** From now on t stays cancelled, and no worker runs it. */
  ghost predicate Holds(states: seq<State>, actions: seq<Action>, t: TaskId)
    requires IsPath(states, actions)
  {
    && (forall k :: 0 <= k <= |actions| ==> IsCancelled(states[k], t))
    && (forall k :: 0 <= k < |actions| ==> !HandlesAt(states, actions, k, t))
  }

  ghost predicate CancelHolds(s: State, t: TaskId) {
    forall states: seq<State>, actions: seq<Action> ::
      IsPath(states, actions) && states[0] == s ==> Holds(states, actions, t)
  }

  lemma {:induction false} StaysCancelled(states: seq<State>, actions: seq<Action>, t: TaskId, k: nat)
    requires IsPath(states, actions) && k <= |actions| && IsCancelled(states[0], t) && NobodyPast(states[0], t)
    ensures IsCancelled(states[k], t) && NobodyPast(states[k], t)
    ensures k < |actions| ==> !HandlesAt(states, actions, k, t)
  {
    if k > 0 {
      StaysCancelled(states, actions, t, k - 1);
      assert StepOfRun(states, actions, k - 1);
      StaysCancelledStep(states[k - 1], actions[k - 1], t);
    }
    if k < |actions| {
      assert actions[k].Handle? ==> !Past(states[k], actions[k].w, t);
    }
  }

  /** A worker past its check overwrites the cancellation within two steps. */
  lemma PastOverwrites(s: State, w: nat, t: TaskId)
    requires IsCancelled(s, t) && Past(s, w, t)
    ensures !CancelHolds(s, t)
  {
    var a := match s.workers[w] case Entering(_) => Enter(w) case Starting(_) => Start(w)
             case Handling(_) => Handle(w, true) case _ => Finish(w);
    var s1 := Apply(s, a);
    assert StepOfRun([s, s1], [a], 0);
    if a.Enter? || a.Handle? {
      var b := if a.Enter? then Start(w) else Finish(w);
      var s2 := Apply(s1, b);
      assert StepOfRun([s, s1, s2], [a, b], 0) && StepOfRun([s, s1, s2], [a, b], 1);
      assert IsPath([s, s1, s2], [a, b]) && !IsCancelled([s, s1, s2][2], t);
    } else {
      assert IsPath([s, s1], [a]) && !IsCancelled([s, s1][1], t);
    }
  }

  /** Exactly when a cancellation is final, whatever happens next: no worker is past its check with the task. */
  lemma CancelHoldsIff(s: State, t: TaskId)
    requires IsCancelled(s, t)
    ensures CancelHolds(s, t) <==> NobodyPast(s, t)
  {
    if NobodyPast(s, t) {
      forall states: seq<State>, actions: seq<Action> | IsPath(states, actions) && states[0] == s
        ensures Holds(states, actions, t)
      {
        forall k | 0 <= k <= |actions|
          ensures IsCancelled(states[k], t) && (k < |actions| ==> !HandlesAt(states, actions, k, t))
        {
          StaysCancelled(states, actions, t, k);
        }
      }
    } else {
      var w: nat :| Past(s, w, t);
      PastOverwrites(s, w, t);
    }
  }

  // ----- After a close -----

  /** From a close on, nothing is taken in, and try_pop takes nothing out. */
  lemma {:induction false} CloseLasts(states: seq<State>, actions: seq<Action>, i: nat, j: nat)
    requires IsPath(states, actions) && i < j < |actions| && actions[i].Close?
    ensures states[j].closed && !actions[j].TryPop? && (actions[j].Submit? ==> states[j + 1] == states[j])
  {
    assert StepOfRun(states, actions, j) && StepOfRun(states, actions, j - 1);
    if j - 1 > i {
      CloseLasts(states, actions, i, j - 1);
    }
  }

  // ----- Tasks that were taken out -----

  /** Neither queued nor in a worker's hands. */
  ghost predicate IsOut(s: State, t: TaskId) {
    t !in s.queue && !Held(s, t)
  }

  lemma StaysOutStep(s: State, a: Action, t: TaskId)
    requires IsOut(s, t) && Enabled(s, a) && a != Submit(t)
    ensures IsOut(Apply(s, a), t)
    ensures a.Handle? ==> s.workers[a.w].task != t
  {
    if IsWorkerAction(a) {
      assert !Holding(s.workers[a.w], t);
      OwnStepStaysOut(s, a, t);
    }
    OutOfQueue(s, a, t);
    forall w | 0 <= w < |Apply(s, a).workers|
      ensures !Holding(Apply(s, a).workers[w], t)
    {
      OtherWorkersStay(s, a, w);
      assert !Holding(s.workers[w], t);
    }
  }

  lemma OwnStepStaysOut(s: State, a: Action, t: TaskId)
    requires Enabled(s, a) && IsWorkerAction(a) && t !in s.queue && !Holding(s.workers[a.w], t)
    ensures a.w < |Apply(s, a).workers| && !Holding(Apply(s, a).workers[a.w], t)
  {
  }

  lemma OutOfQueue(s: State, a: Action, t: TaskId)
    requires Enabled(s, a) && t !in s.queue && a != Submit(t)
    ensures t !in Apply(s, a).queue
  {
  }

  /** A task that is out is never run, unless it is submitted again. */
  lemma {:induction false} StaysOut(states: seq<State>, actions: seq<Action>, t: TaskId, k: nat)
    requires IsPath(states, actions) && k <= |actions| && IsOut(states[0], t) && Submit(t) !in actions
    ensures IsOut(states[k], t) && (k < |actions| ==> !HandlesAt(states, actions, k, t))
  {
    if k > 0 {
      StaysOut(states, actions, t, k - 1);
      assert StepOfRun(states, actions, k - 1);
      assert actions[k - 1] in actions;
      StaysOutStep(states[k - 1], actions[k - 1], t);
    }
    if k < |actions| && HandlesAt(states, actions, k, t) {
      assert Holding(states[k].workers[actions[k].w], t);
    }
  }

  /** Removing a task takes it out, unless a worker has it already. */
  lemma RemoveTakesOut(s: State, t: TaskId)
    requires !Held(s, t)
    ensures IsOut(Apply(s, Remove(t)), t)
  {
  }

  /** How often t was accepted among the first k steps. */
  function TimesAccepted(states: seq<State>, actions: seq<Action>, k: nat, t: TaskId): nat
    requires k <= |actions| < |states|
  {
    if k == 0 then 0
    else TimesAccepted(states, actions, k - 1, t)
         + if actions[k - 1] == Submit(t) && !states[k - 1].closed then 1 else 0
  }

  /** How often t left the queue: popped by a worker, handed out by try_pop, or removed. */
  function TimesTaken(states: seq<State>, actions: seq<Action>, k: nat, t: TaskId): nat
    requires k <= |actions| < |states|
  {
    if k == 0 then 0
    else TimesTaken(states, actions, k - 1, t)
         + match actions[k - 1]
           case Pop(_, u) => if u == t then 1 else 0
           case TryPop(u) => if u == t then 1 else 0
           case Remove(u) => if u == t then states[k - 1].queue[t] else 0
           case _ => 0
  }

  /** In every run, each time a task was accepted it is queued still or has left the queue once. */
  lemma {:induction false} AcceptedIsQueuedOrTaken(states: seq<State>, actions: seq<Action>, k: nat, t: TaskId)
    requires IsRun(states, actions) && k <= |actions|
    ensures TimesAccepted(states, actions, k, t) == states[k].queue[t] + TimesTaken(states, actions, k, t)
  {
    if k > 0 {
      AcceptedIsQueuedOrTaken(states, actions, k - 1, t);
      assert StepOfRun(states, actions, k - 1);
      QueueStep(states[k - 1], actions[k - 1], t);
    }
  }

  lemma QueueStep(s: State, a: Action, t: TaskId)
    requires Enabled(s, a)
    ensures Apply(s, a).queue[t] ==
            match a
            case Submit(u) => s.queue[t] + (if u == t && !s.closed then 1 else 0)
            case Remove(u) => if u == t then 0 else s.queue[t]
            case TryPop(u) => s.queue[t] - (if u == t then 1 else 0)
            case Pop(_, u) => s.queue[t] - (if u == t then 1 else 0)
            case _ => s.queue[t]
  {
  }

  // ----- stop() gets there -----

  function Rank(w: Worker): nat {
    match w
    case Exited => 0
    case AtPop => 1
    case Leaving => 2
    case Finishing(_, _) => 3
    case Handling(_) => 4
    case Starting(_) => 5
    case Entering(_) => 6
    case Checking(_) => 7
  }

  function TotalRank(ws: seq<Worker>): nat {
    if ws == [] then 0 else Rank(ws[0]) + TotalRank(ws[1..])
  }

  lemma {:induction false} RankAfterUpdate(ws: seq<Worker>, w: nat, pc: Worker)
    requires w < |ws|
    ensures TotalRank(ws[w := pc]) == TotalRank(ws) - Rank(ws[w]) + Rank(pc)
  {
    if w > 0 {
      RankAfterUpdate(ws[1..], w - 1, pc);
      assert ws[w := pc][1..] == ws[1..][w - 1 := pc];
    }
  }

  /** How many worker steps a closed pool can still make, at most. */
  function WorkLeft(s: State): nat {
    7 * |s.queue| + TotalRank(s.workers)
  }

  lemma WorkerStepConsumesWork(s: State, a: Action)
    requires Enabled(s, a) && IsWorkerAction(a)
    ensures WorkLeft(Apply(s, a)) < WorkLeft(s)
  {
    var s' := Apply(s, a);
    WorkerStepIsLocal(s, a);
    RankAfterUpdate(s.workers, a.w, s'.workers[a.w]);
    WorkerStepTakes(s, a);
  }

  lemma WorkerStepTakes(s: State, a: Action)
    requires Enabled(s, a) && IsWorkerAction(a)
    ensures |Apply(s, a).queue| == |s.queue| - if a.Pop? then 1 else 0
    ensures a.Pop? ==> Rank(Apply(s, a).workers[a.w]) == Rank(s.workers[a.w]) + 6
    ensures !a.Pop? ==> Rank(Apply(s, a).workers[a.w]) < Rank(s.workers[a.w])
  {
    if a.Pop? {
      assert s.queue == Apply(s, a).queue + multiset{a.task};
    }
  }

  lemma OutsideStepAddsNoWork(s: State, a: Action)
    requires Enabled(s, a) && !IsWorkerAction(a) && s.closed
    ensures Apply(s, a).closed && WorkLeft(Apply(s, a)) <= WorkLeft(s)
  {
    var s' := Apply(s, a);
    assert s'.queue <= s.queue;
    assert s.queue == s'.queue + (s.queue - s'.queue);
  }

  /** How many of the steps i..j are worker steps. */
  function WorkerSteps(actions: seq<Action>, i: nat, j: nat): nat
    requires i <= j <= |actions|
  {
    if i == j then 0 else WorkerSteps(actions, i, j - 1) + if IsWorkerAction(actions[j - 1]) then 1 else 0
  }

  lemma StepOfClosedRun(states: seq<State>, actions: seq<Action>, i: nat)
    requires IsRun(states, actions) && i < |actions| && states[i].closed
    ensures states[i + 1].closed
    ensures WorkLeft(states[i + 1]) + (if IsWorkerAction(actions[i]) then 1 else 0) <= WorkLeft(states[i])
  {
    assert StepOfRun(states, actions, i);
    if IsWorkerAction(actions[i]) {
      WorkerStepIsLocal(states[i], actions[i]);
      WorkerStepConsumesWork(states[i], actions[i]);
    } else {
      OutsideStepAddsNoWork(states[i], actions[i]);
    }
  }

  /** From the state i where the queue is closed, workers make at most WorkLeft more steps. */
  lemma {:induction false} ClosedRunIsShort(states: seq<State>, actions: seq<Action>, i: nat, j: nat)
    requires IsRun(states, actions) && i <= j <= |actions| && states[i].closed
    ensures states[j].closed
    ensures WorkLeft(states[j]) + WorkerSteps(actions, i, j) <= WorkLeft(states[i])
  {
    if i < j {
      ClosedRunIsShort(states, actions, i, j - 1);
      StepOfClosedRun(states, actions, j - 1);
    }
  }

  /** No deadlock: once closed, every worker that has not exited can take a step. */
  lemma ClosedPoolCanMove(s: State, w: nat)
    requires Inv(s) && s.closed && w < |s.workers| && !s.workers[w].Exited?
    ensures exists a :: IsWorkerAction(a) && Enabled(s, a) && a.w == w
  {
    match s.workers[w] {
      case AtPop =>
        if s.queue == multiset{} {
          assert Enabled(s, SeeClosed(w));
        } else {
          var t :| t in s.queue;
          assert Enabled(s, Pop(w, t));
        }
      case Checking(t) =>
        assert Holding(s.workers[w], t);
        assert Enabled(s, Check(w));
      case Entering(t) => assert Enabled(s, Enter(w));
      case Starting(t) => assert Enabled(s, Start(w));
      case Handling(t) => assert Enabled(s, Handle(w, true));
      case Finishing(t, ok) => assert Enabled(s, Finish(w));
      case Leaving => assert Enabled(s, Leave(w));
    }
  }
}
