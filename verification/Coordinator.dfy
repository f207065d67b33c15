/**
 Workers and teams (dxrk/coordinator.py). Clock readings are parameters; cancel
 callbacks and messages between agents are not modelled.

 The state of a worker is sound when a busy worker has a start time; every method of the
 worker and of the coordinator keeps that, which is why a shutdown cannot fail.
 */
module Coordinator {
  import opened Wrappers
  import opened Ordering

  datatype WorkerId = WorkerId(name: string)

  datatype TeamName = TeamName(name: string)

  datatype Status = Idle | Busy | Failed | Done

  datatype AgentResult = AgentResult(output: string, error: string, duration: int)

  datatype Error = NotStarted | TeamExists | NoMembers | TeamNotFound | NoIdleWorker

  const STOPPED := "stopped by coordinator"

  class Worker {
    const id: WorkerId
    var status: Status
    var task: string
    var result: Option<AgentResult>
    var startedAt: Option<int>
    var doneAt: Option<int>

    /** Holds in every reachable state: a worker at work has a start time. */
    ghost predicate Valid()
      reads this
    {
      status.Busy? ==> startedAt.Some?
    }

    constructor (id: WorkerId)
      ensures Valid() && this.id == id
      ensures status == Idle && task == "" && result == None && startedAt == None && doneAt == None
    {
      this.id := id;
      status, task, result, startedAt, doneAt := Idle, "", None, None, None;
    }

    method AssignTask(task: string, now: int)
      modifies this
      ensures Valid()
      ensures status == Busy && this.task == task && startedAt == Some(now)
      ensures result == old(result) && doneAt == old(doneAt)
    {
      status, this.task, startedAt := Busy, task, Some(now);
    }

    /** The state the worker is left in when its task ends at now. */
    twostate predicate Ended(outcome: Status, output: string, error: string, now: int)
      reads this
    {
      && status == outcome && task == old(task) && startedAt == old(startedAt) && doneAt == Some(now)
      && old(startedAt).Some?
      && result == Some(AgentResult(output, error, now - old(startedAt).value))
    }

    method Complete(output: string, now: int) returns (r: Result<(), Error>)
      requires Valid()
      modifies this
      ensures Valid()
      ensures r.Success? <==> old(startedAt).Some?
      ensures r.Success? ==> Ended(Done, output, "", now)
      ensures r.Failure? ==> r.error == NotStarted && unchanged(this)
    {
      if startedAt.None? {
        return Failure(NotStarted);
      }
      doneAt, status := Some(now), Done;
      result := Some(AgentResult(output, "", now - startedAt.value));
      return Success(());
    }

    method Fail(error: string, now: int) returns (r: Result<(), Error>)
      requires Valid()
      modifies this
      ensures Valid()
      ensures r.Success? <==> old(startedAt).Some?
      ensures r.Success? ==> Ended(Failed, "", error, now)
      ensures r.Failure? ==> r.error == NotStarted && unchanged(this)
    {
      if startedAt.None? {
        return Failure(NotStarted);
      }
      doneAt, status := Some(now), Failed;
      result := Some(AgentResult("", error, now - startedAt.value));
      return Success(());
    }

    method Reset()
      modifies this
      ensures Valid()
      ensures status == Idle && task == "" && result == None && startedAt == None && doneAt == None
    {
      status, task, result, startedAt, doneAt := Idle, "", None, None, None;
    }

    /** Never raises, because a busy worker has a start time. */
    method Stop(now: int) returns (r: Result<(), Error>)
      requires Valid()
      modifies this
      ensures Valid() && r.Success?
      ensures old(status).Busy? ==> Ended(Failed, "", "stopped by coordinator", now)
      ensures !old(status).Busy? ==> unchanged(this)
    {
      if status.Busy? {
        r := Fail(STOPPED, now);
      } else {
        r := Success(());
      }
    }
  }

  // ----- Teams -----

  ghost function Chosen(members: seq<Worker>, idle: set<Worker>): seq<Worker> {
    if members == [] then []
    else (if members[0] in idle then [members[0]] else []) + Chosen(members[1..], idle)
  }

  ghost function IdleSet(members: seq<Worker>): set<Worker>
    reads members
  {
    set w | w in members && w.status.Idle?
  }

  /** The idle members, in team order. */
  ghost function Idlers(members: seq<Worker>): seq<Worker>
    reads members
  {
    Chosen(members, IdleSet(members))
  }

  lemma {:induction false} NoneChosen(members: seq<Worker>, idle: set<Worker>)
    requires forall w :: w in members ==> w !in idle
    ensures Chosen(members, idle) == []
  {
    if members != [] {
      NoneChosen(members[1..], idle);
    }
  }

  lemma {:induction false} ChosenAgree(members: seq<Worker>, idle: set<Worker>, others: set<Worker>)
    requires forall w :: w in members ==> (w in idle <==> w in others)
    ensures Chosen(members, idle) == Chosen(members, others)
  {
    if members != [] {
      assert members[0] in members;
      ChosenAgree(members[1..], idle, others);
    }
  }

  /** Without the first idle member, exactly it is missing from the list of idlers. */
  lemma {:induction false} FirstLeaves(members: seq<Worker>, idle: set<Worker>, i: nat)
    requires i < |members| && Distinct(members) && members[i] in idle
    requires forall k :: 0 <= k < i ==> members[k] !in idle
    ensures Chosen(members, idle) == [members[i]] + Chosen(members, idle - {members[i]})
  {
    if i == 0 {
      ChosenAgree(members[1..], idle, idle - {members[0]});
    } else {
      FirstLeaves(members[1..], idle, i - 1);
    }
  }

  lemma OneMorePlaced(placed: seq<Worker>, w: Worker, idlers: seq<Worker>)
    ensures placed + ([w] + idlers) == (placed + [w]) + idlers
  {
  }

  class Coordinator {
    var teams: map<TeamName, seq<Worker>>
    /** Every worker the coordinator ever made. */
    ghost var workers: set<Worker>

    ghost predicate Valid()
      reads this, workers
    {
      && (forall w :: w in workers ==> w.Valid())
      && (forall n :: n in teams ==>
            teams[n] != [] && Distinct(teams[n]) && forall w :: w in teams[n] ==> w in workers)
    }

    constructor ()
      ensures Valid() && teams == map[] && workers == {}
    {
      teams, workers := map[], {};
    }

    method CreateTeam(name: TeamName, ids: seq<WorkerId>) returns (r: Result<seq<Worker>, Error>)
      requires Valid()
      modifies this
      ensures Valid() && fresh(workers - old(workers)) && old(workers) <= workers
      ensures r.Failure? <==> old(name in teams) || ids == []
      ensures r.Failure? ==> unchanged(this) && r.error == if name in teams then TeamExists else NoMembers
      ensures r.Success? ==>
                && teams == old(teams)[name := r.value] && |r.value| == |ids|
                && forall i :: 0 <= i < |ids| ==>
                     fresh(r.value[i]) && r.value[i].id == ids[i] && r.value[i].status == Idle
    {
      if name in teams {
        return Failure(TeamExists);
      }
      if ids == [] {
        return Failure(NoMembers);
      }
      var members := NewWorkers(ids);
      teams := teams[name := members];
      workers := workers + set w | w in members;
      return Success(members);
    }

    method NewWorkers(ids: seq<WorkerId>) returns (members: seq<Worker>)
      ensures |members| == |ids| && Distinct(members)
      ensures forall i :: 0 <= i < |ids| ==>
                fresh(members[i]) && members[i].Valid() && members[i].id == ids[i] && members[i].status == Idle
    {
      members := [];
      for i := 0 to |ids|
        invariant |members| == i && Distinct(members)
        invariant forall k :: 0 <= k < i ==>
                    fresh(members[k]) && members[k].Valid() && members[k].id == ids[k] && members[k].status == Idle
      {
        var w := new Worker(ids[i]);
        members := members + [w];
      }
    }

    /** The members end as done, with or without a task; all other workers stay as they are. */
    method DeleteTeam(name: TeamName) returns (r: Result<(), Error>)
      requires Valid()
      modifies this`teams, workers
      ensures Valid()
      ensures r.Success? <==> old(name in teams)
      ensures r.Failure? ==> r.error == TeamNotFound && teams == old(teams) && forall w :: w in workers ==> unchanged(w)
      ensures r.Success? ==>
                && teams == old(teams) - {name}
                && forall w :: w in workers ==> if w in old(teams)[name] then w.status == Done else unchanged(w)
    {
      if name !in teams {
        return Failure(TeamNotFound);
      }
      var members := teams[name];
      for i := 0 to |members|
        invariant teams == old(teams) && forall w :: w in workers ==> w.Valid()
        invariant forall k :: 0 <= k < i ==> members[k].status == Done
        invariant forall w :: w in workers && w !in members ==> unchanged(w)
      {
        members[i].status := Done;
      }
      teams := teams - {name};
      return Success(());
    }

    /** The task goes to the first idle member, which leaves the list of idlers; no other worker changes. */
    method DelegateWork(name: TeamName, task: string, now: int) returns (r: Result<Worker, Error>)
      requires Valid()
      modifies workers
      ensures Valid()
      ensures r.Failure? <==> name !in teams || old(Idlers(teams[name])) == []
      ensures r.Failure? ==> r.error == if name !in teams then TeamNotFound else NoIdleWorker
      ensures r.Failure? ==> forall w :: w in workers ==> unchanged(w)
      ensures r.Success? ==>
                && old(Idlers(teams[name])) == [r.value] + Idlers(teams[name])
                && r.value.status == Busy && r.value.task == task && r.value.startedAt == Some(now)
                && forall w :: w in workers && w != r.value ==> unchanged(w)
    {
      if name !in teams {
        return Failure(TeamNotFound);
      }
      var members := teams[name];
      var i := 0;
      while i < |members| && !members[i].status.Idle?
        invariant i <= |members| && forall k :: 0 <= k < i ==> !members[k].status.Idle?
      {
        i := i + 1;
      }
      if i == |members| {
        NoneChosen(members, IdleSet(members));
        return Failure(NoIdleWorker);
      }
      FirstLeaves(members, IdleSet(members), i);
      members[i].AssignTask(task, now);
      assert IdleSet(members) == old(IdleSet(members)) - {members[i]};
      return Success(members[i]);
    }

    /**
     Handing out tasks until one is refused: they go to the idle members in team order, one
     each, and exactly as many are placed as there were idle members.
     */
    method DelegateAll(name: TeamName, tasks: seq<string>, now: int) returns (placed: seq<Worker>)
      requires Valid()
      modifies workers
      ensures Valid()
      ensures name !in teams ==> placed == []
      ensures name in teams ==>
                && var idle := old(Idlers(teams[name]));
                && |placed| == (if |tasks| < |idle| then |tasks| else |idle|)
                && idle == placed + Idlers(teams[name])
    {
      placed := [];
      while |placed| < |tasks|
        invariant Valid() && |placed| <= |tasks|
        invariant name in teams ==> old(Idlers(teams[name])) == placed + Idlers(teams[name])
        invariant name !in teams ==> placed == []
      {
        var r := DelegateWork(name, tasks[|placed|], now);
        if r.Failure? {
          return;
        }
        OneMorePlaced(placed, r.value, Idlers(teams[name]));
        placed := placed + [r.value];
      }
    }

    /** The worker is as before, or was stopped while at work. */
    twostate predicate Settled(w: Worker, now: int)
      reads w
    {
      unchanged(w) || (old(w.status).Busy? && w.Ended(Failed, "", STOPPED, now))
    }

    /** A worker that stands twice in the list is stopped once. */
    method StopMembers(members: seq<Worker>, now: int)
      requires forall w :: w in members ==> w.Valid()
      modifies members
      ensures forall w :: w in members ==>
                w.Valid() && if old(w.status).Busy? then w.Ended(Failed, "", STOPPED, now) else unchanged(w)
    {
      for i := 0 to |members|
        invariant forall w :: w in members ==> w.Valid() && Settled(w, now)
        invariant forall k :: 0 <= k < i ==> !members[k].status.Busy?
      {
        var r := members[i].Stop(now);
        assert r.Success?;
      }
    }

    /** Visits the teams in any order; no stop raises, and no member of a team is left at work. */
    method Shutdown(now: int) returns (r: Result<(), Error>)
      requires Valid()
      modifies workers
      ensures Valid() && r.Success?
      ensures forall n, w :: n in teams && w in teams[n] ==>
                if old(w.status).Busy? then w.Ended(Failed, "", STOPPED, now) else unchanged(w)
      ensures forall n, w :: n in teams && w in teams[n] ==> !w.status.Busy?
    {
      var names := teams.Keys;
      while names != {}
        invariant names <= teams.Keys && teams == old(teams)
        invariant forall w :: w in workers ==> w.Valid() && Settled(w, now)
        invariant forall n, w :: n in teams && n !in names && w in teams[n] ==> !w.status.Busy?
        decreases |names|
      {
        var name :| name in names;
        names := names - {name};
        StopMembers(teams[name], now);
      }
      return Success(());
    }

  }
}
