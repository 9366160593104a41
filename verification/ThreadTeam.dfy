/** The `Team` object and its pool limit, proved against the functions of `TeamModel`. Workers and
    the log of what they were given are kept as plain fields, standing for the threads. */
module ThreadTeam {
  import opened Prelude
  import opened Workers
  import TeamModel

  datatype Statistics = Statistics(idleWorkerCount: nat, busyWorkerCount: int, backloggedWorkCount: nat)

  class Team {
    const limit: int
    const flag: Quit
    const coordinator: MemoryWorker<TeamModel.Errand>
    var idle: set<TeamModel.Worker>
    var busyCount: int
    var pending: seq<TeamModel.Task>
    var shouldQuitCoordinator: bool
    var toShrink: int

    // the workers, as seen from outside
    var created: nat
    var hands: map<TeamModel.Worker, nat>
    var quits: seq<TeamModel.Worker>
    var submitted: seq<TeamModel.Task>
    var dispatched: seq<TeamModel.Task>
    var finished: seq<nat>
    var raised: bool

    ghost predicate Valid() { flag != coordinator.flag }

    ghost function Model(): TeamModel.Team
      reads this, flag, coordinator, coordinator.flag
    {
      TeamModel.Team(limit, flag.isSet, coordinator.pending, coordinator.flag.isSet, idle, busyCount, pending,
                     shouldQuitCoordinator, toShrink, created, hands, quits, submitted, dispatched, finished, raised)
    }

    constructor (limit: int)
      ensures Valid() && Model() == TeamModel.Fresh(limit)
      ensures fresh(flag) && fresh(coordinator) && fresh(coordinator.flag)
    {
      this.limit := limit;
      flag := new Quit();
      coordinator := new MemoryWorker<TeamModel.Errand>();
      idle, busyCount, pending, shouldQuitCoordinator, toShrink := {}, 0, [], false, 0;
      created, hands, quits, submitted, dispatched, finished, raised := 0, map[], [], [], [], [], false;
    }

    method GetStatistics() returns (s: Statistics)
      ensures s == Statistics(|idle|, busyCount, |pending|)
    {
      s := Statistics(|idle|, busyCount, |pending|);
    }

    /** `limitedWorkerCreator`. */
    method CreateWorker() returns (worker: Option<TeamModel.Worker>)
      modifies this`created
      ensures if busyCount + |idle| >= limit then worker == None && created == old(created)
              else worker == Some(old(created)) && created == old(created) + 1
    {
      var stats := GetStatistics();
      if stats.busyWorkerCount + stats.idleWorkerCount >= limit {
        return None;
      }
      worker := Some(created);
      created := created + 1;
    }

    /** `worker.do(doWork)`. */
    method WorkerDo(worker: TeamModel.Worker, task: TeamModel.Task)
      modifies this`hands, this`dispatched, this`raised
      ensures hands == old(hands)[worker := |old(dispatched)|] && dispatched == old(dispatched) + [task]
      ensures raised == (old(raised) || worker in quits)
    {
      raised := raised || worker in quits;
      hands := hands[worker := |dispatched|];
      dispatched := dispatched + [task];
    }

    /** `worker.quit()`. */
    method WorkerQuit(worker: TeamModel.Worker)
      modifies this`quits, this`raised
      ensures quits == old(quits) + [worker] && raised == (old(raised) || worker in old(quits))
    {
      raised := raised || worker in quits;
      quits := quits + [worker];
    }

    // -------------------------------------------------------------- called from anywhere

    method Enqueue(e: TeamModel.Errand)
      requires Valid()
      modifies this`raised, coordinator
      ensures Model() == TeamModel.Ask(old(Model()), e)
    {
      var ok := coordinator.Do(e);
      raised := raised || !ok;
    }

    method Do(task: TeamModel.Task) returns (ok: bool)
      requires Valid()
      modifies this`raised, this`submitted, coordinator
      ensures ok == !old(flag.isSet) && Model() == TeamModel.Next(old(Model()), TeamModel.Do(task))
    {
      ok := flag.Check();
      if ok {
        submitted := submitted + [task];
        Enqueue(TeamModel.Coordinate(task));
      }
    }

    method Grow(n: int) returns (ok: bool)
      requires Valid()
      modifies this`raised, coordinator
      ensures ok == !old(flag.isSet) && Model() == TeamModel.Next(old(Model()), TeamModel.GrowCall(n))
    {
      ok := flag.Check();
      if ok {
        Enqueue(TeamModel.Grow(n));
      }
    }

    method Shrink(n: Option<int>) returns (ok: bool)
      requires Valid()
      modifies this`raised, coordinator
      ensures ok == !old(flag.isSet) && Model() == TeamModel.Next(old(Model()), TeamModel.ShrinkCall(n))
    {
      ok := flag.Check();
      if ok {
        Enqueue(TeamModel.Shrink(n));
      }
    }

    method Quit() returns (ok: bool)
      requires Valid()
      modifies this`raised, flag, coordinator
      ensures ok == !old(flag.isSet) && Model() == TeamModel.Next(old(Model()), TeamModel.QuitCall)
    {
      ok := flag.Set();
      if ok {
        Enqueue(TeamModel.StartFinishing);
      }
    }

    /** The end of `doWork` on a worker's thread, whether the task returned or raised. */
    method Finish(worker: TeamModel.Worker)
      requires Valid() && worker in hands
      modifies this`raised, this`hands, this`finished, coordinator
      ensures Model() == TeamModel.Next(old(Model()), TeamModel.Finish(worker))
    {
      finished := finished + [hands[worker]];
      hands := hands - {worker};
      Enqueue(TeamModel.IdleAndPending(worker));
    }

    // -------------------------------------------------------------- called by the coordinator

    /** `perform`: the coordinator's next errand. */
    method Perform(pick: TeamModel.Pick)
      requires Valid() && TeamModel.Picks(pick)
      modifies this, coordinator, coordinator.flag
      ensures Model() == TeamModel.Next(old(Model()), TeamModel.Perform(pick))
    {
      hide TeamModel.GrowBy, TeamModel.QuitIdlers, TeamModel.CoordinateTask, TeamModel.RecycleWorker;
      var work := coordinator.Take();
      if work.Some? {
        RunErrand(work.value, pick);
      }
    }

    method RunErrand(e: TeamModel.Errand, pick: TeamModel.Pick)
      requires Valid() && TeamModel.Picks(pick)
      modifies this, coordinator, coordinator.flag
      ensures Model() == TeamModel.RunErrand(old(Model()), e, pick)
    {
      hide TeamModel.GrowBy, TeamModel.QuitIdlers, TeamModel.CoordinateTask, TeamModel.RecycleWorker;
      match e {
        case Grow(n) => CreateWorkers(n, pick);
        case Shrink(n) => QuitIdlers(n, pick);
        case Coordinate(task) => CoordinateThisTask(task, pick);
        case IdleAndPending(w) =>
          busyCount := busyCount - 1;
          RecycleWorker(w, pick);
        case StartFinishing =>
          shouldQuitCoordinator := true;
          QuitIdlers(None, pick);
      }
    }

    /** The errand of `grow`. */
    method CreateWorkers(n: int, pick: TeamModel.Pick)
      requires Valid() && TeamModel.Picks(pick)
      modifies this, coordinator, coordinator.flag
      ensures Model() == TeamModel.GrowBy(old(Model()), n, pick)
    {
      hide TeamModel.RecycleWorker;
      var x := 0;
      while x < n
        invariant TeamModel.GrowBy(Model(), n - x, pick) == TeamModel.GrowBy(old(Model()), n, pick)
      {
        ghost var t := Model();
        var worker := CreateWorker();
        if worker.None? {
          return;
        }
        assert Model() == t.(created := t.created + 1);
        RecycleWorker(worker.value, pick);
        assert TeamModel.GrowBy(t, n - x, pick) == TeamModel.GrowBy(Model(), n - x - 1, pick);
        x := x + 1;
      }
    }

    method QuitIdlers(count: Option<int>, pick: TeamModel.Pick)
      requires Valid() && TeamModel.Picks(pick)
      modifies this`idle, this`toShrink, this`quits, this`raised, coordinator, coordinator.flag
      ensures Model() == TeamModel.QuitIdlers(old(Model()), count, pick)
    {
      var n := if count.None? then |idle| + busyCount else count.value;
      var x := 0;
      while x < n
        invariant TeamModel.QuitUpTo(Model(), n - x, pick) == TeamModel.QuitUpTo(old(Model()), n, pick)
        invariant coordinator.pending == old(coordinator.pending)
        invariant coordinator.flag.isSet == old(coordinator.flag.isSet) && flag.isSet == old(flag.isSet)
      {
        if idle != {} {
          var worker := pick(idle);
          idle := idle - {worker};
          WorkerQuit(worker);
        } else {
          toShrink := toShrink + 1;
        }
        x := x + 1;
      }
      if shouldQuitCoordinator && busyCount == 0 {
        var ok := coordinator.Quit();
        raised := raised || !ok;
      }
    }

    method CoordinateThisTask(task: TeamModel.Task, pick: TeamModel.Pick)
      requires Valid() && TeamModel.Picks(pick)
      modifies this`idle, this`busyCount, this`pending, this`created, this`hands, this`dispatched, this`raised
      ensures Model() == TeamModel.CoordinateTask(old(Model()), task, pick)
    {
      var worker: Option<TeamModel.Worker>;
      if idle != {} {
        worker := Some(pick(idle));
        idle := idle - {worker.value};
      } else {
        worker := CreateWorker();
      }
      if worker.None? {
        pending := pending + [task];
        return;
      }
      busyCount := busyCount + 1;
      WorkerDo(worker.value, task);
    }

    method RecycleWorker(worker: TeamModel.Worker, pick: TeamModel.Pick)
      requires Valid() && TeamModel.Picks(pick)
      modifies this, coordinator, coordinator.flag
      ensures Model() == TeamModel.RecycleWorker(old(Model()), worker, pick)
    {
      idle := idle + {worker};
      if pending != [] {
        var task := pending[0];
        pending := pending[1..];
        CoordinateThisTask(task, pick);
      } else if shouldQuitCoordinator {
        QuitIdlers(None, pick);
      } else if toShrink > 0 {
        toShrink := toShrink - 1;
        idle := idle - {worker};
        WorkerQuit(worker);
      }
    }
  }
}
