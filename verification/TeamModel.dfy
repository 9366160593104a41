/** The bookkeeping of a `Team` as functions on values, and what it keeps over every run. */
module TeamModel {
  import opened Prelude
  import opened Workers

  type Worker = nat
  type Task = nat

  /** What the coordinator is asked to run. */
  datatype Errand =
    | Grow(n: int)
    | Shrink(count: Option<int>)
    | Coordinate(task: Task)
    | IdleAndPending(worker: Worker)
    | StartFinishing

  /** `set.pop` removes an arbitrary element: any choice function. */
  type Pick = set<Worker> -> Worker

  ghost predicate Picks(pick: Pick) { forall s: set<Worker> :: s != {} ==> pick(s) in s }

  datatype Team = Team(
    limit: int,                       // currentLimit()
    hasQuit: bool,                    // _quit.isSet
    queue: seq<Work<Errand>>,         // the coordinator's work
    coordinatorQuit: bool,
    idle: set<Worker>,
    busyCount: int,
    pending: seq<Task>,
    shouldQuitCoordinator: bool,
    toShrink: int,
    created: nat,                     // workers 0 .. created - 1
    hands: map<Worker, nat>,          // which dispatched task each worker has not finished
    quits: seq<Worker>,               // calls of worker.quit()
    submitted: seq<Task>,             // accepted by do
    dispatched: seq<Task>,            // given to a worker, in order
    finished: seq<nat>,               // positions in `dispatched`
    raised: bool)                     // AlreadyQuit came out of a worker or of the coordinator

  // ---------------------------------------------------------------- what the methods do

  /** `_coordinateThisTask`, with `limitedWorkerCreator` as `_createWorker`. */
  function CoordinateTask(t: Team, task: Task, pick: Pick): Team {
    if t.idle != {} then Give(t.(idle := t.idle - {pick(t.idle)}), pick(t.idle), task)
    else if t.busyCount + |t.idle| >= t.limit then t.(pending := t.pending + [task])
    else Give(t.(created := t.created + 1), t.created, task)
  }

  function Give(t: Team, worker: Worker, task: Task): Team {
    t.(busyCount := t.busyCount + 1,
       hands := t.hands[worker := |t.dispatched|],
       dispatched := t.dispatched + [task],
       raised := t.raised || worker in t.quits)
  }

  function QuitWorker(t: Team, worker: Worker): Team {
    t.(idle := t.idle - {worker}, quits := t.quits + [worker], raised := t.raised || worker in t.quits)
  }

  /** The loop of `_quitIdlers`. */
  function QuitUpTo(t: Team, n: int, pick: Pick): Team
    decreases n
  {
    if n <= 0 then t
    else if t.idle != {} then QuitUpTo(QuitWorker(t, pick(t.idle)), n - 1, pick)
    else QuitUpTo(t.(toShrink := t.toShrink + 1), n - 1, pick)
  }

  function QuitIdlers(t: Team, n: Option<int>, pick: Pick): Team {
    var t' := QuitUpTo(t, if n.None? then |t.idle| + t.busyCount else n.value, pick);
    if !t'.shouldQuitCoordinator || t'.busyCount != 0 then t'
    else if t'.coordinatorQuit then t'.(raised := true)
    else t'.(coordinatorQuit := true, queue := t'.queue + [NoMoreWork])
  }

  function RecycleWorker(t: Team, worker: Worker, pick: Pick): Team {
    var t' := t.(idle := t.idle + {worker});
    if t.pending != [] then CoordinateTask(t'.(pending := t.pending[1..]), t.pending[0], pick)
    else if t.shouldQuitCoordinator then QuitIdlers(t', None, pick)
    else if t.toShrink > 0 then QuitWorker(t'.(toShrink := t.toShrink - 1), worker)
    else t'
  }

  /** The loop of `grow`. */
  function GrowBy(t: Team, n: int, pick: Pick): Team
    decreases n
  {
    if n <= 0 || t.busyCount + |t.idle| >= t.limit then t
    else GrowBy(RecycleWorker(t.(created := t.created + 1), t.created, pick), n - 1, pick)
  }

  function RunErrand(t: Team, e: Errand, pick: Pick): Team {
    match e
    case Grow(n) => GrowBy(t, n, pick)
    case Shrink(n) => QuitIdlers(t, n, pick)
    case Coordinate(task) => CoordinateTask(t, task, pick)
    case IdleAndPending(w) => RecycleWorker(t.(busyCount := t.busyCount - 1), w, pick)
    case StartFinishing => QuitIdlers(t.(shouldQuitCoordinator := true), None, pick)
  }

  /** `coordinator.do`. */
  function Ask(t: Team, e: Errand): Team {
    if t.coordinatorQuit then t.(raised := true) else t.(queue := t.queue + [Job(e)])
  }

  datatype Event =
    | Do(task: Task) | GrowCall(n: int) | ShrinkCall(count: Option<int>) | QuitCall
    | Perform(pick: Pick)             // the coordinator runs its next errand
    | Finish(worker: Worker)          // a worker's task returned or raised

  ghost predicate Possible(t: Team, ev: Event) {
    match ev
    case Perform(pick) => Picks(pick)
    case Finish(w) => w in t.hands
    case _ => true
  }

  /** Public calls raise AlreadyQuit and change nothing once `quit` was called. */
  function Next(t: Team, ev: Event): Team {
    match ev
    case Do(task) => if t.hasQuit then t else Ask(t.(submitted := t.submitted + [task]), Coordinate(task))
    case GrowCall(n) => if t.hasQuit then t else Ask(t, Grow(n))
    case ShrinkCall(n) => if t.hasQuit then t else Ask(t, Shrink(n))
    case QuitCall => if t.hasQuit then t else Ask(t.(hasQuit := true), StartFinishing)
    case Perform(pick) =>
      if t.queue == [] || t.queue[0].NoMoreWork? then t
      else RunErrand(t.(queue := t.queue[1..]), t.queue[0].job, pick)
    case Finish(w) =>
      if w !in t.hands then t
      else Ask(t.(hands := t.hands - {w}, finished := t.finished + [t.hands[w]]), IdleAndPending(w))
  }

  function Fresh(limit: int): Team {
    Team(limit, false, [], false, {}, 0, [], false, 0, 0, map[], [], [], [], [], false)
  }

  // ---------------------------------------------------------------- what every run keeps

  /** The tasks still in the coordinator's queue, in order. */
  function Queued(queue: seq<Work<Errand>>): seq<Task> {
    if queue == [] then []
    else (if queue[0].Job? && queue[0].job.Coordinate? then [queue[0].job.task] else []) + Queued(queue[1..])
  }

  /** The workers whose completion is in the coordinator's queue. */
  function Returning(queue: seq<Work<Errand>>): seq<Worker> {
    if queue == [] then []
    else (if queue[0].Job? && queue[0].job.IdleAndPending? then [queue[0].job.worker] else []) + Returning(queue[1..])
  }

  ghost predicate NoDup<T>(s: seq<T>) { forall i, j :: 0 <= i < j < |s| ==> s[i] != s[j] }

  /** Every worker ever created is in exactly one of: idle, busy (on a task, or done with it and
      coming back through the coordinator's queue), quit; and it is quit once. */
  ghost predicate WorkerBooks(idle: set<Worker>, hands: map<Worker, nat>, returning: seq<Worker>, quits: seq<Worker>,
                              created: nat, busyCount: int)
  {
    && NoDup(returning) && NoDup(quits)
    && (forall w :: w in idle ==> w !in hands && w !in returning && w !in quits)
    && (forall w :: w in hands ==> w !in returning && w !in quits)
    && (forall w :: w in returning ==> w !in quits)
    && (forall w: Worker :: w < created <==> w in idle || w in hands || w in returning || w in quits)
    && busyCount == |hands| + |returning|
  }

  /** Every accepted task is in exactly one place, and the places are in submission order: the
      dispatched ones, then those in `waiting`; a dispatched one is either on exactly one worker
      or finished, once. */
  ghost predicate TaskBooks(submitted: seq<Task>, dispatched: seq<Task>, waiting: seq<Task>, finished: seq<nat>,
                            hands: map<Worker, nat>)
  {
    && submitted == dispatched + waiting
    && NoDup(finished)
    && (forall k: nat :: k < |dispatched| <==> k in finished || InHand(hands, k))
    && (forall w :: w in hands ==> hands[w] !in finished)
    && (forall w, w' :: w in hands && w' in hands && w != w' ==> hands[w] != hands[w'])
  }

  ghost predicate InHand(hands: map<Worker, nat>, k: nat) { exists w :: w in hands && hands[w] == k }

  ghost predicate WorkersAccounted(t: Team) {
    WorkerBooks(t.idle, t.hands, Returning(t.queue), t.quits, t.created, t.busyCount)
  }

  /** What waits: first `pending`, then the queue. */
  ghost predicate TasksAccounted(t: Team) {
    TaskBooks(t.submitted, t.dispatched, t.pending + Queued(t.queue), t.finished, t.hands)
  }

  /** Tasks wait only while every allowed worker is busy. */
  ghost predicate NoneStranded(t: Team) {
    && t.busyCount + |t.idle| <= t.limit
    && (t.pending != [] ==> t.idle == {} && t.busyCount == t.limit)
  }

  /** How quitting goes: calls before it, the request, completions, the end. */
  ghost predicate Quitting(t: Team) {
    && !t.raised && t.toShrink >= 0
    && (forall i :: 0 <= i < |t.queue| ==> (t.queue[i].NoMoreWork? <==> t.coordinatorQuit && i == |t.queue| - 1))
    && (t.hasQuit && !t.shouldQuitCoordinator ==> StartIsNext(t.queue))
    && (!t.hasQuit ==> !t.shouldQuitCoordinator && forall i :: 0 <= i < |t.queue| ==> t.queue[i] != Job(StartFinishing))
    && (t.shouldQuitCoordinator ==> t.hasQuit && t.idle == {} && OnlyReturning(t.queue))
    && (t.coordinatorQuit <==> t.shouldQuitCoordinator && t.busyCount == 0)
    && (t.coordinatorQuit ==> t.queue == [NoMoreWork])
  }

  ghost predicate OnlyReturning(queue: seq<Work<Errand>>) {
    forall i :: 0 <= i < |queue| ==> queue[i].NoMoreWork? || queue[i].job.IdleAndPending?
  }

  /** One `StartFinishing` in the queue, and only completions after it. */
  ghost predicate StartIsNext(queue: seq<Work<Errand>>) {
    exists k :: 0 <= k < |queue| && queue[k] == Job(StartFinishing) && OnlyReturning(queue[k + 1..])
                && forall i :: 0 <= i < k ==> queue[i] != Job(StartFinishing)
  }

  ghost predicate Inv(t: Team) {
    t.limit >= 1 && WorkersAccounted(t) && TasksAccounted(t) && NoneStranded(t) && Quitting(t)
  }

  lemma FreshInv(limit: int)
    requires limit >= 1
    ensures Inv(Fresh(limit))
  {
  }

  // ---------------------------------------------------------------- step by step

  lemma QueueAppend(x: seq<Work<Errand>>, y: seq<Work<Errand>>)
    ensures Queued(x + y) == Queued(x) + Queued(y) && Returning(x + y) == Returning(x) + Returning(y)
  {
    QueuedAppend(x, y);
    ReturningAppend(x, y);
  }

  lemma {:induction false} QueuedAppend(x: seq<Work<Errand>>, y: seq<Work<Errand>>)
    ensures Queued(x + y) == Queued(x) + Queued(y)
  {
    if x == [] {
      assert x + y == y;
    } else {
      assert (x + y)[0] == x[0] && (x + y)[1..] == x[1..] + y;
      QueuedAppend(x[1..], y);
    }
  }

  lemma {:induction false} ReturningAppend(x: seq<Work<Errand>>, y: seq<Work<Errand>>)
    ensures Returning(x + y) == Returning(x) + Returning(y)
  {
    if x == [] {
      assert x + y == y;
    } else {
      assert (x + y)[0] == x[0] && (x + y)[1..] == x[1..] + y;
      ReturningAppend(x[1..], y);
    }
  }

  lemma QueueOne(w: Work<Errand>)
    ensures Queued([w]) == (if w.Job? && w.job.Coordinate? then [w.job.task] else [])
    ensures Returning([w]) == (if w.Job? && w.job.IdleAndPending? then [w.job.worker] else [])
  {
    assert [w][1..] == [];
  }

  lemma NewWorkerBooks(idle: set<Worker>, hands: map<Worker, nat>, ret: seq<Worker>, quits: seq<Worker>,
        created: nat, busy: int)
    requires WorkerBooks(idle, hands, ret, quits, created, busy)
    ensures created !in idle && |idle + {created}| == |idle| + 1
    ensures WorkerBooks(idle + {created}, hands, ret, quits, created + 1, busy)
  {
  }

  lemma QuitBooks(idle: set<Worker>, hands: map<Worker, nat>, ret: seq<Worker>, quits: seq<Worker>,
        created: nat, busy: int, w: Worker)
    requires WorkerBooks(idle, hands, ret, quits, created, busy) && w in idle
    ensures w !in quits && WorkerBooks(idle - {w}, hands, ret, quits + [w], created, busy)
  {
  }

  lemma GiveBooks(idle: set<Worker>, hands: map<Worker, nat>, ret: seq<Worker>, quits: seq<Worker>,
        created: nat, busy: int, w: Worker, k: nat)
    requires WorkerBooks(idle, hands, ret, quits, created, busy) && w in idle
    ensures w !in quits && w !in hands && |idle - {w}| == |idle| - 1
    ensures WorkerBooks(idle - {w}, hands[w := k], ret, quits, created, busy + 1)
  {
    assert |hands[w := k]| == |hands| + 1;
  }

  lemma FinishBooks(idle: set<Worker>, hands: map<Worker, nat>, ret: seq<Worker>, quits: seq<Worker>,
        created: nat, busy: int, w: Worker)
    requires WorkerBooks(idle, hands, ret, quits, created, busy) && w in hands
    ensures busy > 0 && WorkerBooks(idle, hands - {w}, ret + [w], quits, created, busy)
  {
    assert (hands - {w}).Keys == hands.Keys - {w};
    assert |(hands - {w}).Keys| == |hands.Keys| - 1;
    assert |hands - {w}| == |(hands - {w}).Keys| && |hands| == |hands.Keys|;
  }

  lemma ReturnBooks(idle: set<Worker>, hands: map<Worker, nat>, ret: seq<Worker>, quits: seq<Worker>,
        created: nat, busy: int, w: Worker)
    requires WorkerBooks(idle, hands, [w] + ret, quits, created, busy)
    ensures w !in idle && |idle + {w}| == |idle| + 1
    ensures WorkerBooks(idle + {w}, hands, ret, quits, created, busy - 1)
  {
    var all := [w] + ret;
    assert all[0] == w && all[1..] == ret;
    assert w in all && forall v :: v in ret ==> v in all;
    assert forall v :: v in all ==> v == w || v in ret;
    forall i, j | 0 <= i < j < |ret|
      ensures ret[i] != ret[j]
    {
      assert all[i + 1] == ret[i] && all[j + 1] == ret[j];
    }
    assert w !in ret by {
      forall j | 0 <= j < |ret|
        ensures ret[j] != w
      {
        assert all[j + 1] == ret[j];
      }
    }
  }

  lemma NobodyBusy(idle: set<Worker>, hands: map<Worker, nat>, ret: seq<Worker>, quits: seq<Worker>,
        created: nat, busy: int)
    requires WorkerBooks(idle, hands, ret, quits, created, busy)
    ensures busy >= 0 && (busy == 0 ==> ret == [] && hands == map[])
  {
  }

  lemma GiveTask(submitted: seq<Task>, dispatched: seq<Task>, waiting: seq<Task>, finished: seq<nat>,
        hands: map<Worker, nat>, w: Worker, task: Task)
    requires TaskBooks(submitted, dispatched, [task] + waiting, finished, hands) && w !in hands
    ensures TaskBooks(submitted, dispatched + [task], waiting, finished, hands[w := |dispatched|])
  {
    var hands', n := hands[w := |dispatched|], |dispatched|;
    assert dispatched + ([task] + waiting) == dispatched + [task] + waiting;
    assert forall v :: v in hands ==> InHand(hands, hands[v]);
    forall k: nat
      ensures InHand(hands', k) <==> k == n || InHand(hands, k)
    {
      if k == n {
        assert hands'[w] == k;
      } else if InHand(hands, k) {
        var v :| v in hands && hands[v] == k;
        assert hands'[v] == k;
      }
    }
  }

  lemma FinishTask(submitted: seq<Task>, dispatched: seq<Task>, waiting: seq<Task>, finished: seq<nat>,
        hands: map<Worker, nat>, w: Worker)
    requires TaskBooks(submitted, dispatched, waiting, finished, hands) && w in hands
    ensures TaskBooks(submitted, dispatched, waiting, finished + [hands[w]], hands - {w})
  {
    var n := hands[w];
    assert InHand(hands, n);
    forall k: nat
      ensures InHand(hands, k) <==> k == n || InHand(hands - {w}, k)
    {
      if InHand(hands, k) && k != n {
        var v :| v in hands && hands[v] == k;
        assert (hands - {w})[v] == k;
      }
      if InHand(hands - {w}, k) {
        var v :| v in hands - {w} && (hands - {w})[v] == k;
        assert hands[v] == k;
      }
    }
  }

  // ---------------------------------------------------------------- the pieces of the errands

  /** A state in the middle of an errand, before the quitting flags are looked at. */
  ghost predicate Mid(t: Team) {
    t.limit >= 1 && WorkersAccounted(t) && TasksAccounted(t) && NoneStranded(t) && !t.raised && t.toShrink >= 0
  }

  /** The part of `Quitting` about the queue, while the coordinator lives. */
  ghost predicate QueueFits(t: Team) {
    && !t.coordinatorQuit
    && (forall i :: 0 <= i < |t.queue| ==> t.queue[i].Job?)
    && (t.hasQuit && !t.shouldQuitCoordinator ==> StartIsNext(t.queue))
    && (!t.hasQuit ==> !t.shouldQuitCoordinator && forall i :: 0 <= i < |t.queue| ==> t.queue[i] != Job(StartFinishing))
    && (t.shouldQuitCoordinator ==> t.hasQuit && OnlyReturning(t.queue))
  }

  lemma MidIsInv(t: Team)
    requires Mid(t) && QueueFits(t) && !t.shouldQuitCoordinator
    ensures Inv(t)
  {
  }

  /** Handing a task to an idle worker. */
  lemma GiveKeeps(t: Team, w: Worker, task: Task)
    requires WorkersAccounted(t) && w in t.idle
    requires TaskBooks(t.submitted, t.dispatched, [task] + (t.pending + Queued(t.queue)), t.finished, t.hands)
    ensures var t' := Give(t.(idle := t.idle - {w}), w, task);
            WorkersAccounted(t') && TasksAccounted(t') && t'.raised == t.raised && |t'.idle| == |t.idle| - 1
  {
    GiveBooks(t.idle, t.hands, Returning(t.queue), t.quits, t.created, t.busyCount, w, |t.dispatched|);
    GiveTask(t.submitted, t.dispatched, t.pending + Queued(t.queue), t.finished, t.hands, w, task);
  }

  lemma {:induction false} QuitUpToBooks(t: Team, n: int, pick: Pick)
    requires Picks(pick) && WorkersAccounted(t)
    ensures WorkersAccounted(QuitUpTo(t, n, pick)) && QuitUpTo(t, n, pick).raised == t.raised
    decreases n
  {
    hide WorkersAccounted, QuitWorker;
    if n > 0 {
      if t.idle != {} {
        QuitOneBooks(t, pick(t.idle));
        QuitUpToBooks(QuitWorker(t, pick(t.idle)), n - 1, pick);
      } else {
        OneMoreToShrink(t);
        QuitUpToBooks(t.(toShrink := t.toShrink + 1), n - 1, pick);
      }
    }
  }

  lemma QuitOneBooks(t: Team, w: Worker)
    requires WorkersAccounted(t) && w in t.idle
    ensures WorkersAccounted(QuitWorker(t, w)) && QuitWorker(t, w).raised == t.raised
  {
    QuitBooks(t.idle, t.hands, Returning(t.queue), t.quits, t.created, t.busyCount, w);
  }

  lemma OneMoreToShrink(t: Team)
    requires WorkersAccounted(t)
    ensures WorkersAccounted(t.(toShrink := t.toShrink + 1))
  {
  }

  lemma {:induction false} QuitUpToShape(t: Team, n: int, pick: Pick)
    requires Picks(pick)
    ensures var t' := QuitUpTo(t, n, pick);
            t'.idle <= t.idle && t'.toShrink >= t.toShrink && |t'.idle| <= |t.idle| && (n >= |t.idle| ==> t'.idle == {})
            && t' == t.(idle := t'.idle, quits := t'.quits, toShrink := t'.toShrink, raised := t'.raised)
    decreases n
  {
    if n > 0 {
      if t.idle != {} {
        QuitUpToShape(QuitWorker(t, pick(t.idle)), n - 1, pick);
      } else {
        QuitUpToShape(t.(toShrink := t.toShrink + 1), n - 1, pick);
      }
    }
  }

  lemma QuitUpToKeeps(t: Team, n: int, pick: Pick)
    requires Picks(pick) && WorkersAccounted(t)
    ensures Shrunk(t, QuitUpTo(t, n, pick)) && (n >= |t.idle| ==> QuitUpTo(t, n, pick).idle == {})
  {
    hide WorkerBooks;
    QuitUpToBooks(t, n, pick);
    QuitUpToShape(t, n, pick);
  }

  /** The idle set after shutting some idlers down, the rest of the books untouched. */
  ghost predicate Shrunk(t: Team, t': Team) {
    && WorkersAccounted(t') && t'.idle <= t.idle && t'.toShrink >= t.toShrink && |t'.idle| <= |t.idle|
    && t' == t.(idle := t'.idle, quits := t'.quits, toShrink := t'.toShrink)
  }

  lemma GrowOne(t: Team, pick: Pick)
    requires Mid(t) && !t.shouldQuitCoordinator && t.busyCount + |t.idle| < t.limit
    ensures var t1 := RecycleWorker(t.(created := t.created + 1), t.created, pick);
            Mid(t1) && t1 == t.(idle := t1.idle, quits := t1.quits, toShrink := t1.toShrink, created := t1.created)
  {
    hide WorkerBooks, TaskBooks;
    var w, ret := t.created, Returning(t.queue);
    NewWorkerBooks(t.idle, t.hands, ret, t.quits, t.created, t.busyCount);
    assert t.pending == [];
    if t.toShrink > 0 {
      QuitBooks(t.idle + {w}, t.hands, ret, t.quits, t.created + 1, t.busyCount, w);
      assert t.idle + {w} - {w} == t.idle;
    }
  }

  lemma {:induction false} GrowKeeps(t: Team, n: int, pick: Pick)
    requires Picks(pick) && Mid(t) && !t.shouldQuitCoordinator
    ensures var t' := GrowBy(t, n, pick);
            Mid(t') && t' == t.(idle := t'.idle, quits := t'.quits, toShrink := t'.toShrink, created := t'.created)
    decreases n
  {
    hide WorkersAccounted, TasksAccounted;
    if n > 0 && t.busyCount + |t.idle| < t.limit {
      GrowOne(t, pick);
      GrowKeeps(RecycleWorker(t.(created := t.created + 1), t.created, pick), n - 1, pick);
    }
  }

  /** `_coordinateThisTask` while the task is next in line: it is given to a worker, or it waits
      behind the others because every allowed worker is busy. */
  lemma CoordinateKeeps(t: Team, task: Task, pick: Pick)
    requires Picks(pick) && WorkersAccounted(t) && t.busyCount + |t.idle| <= t.limit
    requires t.idle == {} && t.busyCount == t.limit ==>
               TaskBooks(t.submitted, t.dispatched, t.pending + [task] + Queued(t.queue), t.finished, t.hands)
    requires !(t.idle == {} && t.busyCount == t.limit) ==>
               TaskBooks(t.submitted, t.dispatched, [task] + (t.pending + Queued(t.queue)), t.finished, t.hands)
    ensures var t' := CoordinateTask(t, task, pick);
            WorkersAccounted(t') && TasksAccounted(t')
            && t' == t.(idle := t'.idle, busyCount := t'.busyCount, pending := t'.pending, created := t'.created,
                        hands := t'.hands, dispatched := t'.dispatched)
            && (if t.idle != {}
                then t'.pending == t.pending && t'.busyCount == t.busyCount + 1 && |t'.idle| == |t.idle| - 1
                else if t.busyCount < t.limit
                then t'.pending == t.pending && t'.busyCount == t.busyCount + 1 && t'.idle == {}
                else t'.pending == t.pending + [task] && t'.busyCount == t.busyCount && t'.idle == {})
  {
    hide WorkerBooks, TaskBooks;
    if t.idle != {} {
      var w := pick(t.idle);
      assert w in t.idle;
      GiveKeeps(t, w, task);
    } else if t.busyCount < t.limit {
      var w := t.created;
      NewWorkerBooks(t.idle, t.hands, Returning(t.queue), t.quits, t.created, t.busyCount);
      var t1 := t.(created := t.created + 1, idle := t.idle + {w});
      GiveKeeps(t1, w, task);
      assert t1.(idle := t1.idle - {w}) == t.(created := t.created + 1);
    }
  }

  /** With the flag set, shutting the idlers down ends the team exactly when nobody is busy. */
  lemma LastOneOut(t: Team, pick: Pick)
    requires Picks(pick) && WorkersAccounted(t) && TasksAccounted(t) && QueueFits(t) && t.shouldQuitCoordinator
    requires t.limit >= 1 && t.busyCount + |t.idle| <= t.limit && !t.raised && t.toShrink >= 0
    requires t.pending != [] ==> t.busyCount == t.limit
    ensures Inv(QuitIdlers(t, None, pick))
  {
    hide WorkerBooks, TaskBooks;
    NobodyBusy(t.idle, t.hands, Returning(t.queue), t.quits, t.created, t.busyCount);
    QuitUpToKeeps(t, |t.idle| + t.busyCount, pick);
    if t.busyCount == 0 {
      NobodyReturns(t.queue);
      QueueOne(NoMoreWork);
      assert t.queue + [NoMoreWork] == [NoMoreWork];
    }
  }

  lemma {:induction false} NobodyReturns(queue: seq<Work<Errand>>)
    requires OnlyReturning(queue) && (forall i :: 0 <= i < |queue| ==> queue[i].Job?)
    ensures Returning(queue) == [] ==> queue == []
  {
    if queue != [] {
      assert queue[0].job.IdleAndPending?;
    }
  }

  // ---------------------------------------------------------------- the errands

  /** Taking an errand off the queue. */
  lemma TakeErrand(t: Team)
    requires Inv(t) && t.queue != [] && t.queue[0].Job?
    ensures var e, rest := t.queue[0].job, t.queue[1..];
            Queued(t.queue) == (if e.Coordinate? then [e.task] else []) + Queued(rest)
            && Returning(t.queue) == (if e.IdleAndPending? then [e.worker] else []) + Returning(rest)
            && (!e.IdleAndPending? && !e.StartFinishing? ==> !t.shouldQuitCoordinator)
            && (!e.StartFinishing? ==> QueueFits(t.(queue := rest)))
            && (e.StartFinishing? ==> t.hasQuit && !t.shouldQuitCoordinator && OnlyReturning(rest))
            && !t.coordinatorQuit && (forall i :: 0 <= i < |rest| ==> rest[i].Job?)
  {
    hide WorkerBooks, TaskBooks;
    var rest := t.queue[1..];
    if t.hasQuit && !t.shouldQuitCoordinator {
      var k :| 0 <= k < |t.queue| && t.queue[k] == Job(StartFinishing) && OnlyReturning(t.queue[k + 1..])
               && forall i :: 0 <= i < k ==> t.queue[i] != Job(StartFinishing);
      if !t.queue[0].job.StartFinishing? {
        assert rest[k - 1] == Job(StartFinishing) && rest[k - 1 + 1..] == t.queue[k + 1..];
      }
    }
  }

  lemma NothingTaken<T>(x: seq<T>)
    ensures [] + x == x
  {
  }

  lemma GrowErrand(t: Team, pick: Pick)
    requires Inv(t) && Picks(pick) && t.queue != [] && t.queue[0].Job? && t.queue[0].job.Grow?
    ensures Inv(RunErrand(t.(queue := t.queue[1..]), t.queue[0].job, pick))
  {
    hide WorkerBooks, TaskBooks;
    TakeErrand(t);
    var t0, n := t.(queue := t.queue[1..]), t.queue[0].job.n;
    NothingTaken(Queued(t0.queue));
    NothingTaken(Returning(t0.queue));
    GrowKeeps(t0, n, pick);
    MidIsInv(GrowBy(t0, n, pick));
  }

  lemma ShrinkErrand(t: Team, pick: Pick)
    requires Inv(t) && Picks(pick) && t.queue != [] && t.queue[0].Job? && t.queue[0].job.Shrink?
    ensures Inv(RunErrand(t.(queue := t.queue[1..]), t.queue[0].job, pick))
  {
    hide WorkerBooks, TaskBooks;
    TakeErrand(t);
    var t0, n := t.(queue := t.queue[1..]), t.queue[0].job.count;
    NothingTaken(Queued(t0.queue));
    NothingTaken(Returning(t0.queue));
    QuitUpToKeeps(t0, if n.None? then |t0.idle| + t0.busyCount else n.value, pick);
    MidIsInv(QuitIdlers(t0, n, pick));
  }

  lemma CoordinateErrand(t: Team, pick: Pick)
    requires Inv(t) && Picks(pick) && t.queue != [] && t.queue[0].Job? && t.queue[0].job.Coordinate?
    ensures Inv(RunErrand(t.(queue := t.queue[1..]), t.queue[0].job, pick))
  {
    hide WorkerBooks, TaskBooks, CoordinateTask, Queued, Returning;
    TakeErrand(t);
    var t0, task := t.(queue := t.queue[1..]), t.queue[0].job.task;
    NothingTaken(Returning(t0.queue));
    assert t.pending + ([task] + Queued(t0.queue)) == t.pending + [task] + Queued(t0.queue);
    if t.pending == [] {
      assert t.pending + [task] + Queued(t0.queue) == [task] + (t.pending + Queued(t0.queue));
    }
    CoordinateKeeps(t0, task, pick);
    MidIsInv(CoordinateTask(t0, task, pick));
  }

  lemma ReturnErrand(t: Team, pick: Pick)
    requires Inv(t) && Picks(pick) && t.queue != [] && t.queue[0].Job? && t.queue[0].job.IdleAndPending?
    ensures Inv(RunErrand(t.(queue := t.queue[1..]), t.queue[0].job, pick))
  {
    hide WorkerBooks, TaskBooks, CoordinateTask, QuitIdlers, Queued, Returning;
    TakeErrand(t);
    var w, ret := t.queue[0].job.worker, Returning(t.queue[1..]);
    NothingTaken(Queued(t.queue[1..]));
    ReturnBooks(t.idle, t.hands, ret, t.quits, t.created, t.busyCount, w);
    var t1 := t.(queue := t.queue[1..], busyCount := t.busyCount - 1, idle := t.idle + {w});
    if t.pending != [] {
      ReturnToPending(t, t1, pick);
    } else if t.shouldQuitCoordinator {
      LastOneOut(t1, pick);
    } else {
      if t.toShrink > 0 {
        QuitBooks(t1.idle, t.hands, ret, t.quits, t.created, t1.busyCount, w);
        assert t1.idle - {w} == t.idle;
      }
      MidIsInv(RunErrand(t.(queue := t.queue[1..]), t.queue[0].job, pick));
    }
  }

  /** A worker that comes back while tasks wait takes the oldest of them at once. */
  lemma ReturnToPending(t: Team, t1: Team, pick: Pick)
    requires Inv(t) && Picks(pick) && t.pending != [] && WorkersAccounted(t1) && QueueFits(t1) && TasksAccounted(t1)
    requires |t1.idle| == 1 && t1 == t.(queue := t1.queue, busyCount := t.busyCount - 1, idle := t1.idle)
    ensures Inv(CoordinateTask(t1.(pending := t.pending[1..]), t.pending[0], pick))
  {
    hide WorkerBooks, TaskBooks;
    var t2, task := t1.(pending := t.pending[1..]), t.pending[0];
    assert t1.pending + Queued(t1.queue) == [task] + (t2.pending + Queued(t2.queue));
    assert t1.idle != {};
    CoordinateKeeps(t2, task, pick);
  }

  lemma StartErrand(t: Team, pick: Pick)
    requires Inv(t) && Picks(pick) && t.queue != [] && t.queue[0].Job? && t.queue[0].job.StartFinishing?
    ensures Inv(RunErrand(t.(queue := t.queue[1..]), t.queue[0].job, pick))
  {
    hide WorkerBooks, TaskBooks;
    TakeErrand(t);
    var t1 := t.(queue := t.queue[1..], shouldQuitCoordinator := true);
    NothingTaken(Queued(t1.queue));
    NothingTaken(Returning(t1.queue));
    LastOneOut(t1, pick);
  }

  lemma PerformKeeps(t: Team, pick: Pick)
    requires Inv(t) && Picks(pick)
    ensures Inv(Next(t, Perform(pick)))
  {
    hide Inv;
    if t.queue != [] && t.queue[0].Job? {
      match t.queue[0].job
      case Grow(_) => GrowErrand(t, pick);
      case Shrink(_) => ShrinkErrand(t, pick);
      case Coordinate(_) => CoordinateErrand(t, pick);
      case IdleAndPending(_) => ReturnErrand(t, pick);
      case StartFinishing => StartErrand(t, pick);
    }
  }

  function ErrandOf(ev: Event): Errand
    requires !ev.Perform? && !ev.Finish?
  {
    match ev
    case Do(task) => Coordinate(task)
    case GrowCall(n) => Grow(n)
    case ShrinkCall(n) => Shrink(n)
    case QuitCall => StartFinishing
  }

  /** Putting one more errand into a queue that fits. */
  lemma QueueStillFits(t: Team, t': Team, e: Errand)
    requires QueueFits(t) && t'.queue == t.queue + [Job(e)] && !t'.coordinatorQuit
    requires t'.shouldQuitCoordinator == t.shouldQuitCoordinator
    requires if e.StartFinishing? then !t.hasQuit && t'.hasQuit else t'.hasQuit == t.hasQuit
    requires t.hasQuit ==> e.IdleAndPending?
    ensures QueueFits(t')
  {
    hide StartIsNext, OnlyReturning;
    if e.StartFinishing? {
      StartComesNext(t.queue);
    } else if t.hasQuit && !t.shouldQuitCoordinator {
      StartStaysNext(t.queue, e);
    } else if t.shouldQuitCoordinator {
      StillOnlyReturning(t.queue, e);
    }
  }

  lemma StillOnlyReturning(queue: seq<Work<Errand>>, e: Errand)
    requires OnlyReturning(queue) && e.IdleAndPending?
    ensures OnlyReturning(queue + [Job(e)])
  {
  }

  lemma StartComesNext(queue: seq<Work<Errand>>)
    requires forall i :: 0 <= i < |queue| ==> queue[i] != Job(StartFinishing)
    ensures StartIsNext(queue + [Job(StartFinishing)])
  {
    var q := queue + [Job(StartFinishing)];
    assert q[|queue|] == Job(StartFinishing) && q[|queue| + 1..] == [];
  }

  lemma StartStaysNext(queue: seq<Work<Errand>>, e: Errand)
    requires StartIsNext(queue) && e.IdleAndPending?
    ensures StartIsNext(queue + [Job(e)])
  {
    var k :| 0 <= k < |queue| && queue[k] == Job(StartFinishing) && OnlyReturning(queue[k + 1..])
             && forall i :: 0 <= i < k ==> queue[i] != Job(StartFinishing);
    var q := queue + [Job(e)];
    assert q[k + 1..] == queue[k + 1..] + [Job(e)];
    assert q[k] == Job(StartFinishing);
  }

  lemma AskedBooks(t: Team, e: Errand)
    ensures Queued(t.queue + [Job(e)]) == Queued(t.queue) + if e.Coordinate? then [e.task] else []
    ensures Returning(t.queue + [Job(e)]) == Returning(t.queue) + if e.IdleAndPending? then [e.worker] else []
  {
    QueueAppend(t.queue, [Job(e)]);
    QueueOne(Job(e));
  }

  lemma CallKeeps(t: Team, ev: Event)
    requires Inv(t) && !ev.Perform? && !ev.Finish?
    ensures Inv(Next(t, ev))
  {
    hide WorkerBooks, TaskBooks, QueueFits, StartIsNext, OnlyReturning;
    if !t.hasQuit {
      var e := ErrandOf(ev);
      var t' := Next(t, ev);
      AskedBooks(t, e);
      CallBooks(t, t', e);
      QueueFitsNow(t);
      QueueStillFits(t, t', e);
      MidIsInv(t');
    }
  }

  lemma QueueFitsNow(t: Team)
    requires Inv(t) && !t.coordinatorQuit
    ensures QueueFits(t)
  {
    hide WorkerBooks, TaskBooks;
  }

  lemma CallBooks(t: Team, t': Team, e: Errand)
    requires Inv(t) && !t.hasQuit && !e.IdleAndPending?
    requires Queued(t'.queue) == Queued(t.queue) + if e.Coordinate? then [e.task] else []
    requires Returning(t'.queue) == Returning(t.queue) + []
    requires t' == t.(queue := t'.queue, hasQuit := t'.hasQuit,
                      submitted := t.submitted + if e.Coordinate? then [e.task] else [])
    ensures Mid(t')
  {
    hide WorkerBooks;
    var more := if e.Coordinate? then [e.task] else [];
    assert Returning(t.queue) + [] == Returning(t.queue);
    assert t.dispatched + (t.pending + (Queued(t.queue) + more)) == t.dispatched + (t.pending + Queued(t.queue)) + more;
  }

  lemma FinishKeeps(t: Team, w: Worker)
    requires Inv(t)
    ensures Inv(Next(t, Finish(w)))
  {
    hide WorkerBooks, TaskBooks, QueueFits, StartIsNext;
    if w in t.hands {
      var t' := Next(t, Finish(w));
      FinishBooks(t.idle, t.hands, Returning(t.queue), t.quits, t.created, t.busyCount, w);
      FinishTask(t.submitted, t.dispatched, t.pending + Queued(t.queue), t.finished, t.hands, w);
      AskedBooks(t, IdleAndPending(w));
      assert Queued(t.queue) + [] == Queued(t.queue);
      QueueFitsNow(t);
      QueueStillFits(t, t', IdleAndPending(w));
      FitsIsQuitting(t');
    }
  }

  lemma FitsIsQuitting(t: Team)
    requires QueueFits(t) && !t.raised && t.toShrink >= 0
    requires t.shouldQuitCoordinator ==> t.idle == {} && t.busyCount != 0
    ensures Quitting(t)
  {
  }

  lemma NextKeeps(t: Team, ev: Event)
    requires Inv(t) && Possible(t, ev)
    ensures Inv(Next(t, ev))
  {
    hide Inv;
    match ev
    case Perform(pick) => PerformKeeps(t, pick);
    case Finish(w) => FinishKeeps(t, w);
    case _ => CallKeeps(t, ev);
  }

  // ---------------------------------------------------------------- every run

  ghost predicate AllPossible(t: Team, run: seq<Event>)
    decreases |run|
  {
    run == [] || (Possible(t, run[0]) && AllPossible(Next(t, run[0]), run[1..]))
  }

  function After(t: Team, run: seq<Event>): Team
    decreases |run|
  {
    if run == [] then t else After(Next(t, run[0]), run[1..])
  }

  lemma {:induction false} RunKeeps(t: Team, run: seq<Event>)
    requires Inv(t) && AllPossible(t, run)
    ensures Inv(After(t, run))
    decreases |run|
  {
    hide Inv;
    if run != [] {
      NextKeeps(t, run[0]);
      RunKeeps(Next(t, run[0]), run[1..]);
    }
  }

  /** The team's promises about tasks, in every reachable state: nothing is lost or done twice,
      dispatch is in submission order, nothing waits while a worker could take it, and the number
      of workers stays within the limit. */
  lemma TasksAreServedInOrder(limit: int, run: seq<Event>)
    requires limit >= 1 && AllPossible(Fresh(limit), run)
    ensures var t := After(Fresh(limit), run);
            TasksAccounted(t) && t.dispatched <= t.submitted
            && (t.pending != [] ==> t.idle == {} && t.busyCount >= 1)
            && t.busyCount + |t.idle| <= limit && !t.raised
  {
    FreshInv(limit);
    RunKeeps(Fresh(limit), run);
    LimitStays(Fresh(limit), run);
  }

  /** What a step of the coordinator has no part in. */
  ghost predicate SameCalls(t: Team, t': Team) {
    t'.limit == t.limit && t'.hasQuit == t.hasQuit && t'.submitted == t.submitted
  }

  lemma {:induction false} QuitUpToLimit(t: Team, n: int, pick: Pick)
    ensures SameCalls(t, QuitUpTo(t, n, pick))
    decreases n
  {
    if n > 0 {
      QuitUpToLimit(if t.idle != {} then QuitWorker(t, pick(t.idle)) else t.(toShrink := t.toShrink + 1), n - 1, pick);
    }
  }

  lemma RecycleLimit(t: Team, w: Worker, pick: Pick)
    ensures SameCalls(t, RecycleWorker(t, w, pick))
  {
    QuitUpToLimit(t.(idle := t.idle + {w}), |t.idle + {w}| + t.busyCount, pick);
  }

  lemma {:induction false} GrowLimit(t: Team, n: int, pick: Pick)
    ensures SameCalls(t, GrowBy(t, n, pick))
    decreases n
  {
    hide RecycleWorker;
    if n > 0 && t.busyCount + |t.idle| < t.limit {
      RecycleLimit(t.(created := t.created + 1), t.created, pick);
      GrowLimit(RecycleWorker(t.(created := t.created + 1), t.created, pick), n - 1, pick);
    }
  }

  lemma {:induction false} LimitStays(t: Team, run: seq<Event>)
    ensures After(t, run).limit == t.limit
    decreases |run|
  {
    hide Next;
    if run != [] {
      NextLimit(t, run[0]);
      LimitStays(Next(t, run[0]), run[1..]);
    }
  }

  lemma NextLimit(t: Team, e: Event)
    ensures Next(t, e).limit == t.limit && Next(t, e).hasQuit == (t.hasQuit || e.QuitCall?)
    ensures Next(t, e).submitted == t.submitted + if e.Do? && !t.hasQuit then [e.task] else []
  {
    hide GrowBy, QuitUpTo, RecycleWorker;
    if e.Perform? && t.queue != [] && t.queue[0].Job? {
      ErrandLimit(t.(queue := t.queue[1..]), t.queue[0].job, e.pick);
    }
  }

  lemma ErrandLimit(t: Team, errand: Errand, pick: Pick)
    ensures SameCalls(t, RunErrand(t, errand, pick))
  {
    match errand
    case Grow(n) => GrowLimit(t, n, pick);
    case Shrink(n) => QuitUpToLimit(t, if n.None? then |t.idle| + t.busyCount else n.value, pick);
    case Coordinate(_) =>
    case IdleAndPending(w) => RecycleLimit(t.(busyCount := t.busyCount - 1), w, pick);
    case StartFinishing => QuitUpToLimit(t.(shouldQuitCoordinator := true), |t.idle| + t.busyCount, pick);
  }

  /** No task waits or runs, no completion is on its way, every worker was quit, once. */
  ghost predicate Dissolved(t: Team) {
    && t.pending == [] && t.hands == map[] && t.queue == [NoMoreWork] && t.submitted == t.dispatched
    && NoDup(t.quits)
    && forall w: Worker :: w < t.created <==> w in t.quits
  }

  /** Graceful quitting, in every reachable state: the coordinator is quit exactly when quitting
      was started and the last busy worker is back; then no task waits or runs, no completion is
      on its way, and every worker ever created has been quit, once. Nothing ever raises
      AlreadyQuit: no worker is given a task, or quit again, after its quit, and the coordinator
      is not quit twice or used afterwards. */
  lemma QuittingIsGraceful(limit: int, run: seq<Event>)
    requires limit >= 1 && AllPossible(Fresh(limit), run)
    ensures var t := After(Fresh(limit), run);
            !t.raised && (t.coordinatorQuit <==> t.shouldQuitCoordinator && t.busyCount == 0)
            && (t.coordinatorQuit ==> Dissolved(t))
  {
    FreshInv(limit);
    RunKeeps(Fresh(limit), run);
    var t := After(Fresh(limit), run);
    NobodyBusy(t.idle, t.hands, Returning(t.queue), t.quits, t.created, t.busyCount);
    QueueOne(NoMoreWork);
    if t.coordinatorQuit {
      assert t.pending == [];
      assert t.dispatched + ([] + []) == t.dispatched;
    }
  }

  /** No worker, no work done, and every task accepted still waiting. */
  ghost predicate NothingRuns(t: Team) {
    && t.limit <= 0 && t.idle == {} && t.busyCount == 0 && t.hands == map[] && t.dispatched == []
    && t.submitted == t.pending + Queued(t.queue) && Returning(t.queue) == []
    && (t.hasQuit || (!t.shouldQuitCoordinator && !t.coordinatorQuit && Job(StartFinishing) !in t.queue))
  }

  lemma NothingRunsNext(t: Team, ev: Event)
    requires NothingRuns(t)
    ensures NothingRuns(Next(t, ev))
  {
    match ev {
      case Perform(pick) =>
        if t.queue != [] && t.queue[0].Job? {
          NothingPerformed(t, pick);
        }
      case Finish(_) =>
      case Do(task) =>
        if !t.hasQuit {
          NothingAsked(t, Coordinate(task));
          assert t.pending + Queued(t.queue) + [task] == t.pending + (Queued(t.queue) + [task]);
        }
      case GrowCall(n) => NothingAsked(t, Grow(n));
      case ShrinkCall(n) => NothingAsked(t, Shrink(n));
      case QuitCall => NothingAsked(t, StartFinishing);
    }
  }

  lemma NothingPerformed(t: Team, pick: Pick)
    requires NothingRuns(t) && t.queue != [] && t.queue[0].Job?
    ensures NothingRuns(RunErrand(t.(queue := t.queue[1..]), t.queue[0].job, pick))
  {
    var e, t0 := t.queue[0].job, t.(queue := t.queue[1..]);
    NothingInRest(t);
    hide QuitIdlers, QuitUpTo, NothingRuns, CoordinateTask;
    match e {
      case Grow(_) => NoneGrows(t0, e.n, pick);
      case Shrink(n) => NothingToQuit(t0, n, pick);
      case Coordinate(task) => TaskWaits(t, pick);
      case IdleAndPending(_) =>
      case StartFinishing => NothingToQuit(t0.(shouldQuitCoordinator := true), None, pick);
    }
  }

  lemma NothingInRest(t: Team)
    requires NothingRuns(t) && t.queue != [] && t.queue[0].Job?
    ensures var e, t0 := t.queue[0].job, t.(queue := t.queue[1..]);
            && !e.IdleAndPending? && (!e.Coordinate? ==> NothingRuns(t0))
            && (e.StartFinishing? ==> NothingRuns(t0.(shouldQuitCoordinator := true)))
  {
    assert t.queue == [t.queue[0]] + t.queue[1..];
  }

  lemma NoneGrows(t: Team, n: int, pick: Pick)
    requires NothingRuns(t)
    ensures GrowBy(t, n, pick) == t
  {
  }

  lemma TaskWaits(t: Team, pick: Pick)
    requires NothingRuns(t) && t.queue != [] && t.queue[0].Job? && t.queue[0].job.Coordinate?
    ensures NothingRuns(CoordinateTask(t.(queue := t.queue[1..]), t.queue[0].job.task, pick))
  {
    var task, rest := t.queue[0].job.task, t.queue[1..];
    assert t.queue == [t.queue[0]] + rest;
    assert t.pending + ([task] + Queued(rest)) == t.pending + [task] + Queued(rest);
  }

  lemma NothingAsked(t: Team, e: Errand)
    requires !e.IdleAndPending?
    ensures Queued(t.queue + [Job(e)]) == Queued(t.queue) + if e.Coordinate? then [e.task] else []
    ensures Returning(t.queue + [Job(e)]) == Returning(t.queue)
  {
    QueueAppend(t.queue, [Job(e)]);
    QueueOne(Job(e));
  }

  lemma {:induction false} QuitsNobody(t: Team, n: int, pick: Pick)
    requires t.idle == {}
    ensures QuitUpTo(t, n, pick) == t.(toShrink := QuitUpTo(t, n, pick).toShrink)
    decreases n
  {
    if n > 0 {
      QuitsNobody(t.(toShrink := t.toShrink + 1), n - 1, pick);
    }
  }

  lemma NothingToQuit(t: Team, n: Option<int>, pick: Pick)
    requires NothingRuns(t)
    ensures NothingRuns(QuitIdlers(t, n, pick))
  {
    QuitsNobody(t, if n.None? then |t.idle| + t.busyCount else n.value, pick);
    QueueAppend(t.queue, [NoMoreWork]);
    QueueOne(NoMoreWork);
  }

  lemma {:induction false} NothingRunsEver(t: Team, run: seq<Event>)
    requires NothingRuns(t)
    ensures NothingRuns(After(t, run))
    decreases |run|
  {
    hide NothingRuns, Next;
    if run != [] {
      NothingRunsNext(t, run[0]);
      NothingRunsEver(Next(t, run[0]), run[1..]);
    }
  }

  ghost predicate NeverRunsAnything(limit: int) {
    forall run :: AllPossible(Fresh(limit), run) ==> After(Fresh(limit), run).dispatched == []
  }

  /** A team never runs anything, in any run, exactly if its limit is 0 or less; then every task that
      it accepts waits for ever. */
  lemma NoLimitNoWork(limit: int, task: Task, pick: Pick)
    requires Picks(pick)
    ensures NeverRunsAnything(limit) <==> limit <= 0
    ensures limit <= 0 ==> forall run :: AllPossible(Fresh(limit), run) ==> NothingRuns(After(Fresh(limit), run))
  {
    if limit <= 0 {
      forall run | AllPossible(Fresh(limit), run)
        ensures NothingRuns(After(Fresh(limit), run))
      {
        NothingRunsEver(Fresh(limit), run);
      }
    } else {
      FirstTaskRuns(limit, task, pick);
    }
  }

  lemma FirstTaskRuns(limit: int, task: Task, pick: Pick)
    requires Picks(pick) && limit >= 1
    ensures AllPossible(Fresh(limit), [Do(task), Perform(pick)])
    ensures After(Fresh(limit), [Do(task), Perform(pick)]).dispatched == [task]
  {
    var t0 := Fresh(limit);
    var run := [Do(task), Perform(pick)];
    assert run[1..] == [Perform(pick)] && run[1..][1..] == [];
    var t1 := Next(t0, Do(task));
    assert t1.queue == [Job(Coordinate(task))];
    assert AllPossible(t1, [Perform(pick)]);
    assert After(t0, run) == After(t1, [Perform(pick)]);
    assert After(t1, [Perform(pick)]) == After(Next(t1, Perform(pick)), []);
    assert After(t0, run) == CoordinateTask(t1.(queue := t1.queue[1..]), task, pick);
  }
}
