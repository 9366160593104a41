/** How many workers growing and shrinking a team makes and quits, and that all its work gets done. */
module TeamSizes {
  import opened Prelude
  import opened Workers
  import opened TeamModel

  function Max0(n: int): nat { if n < 0 then 0 else n }

  function Min(a: int, b: int): int { if a < b then a else b }

  /** Workers are numbered in the order in which they are created. */
  ghost predicate Numbered(t: Team) { forall w: Worker :: w in t.idle || w in t.quits ==> w < t.created }

  function SpanSeq(a: nat, n: nat): seq<Worker>
    decreases n
  {
    if n == 0 then [] else [a] + SpanSeq(a + 1, n - 1)
  }

  function Span(a: nat, n: nat): set<Worker>
    decreases n
  {
    if n == 0 then {} else {a} + Span(a + 1, n - 1)
  }

  /** How many of the workers that `grow` makes are quit at once, because `shrink` is still owed them. */
  function Paid(t: Team, n: int): int {
    if t.busyCount + |t.idle| >= t.limit then 0 else Min(Max0(n), t.toShrink)
  }

  /** And how many become idle: as many as were asked for, or as the limit has room for. */
  function Added(t: Team, n: int): int {
    if t.busyCount + |t.idle| >= t.limit then 0
    else Min(Max0(n) - Paid(t, n), t.limit - t.busyCount - |t.idle|)
  }

  lemma {:induction false} SpanSize(a: nat, n: nat)
    ensures |Span(a, n)| == n && forall w: Worker :: w in Span(a, n) <==> a <= w < a + n
    decreases n
  {
    if n > 0 {
      SpanSize(a + 1, n - 1);
    }
  }

  /** So many were made and quit at once, and then so many made that are idle; nothing else changed. */
  ghost predicate Grown(t: Team, paid: nat, added: nat, t': Team) {
    && t'.created == t.created + paid + added && t'.toShrink == t.toShrink - paid
    && t'.idle == t.idle + Span(t.created + paid, added) && t'.quits == t.quits + SpanSeq(t.created, paid)
    && t' == t.(created := t'.created, toShrink := t'.toShrink, idle := t'.idle, quits := t'.quits)
  }

  lemma {:induction false} GrowsExactly(t: Team, n: int, pick: Pick)
    requires Numbered(t) && t.pending == [] && !t.shouldQuitCoordinator && t.toShrink >= 0
    ensures Paid(t, n) >= 0 && Added(t, n) >= 0 && Grown(t, Paid(t, n), Added(t, n), GrowBy(t, n, pick))
    decreases n
  {
    hide RecycleWorker, Grown, Paid, Added, Numbered;
    if n <= 0 || t.busyCount + |t.idle| >= t.limit {
      GrownByNothing(t, n);
    } else {
      NewWorker(t, pick);
      var t1 := RecycleWorker(t.(created := t.created + 1), t.created, pick);
      GrowsExactly(t1, n - 1, pick);
      var t2 := GrowBy(t1, n - 1, pick);
      OneMoreCounted(t, n, t1);
      if t.toShrink > 0 {
        OneMorePaid(t, Paid(t1, n - 1), Added(t1, n - 1), t2);
      } else {
        OneMoreAdded(t, Added(t1, n - 1), t2);
      }
    }
  }

  lemma GrownByNothing(t: Team, n: int)
    requires (n <= 0 && t.toShrink >= 0) || t.busyCount + |t.idle| >= t.limit
    ensures Paid(t, n) == 0 == Added(t, n) && Grown(t, 0, 0, t)
  {
    assert t.idle + Span(t.created, 0) == t.idle && t.quits + SpanSeq(t.created, 0) == t.quits;
  }

  function AfterOne(t: Team): Team {
    if t.toShrink > 0 then t.(created := t.created + 1, toShrink := t.toShrink - 1, quits := t.quits + [t.created])
    else t.(created := t.created + 1, idle := t.idle + {t.created})
  }

  lemma NewWorker(t: Team, pick: Pick)
    requires Numbered(t) && t.pending == [] && !t.shouldQuitCoordinator
    ensures RecycleWorker(t.(created := t.created + 1), t.created, pick) == AfterOne(t) && Numbered(AfterOne(t))
  {
    hide QuitIdlers, CoordinateTask;
    assert t.idle + {t.created} - {t.created} == t.idle;
  }

  lemma OneMoreCounted(t: Team, n: int, t1: Team)
    requires n > 0 && t.busyCount + |t.idle| < t.limit && t.toShrink >= 0 && Numbered(t) && t1 == AfterOne(t)
    ensures Paid(t, n) == Paid(t1, n - 1) + if t.toShrink > 0 then 1 else 0
    ensures Added(t, n) == Added(t1, n - 1) + if t.toShrink > 0 then 0 else 1
    ensures t.toShrink == 0 ==> Paid(t, n) == 0
  {
    assert t.created !in t.idle;
  }

  lemma OneMorePaid(t: Team, paid: nat, added: nat, t2: Team)
    requires t.toShrink > 0 && Grown(AfterOne(t), paid, added, t2)
    ensures Grown(t, paid + 1, added, t2)
  {
    assert t.quits + [t.created] + SpanSeq(t.created + 1, paid) == t.quits + SpanSeq(t.created, paid + 1);
  }

  lemma OneMoreAdded(t: Team, added: nat, t2: Team)
    requires t.toShrink <= 0 && Grown(AfterOne(t), 0, added, t2)
    ensures Grown(t, 0, added + 1, t2)
  {
    assert t.idle + {t.created} + Span(t.created + 1, added) == t.idle + Span(t.created, added + 1);
  }

  /** `grow`, while nothing waits and nobody has quit the team, makes workers until there are as many
      more as it was asked for, or the limit is reached; exactly those that pay off earlier calls of
      `shrink` are quit, first, and the others are idle. */
  lemma GrowMakesWorkers(t: Team, n: int, pick: Pick)
    requires Numbered(t) && t.pending == [] && !t.shouldQuitCoordinator && t.toShrink >= 0
    ensures var t' := GrowBy(t, n, pick);
            && Paid(t, n) >= 0 && Added(t, n) >= 0 && Grown(t, Paid(t, n), Added(t, n), t')
            && |t'.idle| == |t.idle| + Added(t, n)
            && (t'.created == t.created + Max0(n) || t.busyCount + |t'.idle| >= t.limit)
  {
    hide GrowBy, Grown;
    GrowsExactly(t, n, pick);
    Limited(t, n);
    MoreIdle(t.idle, t.created + Paid(t, n), Added(t, n));
    GrownMeans(t, Paid(t, n), Added(t, n), GrowBy(t, n, pick));
  }

  lemma GrownMeans(t: Team, paid: nat, added: nat, t': Team)
    requires Grown(t, paid, added, t')
    ensures t'.idle == t.idle + Span(t.created + paid, added) && t'.created == t.created + paid + added
  {
  }

  lemma Limited(t: Team, n: int)
    requires t.toShrink >= 0
    ensures Paid(t, n) + Added(t, n) == Max0(n) || t.busyCount + |t.idle| + Added(t, n) >= t.limit
  {
  }

  lemma MoreIdle(idle: set<Worker>, a: nat, n: nat)
    requires forall w :: w in idle ==> w < a
    ensures |idle + Span(a, n)| == |idle| + n
  {
    SpanSize(a, n);
    assert idle !! Span(a, n);
  }

  /** So a call of `grow` does this as soon as the coordinator, with nothing else to do, performs it. */
  lemma GrowCallIsPerformed(t: Team, n: int, pick: Pick)
    requires Inv(t) && !t.hasQuit && t.queue == [] && t.pending == []
    ensures var t' := After(t, [GrowCall(n), Perform(pick)]);
            && t'.created == t.created + Paid(t, n) + Added(t, n) && |t'.idle| == |t.idle| + Added(t, n)
            && |t'.quits| == |t.quits| + Paid(t, n) && t'.busyCount == t.busyCount && t'.queue == []
            && (t'.created == t.created + Max0(n) || t.busyCount + |t'.idle| == t.limit)
  {
    GrowIsQueued(t, n, pick);
    NumberedBooks(t);
    hide Inv, Next, After, GrowBy;
    GrowMakesWorkers(t, n, pick);
    SpanSeqSize(t.created, Paid(t, n));
    AddedFits(t, n);
  }

  lemma NumberedBooks(t: Team)
    requires Inv(t)
    ensures Numbered(t) && t.toShrink >= 0 && t.busyCount + |t.idle| <= t.limit
    ensures !t.hasQuit ==> !t.shouldQuitCoordinator
  {
  }

  lemma AddedFits(t: Team, n: int)
    requires t.toShrink >= 0 && t.busyCount + |t.idle| <= t.limit
    ensures t.busyCount + |t.idle| + Added(t, n) <= t.limit
  {
  }

  lemma GrowIsQueued(t: Team, n: int, pick: Pick)
    requires Inv(t) && !t.hasQuit && t.queue == []
    ensures After(t, [GrowCall(n), Perform(pick)]) == GrowBy(t, n, pick)
  {
    hide WorkerBooks, TaskBooks, GrowBy;
    TwoSteps(t, GrowCall(n), Perform(pick));
    assert t.queue + [Job(Grow(n))] == [Job(Grow(n))];
    assert Next(Next(t, GrowCall(n)), Perform(pick)) == GrowBy(t, n, pick);
  }

  lemma TwoSteps(t: Team, ev: Event, ev': Event)
    ensures After(t, [ev, ev']) == Next(Next(t, ev), ev')
  {
    hide Next;
    assert [ev, ev'][1..] == [ev'] && [ev'][1..] == [];
    assert After(Next(t, ev), [ev']) == After(Next(Next(t, ev), ev'), []);
  }

  // ------------------------------------------------------------------------------ shrinking

  /** These workers went, from the idle ones to those that were quit. */
  ghost predicate Went(t: Team, t': Team, gone: seq<Worker>) {
    && t'.quits == t.quits + gone && NoDup(gone) && t'.idle <= t.idle
    && (forall w :: w in t.idle <==> w in t'.idle || w in gone) && (forall w :: w in gone ==> w !in t'.idle)
    && |t'.idle| + |gone| == |t.idle|
  }

  /** `shrink` quits as many idle workers as it was asked to, if there are as many, and is owed the rest. */
  lemma {:induction false} ShrinkQuitsWorkers(t: Team, n: int, pick: Pick) returns (gone: seq<Worker>)
    requires Picks(pick)
    ensures var t' := QuitUpTo(t, n, pick);
            && Went(t, t', gone) && |gone| == Min(Max0(n), |t.idle|)
            && t'.toShrink == t.toShrink + Max0(n) - |gone|
            && t' == t.(idle := t'.idle, quits := t'.quits, toShrink := t'.toShrink, raised := t'.raised)
    decreases n
  {
    hide Went;
    if n <= 0 {
      gone := [];
      NobodyWent(t);
    } else if t.idle != {} {
      var w := pick(t.idle);
      var rest := ShrinkQuitsWorkers(QuitWorker(t, w), n - 1, pick);
      gone := [w] + rest;
      OneMoreWent(t, QuitUpTo(t, n, pick), w, rest);
    } else {
      var t1 := t.(toShrink := t.toShrink + 1);
      gone := ShrinkQuitsWorkers(t1, n - 1, pick);
      WentLikewise(t, t1, QuitUpTo(t, n, pick), gone);
    }
  }

  lemma NobodyWent(t: Team)
    ensures Went(t, t, [])
  {
  }

  lemma WentLikewise(t: Team, t1: Team, t': Team, gone: seq<Worker>)
    requires Went(t1, t', gone) && t1.idle == t.idle && t1.quits == t.quits
    ensures Went(t, t', gone)
  {
  }

  lemma OneMoreWent(t: Team, t': Team, w: Worker, rest: seq<Worker>)
    requires w in t.idle && Went(QuitWorker(t, w), t', rest)
    ensures Went(t, t', [w] + rest)
  {
    assert t.quits + [w] + rest == t.quits + ([w] + rest);
    assert forall v :: v in [w] + rest <==> v == w || v in rest;
  }

  /** And a call of `shrink`. */
  lemma ShrinkCallIsPerformed(t: Team, count: Option<int>, pick: Pick)
    requires Inv(t) && !t.hasQuit && t.queue == [] && Picks(pick)
    ensures var t' := After(t, [ShrinkCall(count), Perform(pick)]);
            var n := if count.None? then |t.idle| + t.busyCount else Max0(count.value);
            && |t'.quits| == |t.quits| + Min(n, |t.idle|) && |t'.idle| == |t.idle| - Min(n, |t.idle|)
            && t'.toShrink == t.toShrink + n - Min(n, |t.idle|) && t'.created == t.created && t'.queue == []
  {
    NoFewerThanNone(t);
    ShrinkIsQueued(t, count, pick);
    hide Inv, Next, After, QuitUpTo, Went;
    var gone := ShrinkQuitsWorkers(t, if count.None? then |t.idle| + t.busyCount else count.value, pick);
    WentMeans(t, After(t, [ShrinkCall(count), Perform(pick)]), gone);
  }

  lemma WentMeans(t: Team, t': Team, gone: seq<Worker>)
    requires Went(t, t', gone)
    ensures |t'.quits| == |t.quits| + |gone| && |t'.idle| == |t.idle| - |gone|
  {
  }

  lemma ShrinkIsQueued(t: Team, count: Option<int>, pick: Pick)
    requires Inv(t) && !t.hasQuit && t.queue == []
    ensures After(t, [ShrinkCall(count), Perform(pick)])
         == QuitUpTo(t, if count.None? then |t.idle| + t.busyCount else count.value, pick)
  {
    hide WorkerBooks, TaskBooks, QuitUpTo;
    TwoSteps(t, ShrinkCall(count), Perform(pick));
    assert t.queue + [Job(Shrink(count))] == [Job(Shrink(count))];
    QuitUpToSame(t, if count.None? then |t.idle| + t.busyCount else count.value, pick);
    assert Next(Next(t, ShrinkCall(count)), Perform(pick)) == QuitIdlers(t, count, pick);
  }

  lemma {:induction false} QuitUpToSame(t: Team, n: int, pick: Pick)
    ensures QuitUpTo(t, n, pick).shouldQuitCoordinator == t.shouldQuitCoordinator
    decreases n
  {
    if n > 0 {
      QuitUpToSame(if t.idle != {} then QuitWorker(t, pick(t.idle)) else t.(toShrink := t.toShrink + 1), n - 1, pick);
    }
  }

  /** A worker that comes back, with nothing waiting, is quit if `shrink` is still owed one, and is idle
      otherwise. */
  lemma ReturningPaysOff(t: Team, w: Worker, pick: Pick)
    requires Inv(t) && t.queue != [] && t.queue[0] == Job(IdleAndPending(w)) && t.pending == []
    requires !t.shouldQuitCoordinator
    ensures var t' := Next(t, Perform(pick));
            && t'.busyCount == t.busyCount - 1 && t'.created == t.created
            && (if t.toShrink > 0 then t'.quits == t.quits + [w] && t'.toShrink == t.toShrink - 1 && t'.idle == t.idle
                else t'.quits == t.quits && t'.toShrink == t.toShrink && t'.idle == t.idle + {w})
  {
    ReturnBooks(t.idle, t.hands, Returning(t.queue[1..]), t.quits, t.created, t.busyCount, w);
    hide WorkerBooks, TaskBooks, QuitIdlers, CoordinateTask;
    assert w !in t.idle && t.idle + {w} - {w} == t.idle;
  }

  /** What a step asks to be shut down: the number given to `shrink`, or all there are. */
  function AskedToGo(t: Team, ev: Event): int {
    if ev.Perform? && t.queue != [] && t.queue[0].Job? && t.queue[0].job.Shrink? then
      match t.queue[0].job.count case None => |t.idle| + t.busyCount case Some(n) => Max0(n)
    else 0
  }

  function AllAskedToGo(t: Team, run: seq<Event>): int
    decreases |run|
  {
    if run == [] then 0 else AskedToGo(t, run[0]) + AllAskedToGo(Next(t, run[0]), run[1..])
  }

  lemma StepPays(t: Team, ev: Event)
    requires Inv(t) && Possible(t, ev)
    ensures t.shouldQuitCoordinator ==> Next(t, ev).shouldQuitCoordinator
    ensures !Next(t, ev).shouldQuitCoordinator ==>
              |Next(t, ev).quits| + Next(t, ev).toShrink == |t.quits| + t.toShrink + AskedToGo(t, ev)
  {
    if ev.Perform? && t.queue != [] && t.queue[0].Job? {
      ErrandPays(t, t.(queue := t.queue[1..]), t.queue[0].job, ev);
    }
  }

  lemma ErrandPays(t: Team, t0: Team, e: Errand, ev: Event)
    requires Inv(t) && Possible(t, ev) && ev.Perform? && t.queue != [] && t.queue[0] == Job(e)
    requires t0 == t.(queue := t.queue[1..])
    ensures var t' := RunErrand(t0, e, ev.pick);
            && (t.shouldQuitCoordinator ==> t'.shouldQuitCoordinator)
            && (!t'.shouldQuitCoordinator ==> |t'.quits| + t'.toShrink == |t.quits| + t.toShrink + AskedToGo(t, ev))
  {
    hide WorkerBooks, TaskBooks, GrowBy, Went;
    match e {
      case Grow(n) => GrowPays(t, t0, n, ev.pick);
      case Shrink(count) =>
        var n := if count.None? then |t.idle| + t.busyCount else count.value;
        NoFewerThanNone(t);
        var gone := ShrinkQuitsWorkers(t0, n, ev.pick);
        WentMeans(t0, QuitUpTo(t0, n, ev.pick), gone);
      case Coordinate(_) =>
      case IdleAndPending(w) =>
        var n := |t.idle + {w}| + (t.busyCount - 1);
        var _ := ShrinkQuitsWorkers(t0.(busyCount := t.busyCount - 1, idle := t.idle + {w}), n, ev.pick);
      case StartFinishing =>
        var _ := ShrinkQuitsWorkers(t0.(shouldQuitCoordinator := true), |t.idle| + t.busyCount, ev.pick);
    }
  }

  lemma NoFewerThanNone(t: Team)
    requires Inv(t)
    ensures t.busyCount >= 0
  {
  }

  lemma GrowPays(t: Team, t0: Team, n: int, pick: Pick)
    requires Inv(t) && t.queue != [] && t.queue[0] == Job(Grow(n)) && t0 == t.(queue := t.queue[1..])
    ensures var t' := GrowBy(t0, n, pick);
            && t'.shouldQuitCoordinator == t.shouldQuitCoordinator
            && |t'.quits| + t'.toShrink == |t.quits| + t.toShrink
  {
    assert !t.shouldQuitCoordinator;
    if t.pending == [] {
      GrowsExactly(t0, n, pick);
      SpanSeqSize(t.created, Paid(t0, n));
    }
  }

  lemma {:induction false} SpanSeqSize(a: nat, n: nat)
    ensures |SpanSeq(a, n)| == n
    decreases n
  {
    if n > 0 {
      SpanSeqSize(a + 1, n - 1);
    }
  }

  lemma {:induction false} RunPays(t: Team, run: seq<Event>)
    requires Inv(t) && AllPossible(t, run)
    ensures t.shouldQuitCoordinator ==> After(t, run).shouldQuitCoordinator
    ensures !After(t, run).shouldQuitCoordinator ==>
              |After(t, run).quits| + After(t, run).toShrink == |t.quits| + t.toShrink + AllAskedToGo(t, run)
    decreases |run|
  {
    hide Inv, Next, AskedToGo, Possible;
    if run != [] {
      NextKeeps(t, run[0]);
      StepPays(t, run[0]);
      RunPays(Next(t, run[0]), run[1..]);
    }
  }

  /** In every reachable state before quitting starts: of the workers that `shrink` was asked to shut
      down, each has been quit or is still owed; and every worker ever created is idle, busy or quit. */
  lemma EveryShrinkIsPaid(limit: int, run: seq<Event>)
    requires limit >= 1 && AllPossible(Fresh(limit), run)
    ensures var t := After(Fresh(limit), run);
            && (!t.shouldQuitCoordinator ==> |t.quits| + t.toShrink == AllAskedToGo(Fresh(limit), run))
            && t.created == |t.idle| + t.busyCount + |t.quits|
  {
    FreshInv(limit);
    RunKeeps(Fresh(limit), run);
    RunPays(Fresh(limit), run);
    var t := After(Fresh(limit), run);
    WorkersCounted(t.idle, t.hands, Returning(t.queue), t.quits, t.created, t.busyCount);
  }

  function Elements(s: seq<Worker>): set<Worker> { set w | w in s }

  lemma {:induction false} ElementsCounted(s: seq<Worker>)
    requires NoDup(s)
    ensures |Elements(s)| == |s|
  {
    if s != [] {
      var front, last := s[..|s| - 1], s[|s| - 1];
      ElementsCounted(front);
      assert Elements(s) == Elements(front) + {last};
    }
  }

  lemma WorkersCounted(idle: set<Worker>, hands: map<Worker, nat>, ret: seq<Worker>, quits: seq<Worker>,
        created: nat, busy: int)
    requires WorkerBooks(idle, hands, ret, quits, created, busy)
    ensures created == |idle| + busy + |quits|
  {
    ElementsCounted(ret);
    ElementsCounted(quits);
    SpanSize(0, created);
    EachSomewhere(idle, hands, ret, quits, created, busy);
    hide WorkerBooks, Span, Elements;
    assert |hands.Keys| == |hands|;
    FourCounted(idle, hands.Keys, Elements(ret), Elements(quits));
  }

  lemma EachSomewhere(idle: set<Worker>, hands: map<Worker, nat>, ret: seq<Worker>, quits: seq<Worker>,
        created: nat, busy: int)
    requires WorkerBooks(idle, hands, ret, quits, created, busy)
    ensures Span(0, created) == idle + hands.Keys + Elements(ret) + Elements(quits)
    ensures idle !! hands.Keys !! Elements(ret) !! Elements(quits)
  {
    hide Span, NoDup;
    SpanSize(0, created);
    var all := idle + hands.Keys + Elements(ret) + Elements(quits);
    forall w: Worker
      ensures w in Span(0, created) <==> w in all
    {
      assert w in all <==> w in idle || w in hands || w in ret || w in quits;
    }
  }

  lemma FourCounted(a: set<Worker>, b: set<Worker>, c: set<Worker>, d: set<Worker>)
    requires a !! b !! c !! d
    ensures |a + b + c + d| == |a| + |b| + |c| + |d|
  {
    assert |a + b + c| == |a + b| + |c|;
  }

  // ---------------------------------------------------------------- what gets accepted and done

  /** The tasks of the calls of `do`, as far as nobody has called `quit` before. */
  function Accepted(run: seq<Event>): seq<Task> {
    if run == [] || run[0].QuitCall? then []
    else (if run[0].Do? then [run[0].task] else []) + Accepted(run[1..])
  }

  lemma NoneAccepted()
    ensures Accepted([]) == []
  {
  }

  lemma FirstAccepted(run: seq<Event>)
    requires run != []
    ensures Accepted(run) == if run[0].QuitCall? then [] else if run[0].Do? then [run[0].task] + Accepted(run[1..])
                             else Accepted(run[1..])
  {
  }

  lemma {:induction false} SubmittedIsAccepted(t: Team, run: seq<Event>)
    ensures After(t, run).submitted == t.submitted + if t.hasQuit then [] else Accepted(run)
    ensures After(t, run).hasQuit == (t.hasQuit || QuitCall in run)
    decreases |run|
  {
    hide Next, Accepted;
    if run == [] {
      assert Accepted(run) == [] by {
        NoneAccepted();
      }
    } else {
      NextLimit(t, run[0]);
      SubmittedIsAccepted(Next(t, run[0]), run[1..]);
      assert run == [run[0]] + run[1..];
      FirstAccepted(run);
      if run[0].Do? && !t.hasQuit {
        assert t.submitted + [run[0].task] + Accepted(run[1..]) == t.submitted + ([run[0].task] + Accepted(run[1..]));
      }
    }
  }

  function ErrandWeight(w: Work<Errand>): nat {
    if w.NoMoreWork? then 0 else if w.job.Coordinate? then 4 else 1
  }

  function QueueWeight(queue: seq<Work<Errand>>): nat {
    if queue == [] then 0 else ErrandWeight(queue[0]) + QueueWeight(queue[1..])
  }

  /** An upper bound of the steps that are left to do. */
  function Weight(t: Team): nat { 3 * |t.pending| + 2 * |t.hands| + QueueWeight(t.queue) }

  lemma {:induction false} QueueWeightAppend(x: seq<Work<Errand>>, w: Work<Errand>)
    ensures QueueWeight(x + [w]) == QueueWeight(x) + ErrandWeight(w)
  {
    if x == [] {
      assert [w][1..] == [];
    } else {
      assert (x + [w])[1..] == x[1..] + [w];
      QueueWeightAppend(x[1..], w);
    }
  }

  /** A step of the coordinator or of a worker that does something. */
  predicate Works(t: Team, ev: Event) {
    || (ev.Perform? && t.queue != [] && t.queue[0].Job?)
    || (ev.Finish? && ev.worker in t.hands)
  }

  predicate AllWork(t: Team, run: seq<Event>)
    decreases |run|
  {
    run == [] || (Works(t, run[0]) && AllWork(Next(t, run[0]), run[1..]))
  }

  lemma WorkLightens(t: Team, ev: Event)
    requires Inv(t) && Possible(t, ev) && Works(t, ev)
    ensures Weight(Next(t, ev)) < Weight(t)
  {
    hide WorkerBooks, TaskBooks, QuitIdlers, RecycleWorker, CoordinateTask, GrowBy;
    if ev.Finish? {
      FinishLightens(t, ev.worker);
    } else {
      var t0, e, pick := t.(queue := t.queue[1..]), t.queue[0].job, ev.pick;
      match e {
        case Grow(n) => GrowIsLight(t, t0, n, pick);
        case Shrink(n) => QuitIsLight(t0, n, pick);
        case Coordinate(task) => GivingIsLight(t0, task, pick);
        case IdleAndPending(w) => ReturnIsLight(t0.(busyCount := t.busyCount - 1), w, pick);
        case StartFinishing => QuitIsLight(t0.(shouldQuitCoordinator := true), None, pick);
      }
    }
  }

  lemma FinishLightens(t: Team, w: Worker)
    requires Inv(t) && w in t.hands
    ensures Weight(Next(t, Finish(w))) < Weight(t)
  {
    NobodyBusy(t.idle, t.hands, Returning(t.queue), t.quits, t.created, t.busyCount);
    QueueWeightAppend(t.queue, Job(IdleAndPending(w)));
    hide WorkerBooks, TaskBooks, Returning, Queued;
    assert (t.hands - {w}).Keys == t.hands.Keys - {w};
    assert |(t.hands - {w}).Keys| == |t.hands.Keys| - 1;
    assert |t.hands - {w}| == |(t.hands - {w}).Keys| && |t.hands| == |t.hands.Keys|;
  }

  lemma GrowIsLight(t: Team, t0: Team, n: int, pick: Pick)
    requires Inv(t) && t.queue != [] && t.queue[0] == Job(Grow(n)) && t0 == t.(queue := t.queue[1..])
    ensures Weight(GrowBy(t0, n, pick)) <= Weight(t0)
  {
    assert !t.shouldQuitCoordinator;
    if t.pending == [] {
      GrowsExactly(t0, n, pick);
    }
  }

  lemma QuitIsLight(t: Team, n: Option<int>, pick: Pick)
    requires Picks(pick)
    ensures Weight(QuitIdlers(t, n, pick)) <= Weight(t)
  {
    var _ := ShrinkQuitsWorkers(t, if n.None? then |t.idle| + t.busyCount else n.value, pick);
    QueueWeightAppend(t.queue, NoMoreWork);
  }

  lemma OneMoreInHand(hands: map<Worker, nat>, w: Worker, k: nat)
    ensures |hands[w := k]| <= |hands| + 1
  {
    assert hands[w := k].Keys == hands.Keys + {w};
    assert |hands[w := k]| == |hands[w := k].Keys| && |hands| == |hands.Keys|;
  }

  lemma GivingIsLight(t: Team, task: Task, pick: Pick)
    ensures Weight(CoordinateTask(t, task, pick)) <= Weight(t) + 3
  {
    OneMoreInHand(t.hands, if t.idle != {} then pick(t.idle) else t.created, |t.dispatched|);
  }

  lemma ReturnIsLight(t: Team, w: Worker, pick: Pick)
    requires Picks(pick)
    ensures Weight(RecycleWorker(t, w, pick)) <= Weight(t)
  {
    hide QuitIdlers, CoordinateTask;
    var t' := t.(idle := t.idle + {w});
    if t.pending != [] {
      GivingIsLight(t'.(pending := t.pending[1..]), t.pending[0], pick);
    } else if t.shouldQuitCoordinator {
      QuitIsLight(t', None, pick);
    }
  }

  /** Every task accepted was dispatched and has finished, and nothing is going on. */
  ghost predicate AllDone(t: Team) {
    && t.pending == [] && t.hands == map[] && t.dispatched == t.submitted
    && forall k: nat :: k < |t.submitted| ==> k in t.finished
  }

  lemma SomePick() returns (pick: Pick)
    ensures Picks(pick)
  {
    pick := (s: set<Worker>) => if s == {} then 0 else var w :| w in s; w;
  }

  lemma NothingLeftToDo(t: Team)
    requires Inv(t) && (forall ev :: Possible(t, ev) ==> !Works(t, ev))
    ensures AllDone(t)
  {
    var pick := SomePick();
    assert !Works(t, Perform(pick));
    assert t.hands == map[] by {
      if t.hands != map[] {
        var w :| w in t.hands;
        assert Works(t, Finish(w)) && Possible(t, Finish(w));
      }
    }
    if t.queue != [] {
      assert t.queue[0].NoMoreWork? && t.queue == [NoMoreWork];
      QueueOne(NoMoreWork);
    }
    assert t.busyCount == 0 && t.pending == [];
    assert t.dispatched + ([] + []) == t.dispatched;
  }

  /** Once nobody calls the team any more, it comes to rest after a bounded number of steps, in whatever
      order they are made; and it rests only when every task accepted has been done. */
  lemma {:induction false} EverythingGetsDone(t: Team, run: seq<Event>)
    requires Inv(t) && AllPossible(t, run) && AllWork(t, run)
    ensures Inv(After(t, run)) && |run| + Weight(After(t, run)) <= Weight(t)
    ensures (forall ev :: Possible(After(t, run), ev) ==> !Works(After(t, run), ev)) ==> AllDone(After(t, run))
    decreases |run|
  {
    hide Inv, Next, Works, Possible, AllDone, Weight, Picks;
    if run == [] {
      if forall ev :: Possible(t, ev) ==> !Works(t, ev) {
        NothingLeftToDo(t);
      }
    } else {
      NextKeeps(t, run[0]);
      WorkLightens(t, run[0]);
      EverythingGetsDone(Next(t, run[0]), run[1..]);
    }
  }
}
