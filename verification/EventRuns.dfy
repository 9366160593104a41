/** What removing triggers comes to, in one call and over everything that can happen to an event. */
module EventRuns {
  import opened Prelude
  import opened EventModel

  /** A before-trigger of that name has run in the firing that is going on. */
  ghost predicate HasRunNow(g: Progress, table: seq<Trigger>, state: State, h: Handle) {
    state == BEFORE && h.phase == Before && exists s :: s in g.finished && Named(table, s, h.name)
  }

  /** Removing such a trigger only draws a warning, and changes nothing. */
  lemma RemovingWhatHasRun(g: Progress, table: seq<Trigger>, state: State, h: Handle)
    requires HasRunNow(g, table, state, h)
    ensures Remove(g, table, state, h) == Some(g)
  {
  }

  /** Otherwise removing succeeds exactly if a trigger so named is listed, in its phase. */
  lemma RemovedIffListed(g: Progress, table: seq<Trigger>, state: State, h: Handle)
    requires Sound(g, table) && !HasRunNow(g, table, state, h)
    ensures Remove(g, table, state, h).Some? <==> exists s :: s in g.lists.At(h.phase) && Names(h, table, s)
  {
    var l := g.lists.At(h.phase);
    forall s | s in l
      ensures s < |table| && table[s].phase == h.phase
    {
      Listed(h.phase, l, table, g.log, g.removed, s);
    }
    NotRunNow(g, table, state, h);
    var k := FirstNamed(l, table, h.name);
    if k < |l| {
      assert l[k] in l && Names(h, table, l[k]);
    }
  }

  lemma NotRunNow(g: Progress, table: seq<Trigger>, state: State, h: Handle)
    requires !HasRunNow(g, table, state, h)
    ensures state == BEFORE && h.phase == Before ==> FirstNamed(g.finished, table, h.name) == |g.finished|
  {
    var k := FirstNamed(g.finished, table, h.name);
    if k < |g.finished| {
      assert g.finished[k] in g.finished;
    }
  }

  /** It is the one that was added first; it is off the list then, the others stay in order, and nothing
      else changes. */
  lemma FirstOneIsRemoved(g: Progress, table: seq<Trigger>, state: State, h: Handle) returns (k: nat)
    requires Sound(g, table) && !HasRunNow(g, table, state, h) && Remove(g, table, state, h).Some?
    ensures var l, g' := g.lists.At(h.phase), Remove(g, table, state, h).value;
            && k < |l| && Names(h, table, l[k]) && (forall s :: s in l && Names(h, table, s) ==> l[k] <= s)
            && g'.lists.At(h.phase) == l[..k] + l[k + 1..] && l[k] !in g'.lists.At(h.phase)
            && (forall p: Phase :: p != h.phase ==> g'.lists.At(p) == g.lists.At(p))
            && g'.removed == g.removed + {l[k]} && l[k] !in g.removed && l[k] !in g.log
            && g' == g.(lists := g'.lists, removed := g'.removed)
  {
    var l := g.lists.At(h.phase);
    NotRunNow(g, table, state, h);
    k := FirstNamed(l, table, h.name);
    Listed(h.phase, l, table, g.log, g.removed, l[k]);
    WithoutElements(l, k);
    forall s | s in l && Names(h, table, s)
      ensures l[k] <= s
    {
      var i :| 0 <= i < |l| && l[i] == s;
      assert i >= k;
    }
  }

  /** Removals are made one after the other, until one raises; the others are not made then. */
  lemma {:induction false} RemovalsInOrder(g: Progress, table: seq<Trigger>, state: State, a: seq<Handle>,
        b: seq<Handle>)
    ensures var (g1, ok) := RemoveEach(g, table, state, a);
            RemoveEach(g, table, state, a + b) == if ok then RemoveEach(g1, table, state, b) else (g1, false)
    decreases |a|
  {
    hide Remove;
    if a == [] {
      assert a + b == b;
    } else {
      assert (a + b)[1..] == a[1..] + b;
      if Remove(g, table, state, a[0]).Some? {
        RemovalsInOrder(Remove(g, table, state, a[0]).value, table, state, a[1..], b);
      }
    }
  }

  lemma OneRemoval(g: Progress, table: seq<Trigger>, state: State, h: Handle)
    ensures var r := Remove(g, table, state, h);
            RemoveEach(g, table, state, [h]) == if r.Some? then (r.value, true) else (g, false)
  {
    assert [h][1..] == [];
  }

  /** A trigger that is called is off its list before it does anything. It makes its removals; and its
      Deferred is returned exactly if it has one, none of them raised, and it does not raise itself. */
  lemma CallMakesRemovals(g: Progress, table: seq<Trigger>, state: State, p: Phase)
    requires Sound(g, table) && HasNext(g, table, p)
    ensures var s, (g', result) := g.lists.At(p)[0], Called(g, table, state, p);
            var taken := g.(lists := g.lists.Put(p, g.lists.At(p)[1..]), log := g.log + [s],
                            finished := if p == Before then g.finished + [s] else g.finished);
            var (removed, ok) := RemoveEach(taken, table, state, table[s].removes);
            && g'.(failed := g.failed) == removed
            && (result.Some? <==> ok && !table[s].raises && table[s].deferred.Some?)
  {
    var l := g.lists.At(p);
    assert Without(l, 0) == l[1..];
    TakenIsSound(g, table, p);
    RemoveEachKeeps(Taken(g, p), table, state, table[l[0]].removes);
  }

  // ------------------------------------------------------------------------------- whole runs

  /** An event between calls. */
  datatype Whole = Whole(g: Progress, table: seq<Trigger>, state: State)

  /** Triggers are added and removed, the event is fired, and a firing goes on. */
  datatype Step = Adding(t: Trigger) | Removing(h: Handle) | Firing | GoingOn

  function Next(e: Whole, step: Step): Whole {
    match step
    case Adding(t) =>
      var l := e.g.lists.At(t.phase) + [|e.table|];
      e.(g := e.g.(lists := e.g.lists.Put(t.phase, l)), table := e.table + [t])
    case Removing(h) =>
      var r := Remove(e.g, e.table, e.state, h);
      if r.Some? then e.(g := r.value) else e
    case Firing => e.(g := Drain(e.g.(finished := []), e.table, BEFORE, Before), state := BEFORE)
    case GoingOn => e.(g := Continue(e.g, e.table), state := BASE)
  }

  function Run(e: Whole, steps: seq<Step>): Whole
    decreases |steps|
  {
    if steps == [] then e else Run(Next(e, steps[0]), steps[1..])
  }

  /** Nothing that ran, or was removed, is ever taken back. */
  ghost predicate Later(e: Whole, e': Whole) {
    Sound(e'.g, e'.table) && e.g.log <= e'.g.log && e.g.removed <= e'.g.removed && e.table <= e'.table
  }

  lemma NextIsLater(e: Whole, step: Step)
    requires Sound(e.g, e.table)
    ensures Later(e, Next(e, step))
  {
    hide Drain, Continue, Remove;
    match step {
      case Adding(t) => AddAccounts(e.g.lists, e.table, e.g.log, e.g.removed, t);
      case Removing(h) =>
        if Remove(e.g, e.table, e.state, h).Some? {
          RemoveKeeps(e.g, e.table, e.state, h);
        }
      case Firing =>
        SoundWithout(e.g, e.table);
        DrainKeeps(e.g.(finished := []), e.table, BEFORE, Before);
      case GoingOn => ContinueKeeps(e.g, e.table);
    }
  }

  lemma {:induction false} RunIsLater(e: Whole, steps: seq<Step>)
    requires Sound(e.g, e.table)
    ensures Later(e, Run(e, steps))
    decreases |steps|
  {
    hide Next, Sound;
    if steps != [] {
      NextIsLater(e, steps[0]);
      RunIsLater(Next(e, steps[0]), steps[1..]);
    }
  }

  /** A trigger that was removed never runs, whatever happens to the event afterwards. */
  lemma RemovedNeverRuns(e: Whole, h: Handle, steps: seq<Step>) returns (s: nat)
    requires Sound(e.g, e.table) && !HasRunNow(e.g, e.table, e.state, h)
    requires exists r :: r in e.g.lists.At(h.phase) && Names(h, e.table, r)
    ensures Names(h, e.table, s) && s in e.g.lists.At(h.phase) && s in Next(e, Removing(h)).g.removed
    ensures s !in Run(Next(e, Removing(h)), steps).g.log
  {
    RemovedIffListed(e.g, e.table, e.state, h);
    var k := FirstOneIsRemoved(e.g, e.table, e.state, h);
    s := e.g.lists.At(h.phase)[k];
    NextIsLater(e, Removing(h));
    RunIsLater(Next(e, Removing(h)), steps);
    RemovedIsNotLogged(Run(Next(e, Removing(h)), steps), s);
  }

  lemma RemovedIsNotLogged(e: Whole, s: nat)
    requires Sound(e.g, e.table) && s in e.g.removed
    ensures s !in e.g.log
  {
  }

  /** While before-triggers run, `finished` is what has run in this firing. */
  lemma {:induction false} FinishedIsWhatRan(g: Progress, table: seq<Trigger>, state: State)
    requires Sound(g, table)
    ensures var g' := Drain(g, table, state, Before);
            && |g.log| <= |g'.log| && g'.finished == g.finished + g'.log[|g.log|..]
    decreases |g.lists.before|
  {
    hide Sound, Called, HasNext;
    if g.lists.before == [] {
      assert g.log[|g.log|..] == [];
      hide Drain;
      NothingDrained(g, table, state);
    } else {
      FirstIsListed(g, table, Before);
      OneFinished(g, table, state);
      var g1 := Called(g, table, state, Before).0;
      FinishedIsWhatRan(g1, table, state);
      var g2 := Drain(g1, table, state, Before);
      LogGrows(g1, table, state);
      assert g2.log[|g.log|..] == [g.lists.before[0]] + g2.log[|g1.log|..];
    }
  }

  lemma NothingDrained(g: Progress, table: seq<Trigger>, state: State)
    requires g.lists.before == []
    ensures Drain(g, table, state, Before) == g
  {
  }

  lemma OneFinished(g: Progress, table: seq<Trigger>, state: State)
    requires Sound(g, table) && HasNext(g, table, Before)
    ensures var g', s := Called(g, table, state, Before).0, g.lists.before[0];
            && Sound(g', table) && g'.log == g.log + [s] && g'.finished == g.finished + [s]
            && |g'.lists.before| < |g.lists.before|
  {
    CallKeeps(g, table, state, Before);
    TakenIsSound(g, table, Before);
    RemoveEachKeeps(Taken(g, Before), table, state, table[g.lists.before[0]].removes);
  }

  lemma LogGrows(g: Progress, table: seq<Trigger>, state: State)
    requires Sound(g, table)
    ensures g.log <= Drain(g, table, state, Before).log
  {
    DrainKeeps(g, table, state, Before);
  }
}
