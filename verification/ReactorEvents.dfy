/** System events: an object that fires its triggers in three phases. */
module ReactorEvents {
  import opened EventModel
  import opened Prelude

  /** `_ThreePhaseEvent`. */
  class ThreePhaseEvent {
    var table: seq<Trigger>             // every trigger added
    var lists: Lists
    var finishedBefore: seq<nat>
    var state: State
    var fired: set<nat>                 // the Deferreds that have fired
    var waiting: seq<set<nat>>          // what each DeferredList still waits for
    ghost var log: seq<nat>             // the triggers run, in order
    ghost var removed: set<nat>
    ghost var failed: set<nat>          // triggers whose Deferred was not returned
    ghost var start: nat                // where in the log the last firing began
    ghost var overlapped: bool          // it began while an earlier firing was waiting

    ghost function Now(): Progress
      reads this
    {
      Progress(lists, finishedBefore, log, removed, failed)
    }

    /** The Deferreds that the before-triggers of the last firing returned. */
    ghost function Owed(): set<nat>
      reads this
      requires start <= |log|
    {
      DeferredsOf(log[start..], table, failed)
    }

    /** The Deferreds, of any firing, that have not fired. */
    ghost function Unfired(): set<nat>
      reads this
    {
      DeferredsOf(log, table, failed) - fired
    }

    /** Unless it overlapped another, the last firing waits for exactly the Deferreds returned that
        have not fired; meanwhile nothing but before-triggers has run. */
    ghost predicate Firing()
      reads this
      requires start <= |log|
    {
      !overlapped ==>
        if waiting == [] then UpTo(log[start..], table, After) && Owed() <= fired
        else UpTo(log[start..], table, Before) && waiting == [Owed() - fired]
    }

    ghost predicate Waits()
      reads this
    {
      (forall w :: w in waiting ==> w != {} && w !! fired) && Union(waiting) == Unfired()
    }

    ghost predicate Valid()
      reads this
    {
      Sound(Now(), table) && start <= |log| && Firing() && Waits()
    }

    constructor ()
      ensures Valid() && table == [] && Now() == Progress(Lists([], [], []), [], [], {}, {})
      ensures waiting == [] && fired == {} && state == BASE
    {
      table, lists, finishedBefore, state := [], Lists([], [], []), [], BASE;
      fired, waiting, log, removed, failed, start, overlapped := {}, [], [], {}, {}, 0, false;
    }

    method AddTrigger(t: Trigger) returns (handle: Handle)
      requires Valid()
      modifies this`table, this`lists
      ensures Valid() && handle == Handle(t.phase, t.name)
      ensures table == old(table) + [t] && lists == old(lists).Put(t.phase, old(lists).At(t.phase) + [|old(table)|])
    {
      AddAccounts(lists, table, log, removed, t);
      assert forall s :: s in log[start..] ==> s in log;
      LogInTable();
      TableGrows(log[start..], table, failed, t);
      TableGrows(log, table, failed, t);
      hide Accounts, UpTo, DeferredsOf, Union;
      lists := lists.Put(t.phase, lists.At(t.phase) + [|table|]);
      table := table + [t];
      return Handle(t.phase, t.name);
    }

    lemma LogInTable()
      requires Sound(Now(), table)
      ensures forall s :: s in log ==> s < |table|
    {
    }

    /** `removeTrigger`: whether it returned, rather than raising ValueError. */
    method RemoveTrigger(handle: Handle) returns (ok: bool)
      requires Sound(Now(), table)
      modifies this`lists, this`removed
      ensures Sound(Now(), table)
      ensures var r := Remove(old(Now()), table, state, handle);
              ok == r.Some? && Now() == if ok then r.value else old(Now())
    {
      hide Sound, Without;
      if Remove(Now(), table, state, handle).Some? {
        RemoveKeeps(Now(), table, state, handle);
      }
      if state == BEFORE && handle.phase == Before {
        if FirstNamed(finishedBefore, table, handle.name) < |finishedBefore| {
          return true;
        }
      }
      var k := FirstNamed(lists.At(handle.phase), table, handle.name);
      ok := k < |lists.At(handle.phase)|;
      if ok {
        removed := removed + {lists.At(handle.phase)[k]};
        lists := lists.Put(handle.phase, Without(lists.At(handle.phase), k));
      }
    }

    /** What a trigger does first. */
    method RemoveAll(handles: seq<Handle>) returns (ok: bool)
      requires Sound(Now(), table)
      modifies this`lists, this`removed
      ensures Sound(Now(), table) && (Now(), ok) == RemoveEach(old(Now()), table, state, handles)
    {
      hide Sound, Remove;
      var i := 0;
      assert handles[0..] == handles;
      while i < |handles|
        invariant 0 <= i <= |handles| && Sound(Now(), table)
        invariant RemoveEach(Now(), table, state, handles[i..]) == RemoveEach(old(Now()), table, state, handles)
      {
        assert handles[i..][0] == handles[i] && handles[i..][1..] == handles[i + 1..];
        ok := RemoveTrigger(handles[i]);
        if !ok {
          return;
        }
        i := i + 1;
      }
      return true;
    }

    method Take(p: Phase) returns (s: nat)
      requires Sound(Now(), table) && HasNext(Now(), table, p)
      modifies this`lists, this`log, this`finishedBefore
      ensures Sound(Now(), table) && s == old(lists).At(p)[0] && Now() == Taken(old(Now()), p)
    {
      TakenIsSound(Now(), table, p);
      hide Sound, Without;
      s := lists.At(p)[0];
      lists := lists.Put(p, Without(lists.At(p), 0));
      if p == Before {
        finishedBefore := finishedBefore + [s];
      }
      log := log + [s];
    }

    /** Take the first trigger of a list and call it; an exception is logged. */
    method RunNext(p: Phase) returns (result: Option<nat>)
      requires Sound(Now(), table) && HasNext(Now(), table, p)
      modifies this`lists, this`removed, this`log, this`finishedBefore, this`failed
      ensures Sound(Now(), table) && (Now(), result) == Called(old(Now()), table, state, p)
    {
      hide Sound, RemoveEach, Without;
      CallKeeps(Now(), table, state, p);
      var s := Take(p);
      var ok := RemoveAll(table[s].removes);
      result := if ok && !table[s].raises then table[s].deferred else None;
      if result != table[s].deferred {
        failed := failed + {s};
      }
    }

    /** The loop over one phase. */
    method RunPhase(p: Phase)
      requires Sound(Now(), table)
      modifies this`lists, this`removed, this`log, this`finishedBefore, this`failed
      ensures Sound(Now(), table) && Now() == Drain(old(Now()), table, state, p)
    {
      hide Sound, Called;
      while lists.At(p) != []
        invariant Sound(Now(), table) && Drain(Now(), table, state, p) == Drain(old(Now()), table, state, p)
        decreases |lists.At(p)|
      {
        FirstIsListed(Now(), table, p);
        CallKeeps(Now(), table, state, p);
        var result := RunNext(p);
      }
    }

    /** The loop of `fireEvent`, which collects the Deferreds. */
    method RunBefores() returns (results: set<nat>)
      requires Sound(Now(), table)
      modifies this`lists, this`removed, this`log, this`finishedBefore, this`failed
      ensures Sound(Now(), table) && Now() == Drain(old(Now()), table, state, Before) && |old(log)| <= |log|
      ensures results == DeferredsOf(log[|old(log)|..], table, failed)
    {
      hide Sound, Called, Went, DeferredsOf;
      ghost var g0 := Now();
      results := {};
      WentNowhere(g0, table, Before);
      NothingRan();
      assert log[|g0.log|..] == [];
      while lists.At(Before) != []
        invariant Sound(Now(), table) && Drain(Now(), table, state, Before) == Drain(g0, table, state, Before)
        invariant |g0.log| <= |log| && results == DeferredsOf(log[|g0.log|..], table, failed)
        decreases |lists.At(Before)|
      {
        ghost var g, s := Now(), lists.At(Before)[0];
        FirstIsListed(g, table, Before);
        CallKeeps(g, table, state, Before);
        CallWent(g, table, state, Before);
        var result := RunNext(Before);
        WentSince(g, Now(), table, [s], Before, Before, |g0.log|);
        OneDeferred(s, result);
        if result.Some? {
          results := results + {result.value};
        }
      }
    }

    lemma NothingRan()
      ensures DeferredsOf([], table, failed) == {}
    {
    }

    lemma OneDeferred(s: nat, result: Option<nat>)
      requires OfPhase(table, s, Before) && (s in failed <==> result != table[s].deferred)
      requires result.Some? ==> result == table[s].deferred
      ensures DeferredsOf([s], table, failed) == if result.Some? then {result.value} else {}
    {
      assert s in [s];
    }

    /** `_continueFiring`: all during-triggers, and then all after-triggers. */
    method ContinueFiring()
      requires Sound(Now(), table)
      modifies this`state, this`finishedBefore, this`lists, this`log, this`removed, this`failed
      ensures Sound(Now(), table) && state == BASE && Now() == Continue(old(Now()), table)
    {
      hide Sound, Drain;
      ghost var g := Now();
      SoundWithout(g, table);
      state := BASE;
      finishedBefore := [];
      assert Now() == g.(finished := []);
      RunPhase(During);
      RunPhase(After);
    }

    /** `fireEvent`, with the DeferredList it ends in: every before-trigger runs; if a Deferred they
        returned has not fired the rest waits for it, otherwise it runs at once. That is too early,
        for a Deferred of an earlier firing, exactly if the event was waiting already. */
    method FireEvent()
      requires Valid()
      modifies this`state, this`finishedBefore, this`lists, this`log, this`removed, this`failed, this`waiting,
               this`start, this`overlapped
      ensures Valid() && start == |old(log)| && overlapped == (old(waiting) != [])
      ensures var g := Drain(old(Now()).(finished := []), table, BEFORE, Before);
              && |old(log)| <= |g.log| && Owed() == DeferredsOf(g.log[|old(log)|..], table, g.failed)
              && (if Owed() <= fired then Now() == Continue(g, table) && state == BASE && waiting == old(waiting)
                  else Now() == g && state == BEFORE && waiting == old(waiting) + [Owed() - fired])
      ensures Owed() <= fired ==> (Unfired() != {} <==> old(waiting) != [])
    {
      hide Sound, Drain, Continue, Went, DeferredsOf, UpTo, Union;
      ghost var g0 := Now();
      SoundWithout(g0, table);
      state := BEFORE;
      finishedBefore := [];
      overlapped := waiting != [];
      start := |log|;
      assert Now() == g0.(finished := []);
      var results := RunBefores();
      ghost var g := Now();
      BeforesWent(g0.(finished := []), g);
      var unfired := results - fired;
      assert forall d :: d in results ==> d in fired || d in unfired;
      UnionEmpty(waiting);
      if unfired == {} {
        ContinueFiring();
        RestWent(g);
      } else {
        UnionAppend(waiting, unfired);
        waiting := waiting + [unfired];
      }
    }

    /** What the loop means for the state of the firing. */
    lemma BeforesWent(g0: Progress, g: Progress)
      requires Sound(g0, table) && g == Drain(g0, table, BEFORE, Before)
      ensures |g0.log| <= |g.log| && UpTo(g.log[|g0.log|..], table, Before)
      ensures DeferredsOf(g.log, table, g.failed)
           == DeferredsOf(g0.log, table, g0.failed) + DeferredsOf(g.log[|g0.log|..], table, g.failed)
    {
      DrainKeeps(g0, table, BEFORE, Before);
      hide Sound, Drain;
      WentSince(g0, g, table, RanIn(g0, g), Before, Before, 0);
      assert g0.log[0..] == g0.log && g.log[0..] == g.log;
    }

    lemma RestWent(g: Progress)
      requires Sound(g, table) && Now() == Continue(g, table) && start <= |g.log|
      ensures start <= |log| && DeferredsOf(log, table, failed) == DeferredsOf(g.log, table, g.failed)
      ensures Owed() == DeferredsOf(g.log[start..], table, g.failed)
      ensures UpTo(g.log[start..], table, Before) ==> UpTo(log[start..], table, After)
    {
      ContinueKeeps(g, table);
      hide Sound, Continue;
      WentSince(g, Now(), table, RanIn(g, Now()), During, After, 0);
      WentSince(g, Now(), table, RanIn(g, Now()), During, After, start);
      assert g.log[0..] == g.log && log[0..] == log;
    }

    /** A Deferred fires: a DeferredList that waited for it alone lets its firing go on. That is too
        early, for a Deferred of another firing, exactly if another DeferredList goes on waiting. */
    method DeferredFires(d: nat)
      requires Valid() && d !in fired
      modifies this`state, this`finishedBefore, this`lists, this`log, this`removed, this`failed, this`waiting,
               this`fired
      ensures Valid() && fired == old(fired) + {d} && waiting == Still(old(waiting), d)
      ensures if {d} in old(waiting) then Now() == Continue(old(Now()), table) && state == BASE
              else Now() == old(Now()) && state == old(state)
      ensures {d} in old(waiting) ==> (Unfired() != {} <==> Still(old(waiting), d) != [])
    {
      hide Sound, Continue, DeferredsOf, UpTo, Union;
      ghost var g := Now();
      ghost var owed := Owed();
      fired := fired + {d};
      var i := 0;
      while i < |waiting|
        invariant 0 <= i <= |waiting| && Sound(Now(), table)
        invariant if {d} in waiting[..i] then Now() == Continue(g, table) && state == BASE
                  else Now() == g && state == old(state)
        modifies this`state, this`finishedBefore, this`lists, this`log, this`removed, this`failed
      {
        assert waiting[..i + 1] == waiting[..i] + [waiting[i]];
        assert waiting[i] in waiting;
        assert forall x :: x in waiting[i] ==> x == d || x in waiting[i] - {d};
        if waiting[i] - {d} == {} {
          assert waiting[i] == {d};
          ContinueTwice(g, table);
          ContinueFiring();
        }
        i := i + 1;
      }
      assert waiting[..i] == waiting;
      FiredWaits(g, owed, old(fired), d);
      waiting := Still(waiting, d);
    }

    /** What that means for what is waited for. */
    lemma FiredWaits(g: Progress, owed: set<nat>, before: set<nat>, d: nat)
      requires Sound(g, table) && start <= |g.log| && owed == DeferredsOf(g.log[start..], table, g.failed)
      requires Now() == (if {d} in waiting then Continue(g, table) else g) && fired == before + {d}
      requires forall w :: w in waiting ==> w != {} && w !! before
      requires Union(waiting) == DeferredsOf(g.log, table, g.failed) - before
      requires !overlapped ==>
                 if waiting == [] then UpTo(g.log[start..], table, After) && owed <= before
                 else UpTo(g.log[start..], table, Before) && waiting == [owed - before]
      ensures (forall w :: w in Still(waiting, d) ==> w != {} && w !! fired) && Union(Still(waiting, d)) == Unfired()
      ensures Unfired() != {} <==> Still(waiting, d) != []
      ensures start <= |log|
      ensures !overlapped ==>
                if Still(waiting, d) == [] then UpTo(log[start..], table, After) && Owed() <= fired
                else UpTo(log[start..], table, Before) && Still(waiting, d) == [Owed() - fired]
    {
      hide Sound, Continue, DeferredsOf, UpTo, Union;
      StillWaiting(waiting, d, before);
      UnionEmpty(Still(waiting, d));
      assert g.log[0..] == g.log;
      if {d} in waiting {
        RestWent(g);
      }
      if !overlapped && waiting != [] {
        assert waiting[0] in waiting && waiting == [owed - before];
        OneWait(waiting, owed, before, d);
      }
    }
  }

  /** Once a during- or after-trigger has run, every Deferred of the before-triggers had fired, and
      no earlier phase runs any more; unless the event was fired while it waited. */
  lemma PhasesInOrder(e: ThreePhaseEvent, i: nat)
    requires e.Valid() && !e.overlapped && e.start <= i < |e.log| && RankOf(e.table, e.log[i]) > 0
    ensures e.Owed() <= e.fired && e.waiting == []
    ensures forall j :: i <= j < |e.log| ==> RankOf(e.table, e.log[i]) <= RankOf(e.table, e.log[j])
  {
    var ran := e.log[e.start..];
    assert ran[i - e.start] == e.log[i] && e.log[i] in ran;
    forall j | i <= j < |e.log|
      ensures RankOf(e.table, e.log[i]) <= RankOf(e.table, e.log[j])
    {
      assert ran[j - e.start] == e.log[j];
    }
  }

  /** A returned Deferred has not fired exactly while some DeferredList waits. */
  lemma WaitsWhileUnfired(e: ThreePhaseEvent)
    requires e.Valid()
    ensures e.waiting == [] <==> e.Unfired() == {}
  {
    UnionEmpty(e.waiting);
  }

  /** A trigger has run, was removed, or is waiting in its list: exactly one of them, and once; those
      of one phase ran in the order in which they were added. */
  lemma ExactlyOnce(e: ThreePhaseEvent, s: nat)
    requires e.Valid() && s < |e.table|
    ensures var l := e.lists.At(e.table[s].phase);
            if s in e.log then s !in e.removed && s !in l else (s in e.removed <==> s !in l)
    ensures forall i, j :: 0 <= i < j < |e.log| ==> e.log[i] != e.log[j]
    ensures forall i, j, p :: 0 <= i < j < |e.log| && OfPhase(e.table, e.log[i], p) && OfPhase(e.table, e.log[j], p) ==>
                                e.log[i] < e.log[j]
  {
    forall i, j | 0 <= i < j < |e.log|
      ensures e.log[i] != e.log[j]
    {
      assert e.log[i] in e.log && e.log[j] in e.log;
      assert OfPhase(e.table, e.log[i], e.table[e.log[i]].phase);
    }
  }

  const TWO: seq<Trigger> := [Trigger(Before, 0, [], false, Some(7)), Trigger(During, 1, [], false, None)]

  /** Such an event, fired again while it waits: its during-trigger has run although Deferred 7, which
      its before-trigger returned, has not fired. */
  method FiredTwice() returns (e: ThreePhaseEvent)
    ensures e.Valid() && e.table == TWO && e.log == [0, 1] && 7 in e.Unfired()
  {
    hide Sound, Drain, Continue, DeferredsOf, UpTo, Union;
    e := new ThreePhaseEvent();
    var _ := e.AddTrigger(TWO[0]);
    var _ := e.AddTrigger(TWO[1]);
    assert e.table == TWO;
    assert [] + [0] == [0] && [] + [1] == [1];
    assert e.Now() == Progress(Lists([0], [1], []), [], [], {}, {});
    TwoRun();
    e.FireEvent();
    assert e.log[0..] == e.log && e.log[1..] == [];
    e.FireEvent();
    assert e.waiting != [];
    UnionEmpty(e.waiting);
  }

  lemma TwoRun()
    ensures var g := Progress(Lists([], [1], []), [0], [0], {}, {});
            && Drain(Progress(Lists([0], [1], []), [], [], {}, {}), TWO, BEFORE, Before) == g
            && Drain(g.(finished := []), TWO, BEFORE, Before) == g.(finished := [])
            && Continue(g.(finished := []), TWO) == Progress(Lists([], [], []), [], [0, 1], {}, {})
    ensures DeferredsOf([0], TWO, {}) == {7} && DeferredsOf([], TWO, {}) == {}
  {
    var start := Progress(Lists([0], [1], []), [], [], {}, {});
    var g := Progress(Lists([], [1], []), [0], [0], {}, {});
    var g' := g.(finished := []);
    assert Without([0], 0) == [] && Without([1], 0) == [] && [] + [0] == [0] && [0] + [1] == [0, 1];
    assert Taken(start, Before) == g && Taken(g', During) == Progress(Lists([], [], []), [], [0, 1], {}, {});
    assert Called(start, TWO, BEFORE, Before) == (g, Some(7));
    assert Called(g', TWO, BASE, During) == (Progress(Lists([], [], []), [], [0, 1], {}, {}), None);
    assert 0 in [0] && TWO[0].deferred == Some(7);
    assert 7 in DeferredsOf([0], TWO, {});
  }
}
