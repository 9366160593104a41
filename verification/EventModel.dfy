/** The triggers of a system event, and what firing it does to them, as functions on values. */
module EventModel {
  import opened Prelude

  datatype Phase = Before | During | After

  /** What `addTrigger` returns; `name` stands for the callable with its arguments. */
  datatype Handle = Handle(phase: Phase, name: nat)

  /** A trigger removes other triggers, and then raises, or returns a Deferred or something else. */
  datatype Trigger = Trigger(phase: Phase, name: nat, removes: seq<Handle>, raises: bool, deferred: Option<nat>)

  datatype State = BASE | BEFORE

  /** The attributes `before`, `during` and `after`, reached by name. */
  datatype Lists = Lists(before: seq<nat>, during: seq<nat>, after: seq<nat>) {
    function At(p: Phase): seq<nat> { match p case Before => before case During => during case After => after }

    function Put(p: Phase, l: seq<nat>): (r: Lists)
      ensures r.At(p) == l && forall q: Phase :: q != p ==> r.At(q) == At(q)
    {
      match p case Before => this.(before := l) case During => this.(during := l) case After => this.(after := l)
    }

    ghost predicate NotLonger(other: Lists) { forall p: Phase :: |At(p)| <= |other.At(p)| }
  }

  function Rank(p: Phase): nat { match p case Before => 0 case During => 1 case After => 2 }

  function Without(l: seq<nat>, k: nat): seq<nat>
    requires k < |l|
  {
    l[..k] + l[k + 1..]
  }

  predicate Named(table: seq<Trigger>, s: nat, name: nat) { s < |table| && table[s].name == name }

  /** Where the first trigger so named is in a list: its length if there is none. */
  function FirstNamed(l: seq<nat>, table: seq<Trigger>, name: nat): (k: nat)
    ensures k <= |l| && (forall i :: 0 <= i < k ==> !Named(table, l[i], name))
    ensures k < |l| ==> Named(table, l[k], name)
  {
    if l == [] || Named(table, l[0], name) then 0 else 1 + FirstNamed(l[1..], table, name)
  }

  ghost predicate Rising(l: seq<nat>) { forall i, j :: 0 <= i < j < |l| ==> l[i] < l[j] }

  /** Triggers are named by the order in which they were added; `table` lists them. Those of one
      phase are waiting in its list, have run, or were removed, and of those only one; they run in
      the order in which they were added. */
  ghost predicate Lane(p: Phase, l: seq<nat>, table: seq<Trigger>, log: seq<nat>, removed: set<nat>) {
    && (forall s :: s in l ==> s < |table| && table[s].phase == p && s !in log && s !in removed)
    && (forall s :: 0 <= s < |table| && table[s].phase == p ==> s in log || s in removed || s in l)
    && Rising(l)
    && (forall s, t :: s in log && t in l && OfPhase(table, s, p) ==> s < t)
    && (forall i, j :: 0 <= i < j < |log| && OfPhase(table, log[i], p) && OfPhase(table, log[j], p) ==> log[i] < log[j])
  }

  predicate OfPhase(table: seq<Trigger>, s: nat, p: Phase) { s < |table| && table[s].phase == p }

  ghost predicate Accounts(lists: Lists, table: seq<Trigger>, log: seq<nat>, removed: set<nat>) {
    && Lane(Before, lists.before, table, log, removed)
    && Lane(During, lists.during, table, log, removed)
    && Lane(After, lists.after, table, log, removed)
    && (forall s :: s in log ==> s < |table| && s !in removed)
    && (forall s :: s in removed ==> s < |table|)
  }

  lemma AddLane(p: Phase, l: seq<nat>, table: seq<Trigger>, log: seq<nat>, removed: set<nat>, table': seq<Trigger>)
    requires Lane(p, l, table, log, removed) && (forall s :: s in log || s in removed ==> s < |table|)
    requires |table'| == |table| + 1 && forall s :: 0 <= s < |table| ==> table'[s] == table[s]
    ensures Lane(p, if table'[|table|].phase == p then l + [|table|] else l, table', log, removed)
  {
    var n := |table|;
    var l' := if table'[n].phase == p then l + [n] else l;
    forall s | s in l'
      ensures s < |table'| && table'[s].phase == p && s !in log && s !in removed
    {
      assert s in l || s == n;
    }
    forall s | 0 <= s < |table'| && table'[s].phase == p
      ensures s in log || s in removed || s in l'
    {
      assert s == n || table[s].phase == p;
    }
    forall i, j | 0 <= i < j < |l'|
      ensures l'[i] < l'[j]
    {
      assert l[i] in l;
    }
    forall s, t | s in log && t in l' && OfPhase(table', s, p)
      ensures s < t
    {
      assert OfPhase(table, s, p) && (t in l || t == n);
    }
    forall i, j | 0 <= i < j < |log| && OfPhase(table', log[i], p) && OfPhase(table', log[j], p)
      ensures log[i] < log[j]
    {
      assert log[i] in log && log[j] in log;
      assert OfPhase(table, log[i], p) && OfPhase(table, log[j], p);
    }
  }

  lemma AddAccounts(lists: Lists, table: seq<Trigger>, log: seq<nat>, removed: set<nat>, t: Trigger)
    requires Accounts(lists, table, log, removed)
    ensures Accounts(lists.Put(t.phase, lists.At(t.phase) + [|table|]), table + [t], log, removed)
  {
    hide Lane;
    AddLane(Before, lists.before, table, log, removed, table + [t]);
    AddLane(During, lists.during, table, log, removed, table + [t]);
    AddLane(After, lists.after, table, log, removed, table + [t]);
  }

  lemma WithoutElements(l: seq<nat>, k: nat)
    requires Rising(l) && k < |l|
    ensures Rising(Without(l, k)) && (forall s :: s in l <==> s in Without(l, k) || s == l[k])
    ensures forall s :: s in Without(l, k) ==> s != l[k] && (k == 0 ==> l[0] < s)
  {
    assert l == l[..k] + [l[k]] + l[k + 1..];
  }

  /** One trigger leaves a lane: it has run, or was removed. */
  lemma LeaveLane(p: Phase, l: seq<nat>, table: seq<Trigger>, log: seq<nat>, removed: set<nat>, k: nat,
        log': seq<nat>, removed': set<nat>)
    requires Lane(p, l, table, log, removed) && k < |l|
    requires (log' == log + [l[k]] && removed' == removed && k == 0) || (log' == log && removed' == removed + {l[k]})
    ensures Lane(p, Without(l, k), table, log', removed')
  {
    WithoutElements(l, k);
    hide Without, Rising;
    var l' := Without(l, k);
    forall s, t | s in log' && t in l' && OfPhase(table, s, p)
      ensures s < t
    {
      assert s in log || (s == l[0] && k == 0);
    }
    forall i, j | 0 <= i < j < |log'| && OfPhase(table, log'[i], p) && OfPhase(table, log'[j], p)
      ensures log'[i] < log'[j]
    {
      assert log[i] in log && OfPhase(table, log[i], p);
      assert j < |log| ==> OfPhase(table, log[j], p);
      assert l[k] in l;
    }
  }

  lemma OtherLane(p: Phase, l: seq<nat>, table: seq<Trigger>, log: seq<nat>, removed: set<nat>, s: nat,
        log': seq<nat>, removed': set<nat>)
    requires Lane(p, l, table, log, removed) && s < |table| && table[s].phase != p
    requires (log' == log + [s] && removed' == removed) || (log' == log && removed' == removed + {s})
    ensures Lane(p, l, table, log', removed')
  {
  }

  lemma LeaveAccounts(lists: Lists, table: seq<Trigger>, log: seq<nat>, removed: set<nat>, p: Phase, k: nat,
        log': seq<nat>, removed': set<nat>)
    requires Accounts(lists, table, log, removed) && k < |lists.At(p)|
    requires var s := lists.At(p)[k];
             (log' == log + [s] && removed' == removed && k == 0) || (log' == log && removed' == removed + {s})
    ensures Accounts(lists.Put(p, Without(lists.At(p), k)), table, log', removed')
  {
    var s := lists.At(p)[k];
    Listed(p, lists.At(p), table, log, removed, s);
    hide Lane;
    LeaveLane(p, lists.At(p), table, log, removed, k, log', removed');
    if p != Before {
      OtherLane(Before, lists.before, table, log, removed, s, log', removed');
    }
    if p != During {
      OtherLane(During, lists.during, table, log, removed, s, log', removed');
    }
    if p != After {
      OtherLane(After, lists.after, table, log, removed, s, log', removed');
    }
  }

  lemma Listed(p: Phase, l: seq<nat>, table: seq<Trigger>, log: seq<nat>, removed: set<nat>, s: nat)
    requires Lane(p, l, table, log, removed) && s in l
    ensures s < |table| && table[s].phase == p && s !in log && s !in removed
  {
  }

  function RankOf(table: seq<Trigger>, s: nat): nat { if s < |table| then Rank(table[s].phase) else 0 }

  /** Before-triggers, then during-triggers, then after-triggers, none beyond phase `p`. */
  ghost predicate UpTo(ran: seq<nat>, table: seq<Trigger>, p: Phase) {
    && (forall s :: s in ran ==> s < |table| && RankOf(table, s) <= Rank(p))
    && (forall i, j :: 0 <= i < j < |ran| ==> RankOf(table, ran[i]) <= RankOf(table, ran[j]))
  }

  /** The Deferreds returned by the before-triggers among those that ran. */
  ghost function DeferredsOf(ran: seq<nat>, table: seq<Trigger>, failed: set<nat>): set<nat> {
    set s | s in ran && OfPhase(table, s, Before) && s !in failed && table[s].deferred.Some? :: table[s].deferred.value
  }

  /** Later calls change nothing about earlier ones. */
  lemma DeferredsJoin(a: seq<nat>, b: seq<nat>, table: seq<Trigger>, f: set<nat>, f': set<nat>)
    requires f <= f' && forall s :: s in f' - f ==> s !in a
    ensures DeferredsOf(a + b, table, f') == DeferredsOf(a, table, f) + DeferredsOf(b, table, f')
  {
    forall x | x in DeferredsOf(a, table, f) + DeferredsOf(b, table, f')
      ensures x in DeferredsOf(a + b, table, f')
    {
      if x in DeferredsOf(a, table, f) {
        var s :| s in a && s < |table| && table[s].phase == Before && s !in f && table[s].deferred == Some(x);
        assert s in a + b && s !in f';
      } else {
        var s :| s in b && s < |table| && table[s].phase == Before && s !in f' && table[s].deferred == Some(x);
        assert s in a + b;
      }
    }
  }

  lemma TableGrows(ran: seq<nat>, table: seq<Trigger>, failed: set<nat>, t: Trigger)
    requires forall s :: s in ran ==> s < |table|
    ensures forall p: Phase :: UpTo(ran, table, p) <==> UpTo(ran, table + [t], p)
    ensures DeferredsOf(ran, table + [t], failed) == DeferredsOf(ran, table, failed)
  {
    var table' := table + [t];
    assert forall s :: s in ran ==> table'[s] == table[s];
    forall p: Phase
      ensures UpTo(ran, table, p) <==> UpTo(ran, table', p)
    {
    }
  }

  // -------------------------------------------------------------------- removing and calling

  /** The triggers of an event in the middle of things: what is listed, the before-triggers that this
      firing has run, all that ever ran, all that were removed, and those that did not return a
      Deferred they would have returned. */
  datatype Progress = Progress(lists: Lists, finished: seq<nat>, log: seq<nat>, removed: set<nat>, failed: set<nat>)

  ghost predicate Sound(g: Progress, table: seq<Trigger>) {
    Accounts(g.lists, table, g.log, g.removed) && forall s :: s in g.failed ==> s in g.log
  }

  /** `removeTrigger` in either state; nothing if it raises ValueError. A before-trigger that this
      firing has already run only draws a warning. */
  function Remove(g: Progress, table: seq<Trigger>, state: State, h: Handle): Option<Progress> {
    var l := g.lists.At(h.phase);
    var k := FirstNamed(l, table, h.name);
    if state == BEFORE && h.phase == Before && FirstNamed(g.finished, table, h.name) < |g.finished| then Some(g)
    else if k == |l| then None
    else Some(g.(lists := g.lists.Put(h.phase, Without(l, k)), removed := g.removed + {l[k]}))
  }

  /** One after the other, until one raises. */
  function RemoveEach(g: Progress, table: seq<Trigger>, state: State, hs: seq<Handle>): (Progress, bool)
    decreases |hs|
  {
    if hs == [] then (g, true)
    else if Remove(g, table, state, hs[0]) == None then (g, false)
    else RemoveEach(Remove(g, table, state, hs[0]).value, table, state, hs[1..])
  }

  predicate HasNext(g: Progress, table: seq<Trigger>, p: Phase) { g.lists.At(p) != [] && g.lists.At(p)[0] < |table| }

  /** The first trigger of a phase is taken. */
  function Taken(g: Progress, p: Phase): Progress
    requires g.lists.At(p) != []
  {
    var s := g.lists.At(p)[0];
    g.(lists := g.lists.Put(p, Without(g.lists.At(p), 0)), log := g.log + [s],
       finished := if p == Before then g.finished + [s] else g.finished)
  }

  /** It is called: what it removes, and the Deferred it returns. */
  function Called(g: Progress, table: seq<Trigger>, state: State, p: Phase): (Progress, Option<nat>)
    requires HasNext(g, table, p)
  {
    var s := g.lists.At(p)[0];
    var (g', ok) := RemoveEach(Taken(g, p), table, state, table[s].removes);
    var result := if ok && !table[s].raises then table[s].deferred else None;
    (if result == table[s].deferred then g' else g'.(failed := g'.failed + {s}), result)
  }

  function Names(h: Handle, table: seq<Trigger>, s: nat): bool {
    s < |table| && table[s].phase == h.phase && table[s].name == h.name
  }

  /** Nothing was removed but what these handles name. */
  ghost predicate OnlyNamed(before: set<nat>, after: set<nat>, table: seq<Trigger>, hs: seq<Handle>) {
    before <= after && forall s :: s in after - before ==> NamedIn(hs, table, s)
  }

  ghost predicate NamedIn(hs: seq<Handle>, table: seq<Trigger>, s: nat) { exists h :: h in hs && Names(h, table, s) }

  lemma RemoveKeeps(g: Progress, table: seq<Trigger>, state: State, h: Handle)
    requires Sound(g, table) && Remove(g, table, state, h).Some?
    ensures var g' := Remove(g, table, state, h).value;
            && Sound(g', table) && g'.lists.NotLonger(g.lists) && OnlyNamed(g.removed, g'.removed, table, [h])
            && g' == g.(lists := g'.lists, removed := g'.removed)
  {
    var l := g.lists.At(h.phase);
    var k := FirstNamed(l, table, h.name);
    if k < |l| {
      LeaveAccounts(g.lists, table, g.log, g.removed, h.phase, k, g.log, g.removed + {l[k]});
      Listed(h.phase, l, table, g.log, g.removed, l[k]);
    }
    assert h in [h];
  }

  lemma {:induction false} RemoveEachKeeps(g: Progress, table: seq<Trigger>, state: State, hs: seq<Handle>)
    requires Sound(g, table)
    ensures var g' := RemoveEach(g, table, state, hs).0;
            && Sound(g', table) && g'.lists.NotLonger(g.lists) && OnlyNamed(g.removed, g'.removed, table, hs)
            && g' == g.(lists := g'.lists, removed := g'.removed)
    decreases |hs|
  {
    hide Sound, Remove, Names;
    if hs != [] && Remove(g, table, state, hs[0]).Some? {
      RemoveKeeps(g, table, state, hs[0]);
      RemoveEachKeeps(Remove(g, table, state, hs[0]).value, table, state, hs[1..]);
      var g1 := Remove(g, table, state, hs[0]).value;
      NamedJoin(g.removed, g1.removed, RemoveEach(g1, table, state, hs[1..]).0.removed, table, hs);
    }
  }

  lemma NamedJoin(a: set<nat>, b: set<nat>, c: set<nat>, table: seq<Trigger>, hs: seq<Handle>)
    requires hs != [] && OnlyNamed(a, b, table, [hs[0]]) && OnlyNamed(b, c, table, hs[1..])
    ensures OnlyNamed(a, c, table, hs)
  {
    forall s | s in c - a
      ensures NamedIn(hs, table, s)
    {
      if s in b {
        assert s in b - a;
        var h :| h in [hs[0]] && Names(h, table, s);
        assert h in hs;
      } else {
        assert s in c - b;
        var h :| h in hs[1..] && Names(h, table, s);
        assert h in hs;
      }
    }
  }

  /** A call: the first trigger of its phase runs, once, and removes nothing but what it names. */
  lemma CallKeeps(g: Progress, table: seq<Trigger>, state: State, p: Phase)
    requires Sound(g, table) && HasNext(g, table, p)
    ensures var (g', result) := Called(g, table, state, p);
            var s := g.lists.At(p)[0];
            && Sound(g', table) && g'.lists.NotLonger(g.lists) && |g'.lists.At(p)| < |g.lists.At(p)|
            && g'.log == g.log + [s] && s !in g.log && s !in g.failed && OfPhase(table, s, p)
            && OnlyNamed(g.removed, g'.removed, table, table[s].removes)
            && g'.failed == (if result == table[s].deferred then g.failed else g.failed + {s})
            && (result.Some? ==> result == table[s].deferred) && (p != Before ==> g'.finished == g.finished)
  {
    var l := g.lists.At(p);
    Listed(p, l, table, g.log, g.removed, l[0]);
    LeaveAccounts(g.lists, table, g.log, g.removed, p, 0, g.log + [l[0]], g.removed);
    hide Accounts, OnlyNamed, Names;
    assert Taken(g, p).lists.NotLonger(g.lists);
    RemoveEachKeeps(Taken(g, p), table, state, table[l[0]].removes);
  }

  /** A whole phase: `while phase: phase.pop(0)()`. */
  function Drain(g: Progress, table: seq<Trigger>, state: State, p: Phase): Progress
    decreases |g.lists.At(p)|
  {
    if HasNext(g, table, p) then
      var g' := Called(g, table, state, p).0;
      if |g'.lists.At(p)| < |g.lists.At(p)| then Drain(g', table, state, p) else g'
    else g
  }

  /** `_continueFiring`. */
  function Continue(g: Progress, table: seq<Trigger>): Progress {
    Drain(Drain(g.(finished := []), table, BASE, During), table, BASE, After)
  }

  /** From `g` to `g'` these triggers ran, of phases from `first` to `last`; nothing was removed but
      what they name, and no list grew. */
  ghost predicate Went(g: Progress, g': Progress, table: seq<Trigger>, ran: seq<nat>, first: Phase, last: Phase) {
    && g'.log == g.log + ran && (forall s :: s in ran ==> s < |table| && s !in g.log)
    && (forall s :: s in ran ==> Rank(first) <= RankOf(table, s) <= Rank(last)) && UpTo(ran, table, last)
    && g.removed <= g'.removed && (forall s :: s in g'.removed - g.removed ==> RemovedBy(ran, table, s))
    && g.failed <= g'.failed && (forall s :: s in g'.failed - g.failed ==> s in ran)
    && g'.lists.NotLonger(g.lists)
  }

  ghost predicate RemovedBy(ran: seq<nat>, table: seq<Trigger>, s: nat) {
    exists t :: t in ran && t < |table| && NamedIn(table[t].removes, table, s)
  }

  lemma WentNowhere(g: Progress, table: seq<Trigger>, p: Phase)
    ensures Went(g, g, table, [], p, p)
  {
  }

  lemma CallWent(g: Progress, table: seq<Trigger>, state: State, p: Phase)
    requires Sound(g, table) && HasNext(g, table, p)
    ensures Went(g, Called(g, table, state, p).0, table, [g.lists.At(p)[0]], p, p)
  {
    hide Sound, Called, NamedIn;
    CallKeeps(g, table, state, p);
    assert g.lists.At(p)[0] in [g.lists.At(p)[0]];
  }

  lemma WentOn(g: Progress, g1: Progress, g2: Progress, table: seq<Trigger>, a: seq<nat>, b: seq<nat>,
        first: Phase, p: Phase, q: Phase, last: Phase)
    requires Went(g, g1, table, a, first, p) && Went(g1, g2, table, b, q, last)
    requires Rank(first) <= Rank(p) <= Rank(q) <= Rank(last)
    ensures Went(g, g2, table, a + b, first, last)
  {
    hide NamedIn;
    assert g2.log == g.log + (a + b);
    assert forall s :: s in b ==> s !in g1.log;
    forall x | x in g2.removed - g.removed
      ensures RemovedBy(a + b, table, x)
    {
      if x in g1.removed {
        assert x in g1.removed - g.removed;
        var t :| t in a && t < |table| && NamedIn(table[t].removes, table, x);
        assert t in a + b;
      } else {
        assert x in g2.removed - g1.removed;
        var t :| t in b && t < |table| && NamedIn(table[t].removes, table, x);
        assert t in a + b;
      }
    }
    UpToJoin(a, b, table, p, last);
  }

  lemma UpToJoin(a: seq<nat>, b: seq<nat>, table: seq<Trigger>, middle: Phase, last: Phase)
    requires UpTo(a, table, middle) && UpTo(b, table, last) && Rank(middle) <= Rank(last)
    requires forall s :: s in b ==> Rank(middle) <= RankOf(table, s)
    ensures UpTo(a + b, table, last)
  {
    var all := a + b;
    forall i, j | 0 <= i < j < |all|
      ensures RankOf(table, all[i]) <= RankOf(table, all[j])
    {
      assert i < |a| ==> a[i] in a;
      assert j >= |a| ==> b[j - |a|] in b;
    }
  }

  /** What a drained phase has done. */
  ghost function RanIn(g: Progress, g': Progress): seq<nat>
    requires |g.log| <= |g'.log|
  {
    g'.log[|g.log|..]
  }

  lemma {:induction false} DrainKeeps(g: Progress, table: seq<Trigger>, state: State, p: Phase)
    requires Sound(g, table)
    ensures var g' := Drain(g, table, state, p);
            && Sound(g', table) && g'.lists.At(p) == [] && |g.log| <= |g'.log|
            && (p != Before ==> g'.finished == g.finished)
            && Went(g, g', table, RanIn(g, g'), p, p)
    decreases |g.lists.At(p)|
  {
    hide Went, Called, Accounts;
    if g.lists.At(p) == [] {
      assert g.log[|g.log|..] == [];
      WentNowhere(g, table, p);
    } else {
      FirstIsListed(g, table, p);
      CallKeeps(g, table, state, p);
      CallWent(g, table, state, p);
      var g1 := Called(g, table, state, p).0;
      DrainKeeps(g1, table, state, p);
      var g2 := Drain(g1, table, state, p);
      WentOn(g, g1, g2, table, [g.lists.At(p)[0]], RanIn(g1, g2), p, p, p, p);
      assert RanIn(g, g2) == [g.lists.At(p)[0]] + RanIn(g1, g2) by {
        WentIsLogged(g1, g2, table, RanIn(g1, g2), p, p);
      }
    }
  }

  lemma FirstIsListed(g: Progress, table: seq<Trigger>, p: Phase)
    requires Sound(g, table) && g.lists.At(p) != []
    ensures HasNext(g, table, p)
  {
    Listed(p, g.lists.At(p), table, g.log, g.removed, g.lists.At(p)[0]);
  }

  lemma WentIsLogged(g: Progress, g': Progress, table: seq<Trigger>, ran: seq<nat>, first: Phase, last: Phase)
    requires Went(g, g', table, ran, first, last)
    ensures g'.log == g.log + ran
  {
  }

  lemma ListsShrink(g: Progress, g': Progress, table: seq<Trigger>, ran: seq<nat>, first: Phase, last: Phase)
    requires Went(g, g', table, ran, first, last)
    ensures g'.lists.NotLonger(g.lists)
  {
  }

  /** The rest of a firing: all during- and then all after-triggers. */
  lemma ContinueKeeps(g: Progress, table: seq<Trigger>)
    requires Sound(g, table)
    ensures var g' := Continue(g, table);
            && Sound(g', table) && g'.lists.during == [] && g'.lists.after == [] && |g.log| <= |g'.log|
            && g'.finished == []
            && Went(g, g', table, RanIn(g, g'), During, After)
  {
    hide Went, Drain, Accounts;
    var g0 := g.(finished := []);
    DrainKeeps(g0, table, BASE, During);
    var g1 := Drain(g0, table, BASE, During);
    DrainKeeps(g1, table, BASE, After);
    var g2 := Drain(g1, table, BASE, After);
    WentOn(g0, g1, g2, table, RanIn(g0, g1), RanIn(g1, g2), During, During, After, After);
    assert g2.lists.NotLonger(g1.lists) by {
      ListsShrink(g1, g2, table, RanIn(g1, g2), After, After);
    }
    assert |g2.lists.At(During)| <= |g1.lists.At(During)|;
    WentIsLogged(g0, g1, table, RanIn(g0, g1), During, During);
    WentIsLogged(g1, g2, table, RanIn(g1, g2), After, After);
    assert RanIn(g, g2) == RanIn(g0, g1) + RanIn(g1, g2);
    ForgetFinished(g, g2, table, RanIn(g, g2), During, After);
  }

  lemma ContinueTwice(g: Progress, table: seq<Trigger>)
    requires Sound(g, table)
    ensures Continue(Continue(g, table), table) == Continue(g, table)
  {
    ContinueKeeps(g, table);
    hide Sound, Went;
    var g' := Continue(g, table);
    assert g'.(finished := []) == g' && g'.lists.At(During) == [] && g'.lists.At(After) == [];
    hide Continue;
    assert Drain(g', table, BASE, During) == g' && Drain(g', table, BASE, After) == g';
    ContinueIs(g', table);
  }

  lemma ContinueIs(g: Progress, table: seq<Trigger>)
    ensures Continue(g, table) == Drain(Drain(g.(finished := []), table, BASE, During), table, BASE, After)
  {
  }

  lemma ForgetFinished(g: Progress, g': Progress, table: seq<Trigger>, ran: seq<nat>, first: Phase, last: Phase)
    ensures Went(g.(finished := []), g', table, ran, first, last) <==> Went(g, g', table, ran, first, last)
  {
  }

  /** What a stretch of a firing means for everything that has run since some point. */
  lemma WentSince(g: Progress, g': Progress, table: seq<Trigger>, ran: seq<nat>, first: Phase, last: Phase, from: nat)
    requires Went(g, g', table, ran, first, last) && from <= |g.log| && Rank(first) <= Rank(last)
    ensures DeferredsOf(g'.log[from..], table, g'.failed)
         == DeferredsOf(g.log[from..], table, g.failed) + DeferredsOf(ran, table, g'.failed)
    ensures first != Before ==> DeferredsOf(ran, table, g'.failed) == {}
    ensures forall q: Phase :: UpTo(g.log[from..], table, q) && Rank(q) <= Rank(first) ==>
              UpTo(g'.log[from..], table, last)
  {
    hide RemovedBy;
    assert g'.log[from..] == g.log[from..] + ran;
    assert forall s :: s in g.log[from..] ==> s in g.log;
    forall s | s in g'.failed - g.failed
      ensures s !in g.log[from..]
    {
      assert s in ran;
    }
    DeferredsJoin(g.log[from..], ran, table, g.failed, g'.failed);
    hide DeferredsOf, UpTo;
    forall q: Phase | UpTo(g.log[from..], table, q) && Rank(q) <= Rank(first)
      ensures UpTo(g'.log[from..], table, last)
    {
      LaterPhase(g.log[from..], table, q, first);
      UpToJoin(g.log[from..], ran, table, first, last);
    }
    NoDeferreds(ran, table, g'.failed, first);
  }

  lemma LaterPhase(ran: seq<nat>, table: seq<Trigger>, q: Phase, p: Phase)
    requires UpTo(ran, table, q) && Rank(q) <= Rank(p)
    ensures UpTo(ran, table, p)
  {
  }

  lemma NoDeferreds(ran: seq<nat>, table: seq<Trigger>, failed: set<nat>, first: Phase)
    requires forall s :: s in ran ==> s < |table| && Rank(first) <= RankOf(table, s)
    ensures first != Before ==> DeferredsOf(ran, table, failed) == {}
  {
  }

  lemma TakenIsSound(g: Progress, table: seq<Trigger>, p: Phase)
    requires Sound(g, table) && HasNext(g, table, p)
    ensures Sound(Taken(g, p), table)
  {
    LeaveAccounts(g.lists, table, g.log, g.removed, p, 0, g.log + [g.lists.At(p)[0]], g.removed);
  }

  lemma SoundWithout(g: Progress, table: seq<Trigger>)
    requires Sound(g, table)
    ensures Sound(g.(finished := []), table)
  {
  }

  // ----------------------------------------------------------------------- waiting

  /** What is still waited for once a Deferred has fired. */
  function Still(waiting: seq<set<nat>>, d: nat): seq<set<nat>> {
    if waiting == [] then []
    else (if waiting[0] - {d} == {} then [] else [waiting[0] - {d}]) + Still(waiting[1..], d)
  }

  function Union(waiting: seq<set<nat>>): set<nat> { if waiting == [] then {} else waiting[0] + Union(waiting[1..]) }

  lemma {:induction false} StillWaiting(waiting: seq<set<nat>>, d: nat, fired: set<nat>)
    requires forall w :: w in waiting ==> w != {} && w !! fired
    ensures forall w :: w in Still(waiting, d) ==> w != {} && w !! fired + {d}
    ensures Union(Still(waiting, d)) == Union(waiting) - {d}
  {
    if waiting != [] {
      assert waiting[0] in waiting && forall w :: w in waiting[1..] ==> w in waiting;
      StillWaiting(waiting[1..], d, fired);
      var rest := Still(waiting[1..], d);
      if waiting[0] - {d} == {} {
        assert [] + rest == rest;
      } else {
        assert ([waiting[0] - {d}] + rest)[1..] == rest;
      }
    }
  }

  lemma {:induction false} UnionAppend(waiting: seq<set<nat>>, w: set<nat>)
    ensures Union(waiting + [w]) == Union(waiting) + w
  {
    if waiting == [] {
      assert Union([w]) == w + Union([]);
    } else {
      assert (waiting + [w])[1..] == waiting[1..] + [w];
      UnionAppend(waiting[1..], w);
    }
  }

  lemma UnionEmpty(waiting: seq<set<nat>>)
    requires forall w :: w in waiting ==> w != {}
    ensures Union(waiting) == {} <==> waiting == []
  {
    if waiting != [] {
      assert waiting[0] in waiting;
    }
  }

  lemma OneWait(waiting: seq<set<nat>>, owed: set<nat>, fired: set<nat>, d: nat)
    requires waiting == [owed - fired] && owed - fired != {}
    ensures {d} in waiting <==> owed - (fired + {d}) == {}
    ensures Still(waiting, d) == if {d} in waiting then [] else [owed - (fired + {d})]
    ensures {d} in waiting ==> owed <= fired + {d}
  {
    var w := waiting[0];
    assert Still(waiting[1..], d) == [];
    assert w - {d} == owed - (fired + {d});
    assert forall x :: x in w ==> x == d || x in w - {d};
    assert forall x :: x in owed ==> x in fired || x in w;
    assert {d} in waiting <==> w == {d};
  }
}
