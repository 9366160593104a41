/** The one-shot quit flag and the in-memory worker that coordinates a team. */
module Workers {
  import opened Prelude

  /** `Quit`: both methods report whether they returned normally, or raised AlreadyQuit. */
  class Quit {
    var isSet: bool

    constructor ()
      ensures !isSet
    {
      isSet := false;
    }

    method Set() returns (ok: bool)
      modifies this
      ensures isSet && ok == !old(isSet)
    {
      ok := Check();
      if ok {
        isSet := true;
      }
    }

    method Check() returns (ok: bool)
      ensures ok == !isSet
    {
      ok := !isSet;
    }
  }

  datatype Work<+J> = Job(job: J) | NoMoreWork

  function Jobs<J>(pending: seq<Work<J>>): seq<J> {
    if pending == [] || pending[0].NoMoreWork? then [] else [pending[0].job] + Jobs(pending[1..])
  }

  /** `MemoryWorker` with the `perform` of `createMemoryWorker`. */
  class MemoryWorker<J> {
    const flag: Quit
    var pending: seq<Work<J>>

    /** The end marker is last, and there exactly when the worker was quit. */
    ghost predicate Valid()
      reads this, flag
    {
      && (forall i :: 0 <= i < |pending| ==> (pending[i].NoMoreWork? <==> flag.isSet && i == |pending| - 1))
      && (flag.isSet ==> pending != [])
    }

    constructor ()
      ensures Valid() && fresh(flag) && !flag.isSet && pending == []
    {
      flag := new Quit();
      pending := [];
    }

    method Do(work: J) returns (ok: bool)
      modifies this
      ensures ok == !flag.isSet
      ensures pending == if ok then old(pending) + [Job(work)] else old(pending)
      ensures old(Valid()) ==> Valid()
    {
      ok := flag.Check();
      if ok {
        pending := pending + [Job(work)];
      }
    }

    method Quit() returns (ok: bool)
      modifies this, flag
      ensures ok == !old(flag.isSet) && flag.isSet
      ensures pending == if ok then old(pending) + [NoMoreWork] else old(pending)
      ensures old(Valid()) && ok ==> Valid()
    {
      ok := flag.Set();
      if ok {
        pending := pending + [NoMoreWork];
      }
    }

    /** The first half of `perform`: the work to run now, if there is any before the end marker. */
    method Take() returns (work: Option<J>)
      modifies this
      ensures if old(pending) == [] || old(pending)[0].NoMoreWork? then work == None && pending == old(pending)
              else work == Some(old(pending)[0].job) && pending == old(pending)[1..]
      ensures old(Valid()) ==> Valid()
    {
      if pending == [] || pending[0].NoMoreWork? {
        return None;
      }
      work := Some(pending[0].job);
      pending := pending[1..];
    }

    /** `perform` until it does nothing: all work that was accepted is taken, in order, whether or not
        the worker has quit meanwhile. */
    method TakeAll() returns (taken: seq<J>)
      requires Valid()
      modifies this
      ensures Valid() && taken == Jobs(old(pending)) && |taken| == |old(pending)| - |pending|
      ensures pending == if flag.isSet then [NoMoreWork] else []
    {
      taken := [];
      while true
        invariant Valid() && flag.isSet == old(flag.isSet) && taken + Jobs(pending) == Jobs(old(pending))
        invariant |taken| + |pending| == |old(pending)|
        decreases |pending|
      {
        ghost var before := pending;
        var work := Take();
        if work.None? {
          return;
        }
        assert Jobs(before) == [work.value] + Jobs(pending);
        assert taken + ([work.value] + Jobs(pending)) == taken + [work.value] + Jobs(pending);
        taken := taken + [work.value];
      }
    }
  }
}
