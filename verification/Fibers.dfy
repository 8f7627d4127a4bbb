/** The fiber pool as it runs: its fields, and the code between two switches of control. */
module Fibers {
  import opened Variants
  import opened FiberRuns

  class FiberPool {
    const pooledFibers: nat
    var parked: seq<nat>
    var flying: set<nat>
    var fibers: seq<Fiber>
    var current: Option<nat>
    var saved: Option<nat>
    var resumed: bool
    var subscribed: multiset<nat>
    var posted: seq<(nat, Option<Err>)>
    var stopping: bool
    var doomed: set<nat>
    var places: seq<Place>
    var idles: nat
    var reports: seq<Report>

    ghost function Now(): Pool
      reads this
    {
      Pool(pooledFibers, parked, flying, fibers, current, saved, resumed, subscribed, posted,
           stopping, doomed, places, idles, reports)
    }

    constructor (cap: nat)
      ensures Now() == Start(cap) && Inv(Now())
    {
      pooledFibers := cap;
      parked, flying, fibers := [], {}, [];
      current, saved, resumed := None, None, false;
      subscribed, posted := multiset{}, [];
      stopping, doomed := false, {};
      places, idles, reports := [], 0, [];
      new;
      StartInv(cap);
    }

    /** Run: inline on the current fiber unless that one is being unwound, else on a parked or new
        fiber, up to the switch into it. */
    method Run() returns (accepted: bool)
      requires Inv(Now()) && Enabled(Now(), Submit)
      modifies this
      ensures Now() == Step(old(Now()), Submit) && Inv(Now())
      ensures accepted <==> !(old(current).Some? && old(fibers[current.value]).unwind)
      ensures accepted ==> current.Some? && places == old(places) + [On(current.value)]
    {
      StepKeepsInv(Now(), Submit);
      accepted := current.None? || !fibers[current.value].unwind;
      if current.None? {
        RunOnPool();
      } else if accepted {
        BeginEntry(current.value);
      }
    }

    method RunOnPool()
      requires Enabled(Now(), Submit) && current.None?
      modifies this
      ensures Now() == Step(old(Now()), Submit)
    {
      var f: nat;
      if parked == [] {
        f := |fibers|;
        fibers := fibers + [Fiber(true, false, None, true, AtTop, [])];
      } else {
        f := parked[|parked| - 1];
        parked := parked[..|parked| - 1];
      }
      StartFiber(f);
    }

    method StartFiber(f: nat)
      requires f < |fibers|
      modifies this
      ensures Now() == Started(old(Now()), f)
    {
      flying := flying + {f};
      saved, current := current, Some(f);
      resumed := false;
      fibers := fibers[f := fibers[f].(busy := true, spot := InEntry)];
      BeginEntry(f);
    }

    method BeginEntry(f: nat)
      requires f < |fibers|
      modifies this`fibers, this`places
      ensures Now() == Accept(old(Now()), f)
    {
      fibers := fibers[f := fibers[f].(entries := fibers[f].entries + [|places|])];
      places := places + [On(f)];
    }

    method EndEntry(f: nat)
      requires f < |fibers| && |fibers[f].entries| > 0
      modifies this`fibers, this`places
      ensures Now() == Leave(old(Now()), f)
    {
      var es := fibers[f].entries;
      var c := es[|es| - 1];
      fibers := fibers[f := fibers[f].(entries := es[..|es| - 1])];
      if c < |places| {
        places := places[c := Over];
      }
    }

    /** The end of a closure that Run called inline. */
    method InlineReturns()
      requires Inv(Now()) && Enabled(Now(), InnerDone)
      modifies this
      ensures Now() == Step(old(Now()), InnerDone) && Inv(Now())
    {
      StepKeepsInv(Now(), InnerDone);
      EndEntry(current.value);
    }

    method EntryReturns(how: Ending)
      requires Inv(Now()) && Enabled(Now(), EntryDone(how))
      modifies this
      ensures Now() == Step(old(Now()), EntryDone(how)) && Inv(Now())
    {
      StepKeepsInv(Now(), EntryDone(how));
      assert FiberOk(Now(), current.value);
      FinishEntry(how);
    }

    /** The end of the fiber's own closure: the tail of the coroutine loop, the step guard going out
        of scope, and what Run or resume does after the switch back. */
    method FinishEntry(how: Ending)
      requires Enabled(Now(), EntryDone(how)) && fibers[current.value].exc == None
      modifies this
      ensures Now() == Step(old(Now()), EntryDone(how))
    {
      var f := current.value;
      EndEntry(f);
      if fibers[f].unwind {
        // the coroutine ends; nobody looks at a pending exception any more
        fibers := fibers[f := fibers[f].(busy := false, spot := Gone)];
        current := saved;
      } else {
        ComeBack(f, if how.Failed? then Some(how.err) else None);
      }
    }

    method ComeBack(f: nat, exc: Option<Err>)
      requires f < |fibers| && !fibers[f].unwind && fibers[f].exc == None
      modifies this
      ensures
        var fiber := old(fibers)[f].(busy := false, spot := AtTop);
        var q := old(Now()).(fibers := old(fibers)[f := fiber], current := old(saved));
        var back := FiberRuns.ReturnFiber(q, f);
        Now() == if exc.None? then back
                 else back.(reports := back.reports + [if old(resumed) then Logged(exc.value) else Thrown(exc.value)])
    {
      fibers := fibers[f := fibers[f].(busy := false, spot := AtTop, exc := exc)];
      current := saved;
      AfterStep(f);
    }

    method AfterStep(f: nat)
      requires f < |fibers| && !fibers[f].busy && !fibers[f].unwind
      modifies this`parked, this`flying, this`idles, this`fibers, this`reports
      ensures
        var exc := old(fibers[f]).exc;
        var quiet := old(Now()).(fibers := old(fibers)[f := old(fibers)[f].(exc := None)]);
        var back := FiberRuns.ReturnFiber(quiet, f);
        Now() == if exc.None? then back
                 else back.(reports := back.reports + [if resumed then Logged(exc.value) else Thrown(exc.value)])
    {
      ReturnFiber(f);
      var pending := fibers[f].exc;
      fibers := fibers[f := fibers[f].(exc := None)];
      if pending.Some? {
        reports := reports + [if resumed then Logged(pending.value) else Thrown(pending.value)];
      }
    }

    method ReturnFiber(f: nat)
      requires f < |fibers|
      modifies this`parked, this`flying, this`idles, this`fibers
      ensures Now() == FiberRuns.ReturnFiber(old(Now()), f)
    {
      if |parked| < pooledFibers {
        parked := parked + [f];
      } else {
        fibers := fibers[f := fibers[f].(spot := Gone)];
      }
      flying := flying - {f};
      if flying == {} {
        idles := idles + 1;
      }
    }

    /** Await on the current fiber, up to the switch back to the main loop. */
    method AwaitSignal() returns (suspended: bool)
      requires Inv(Now()) && Enabled(Now(), Await)
      modifies this
      ensures Now() == Step(old(Now()), Await) && Inv(Now())
      ensures suspended <==> !old(fibers[current.value].unwind)
      ensures !suspended ==> Now() == old(Now())
    {
      StepKeepsInv(Now(), Await);
      var f := current.value;
      if fibers[f].unwind {
        return false;
      }
      subscribed := subscribed + multiset{f};
      fibers := fibers[f := fibers[f].(spot := InAwait)];
      current := saved;
      suspended := true;
    }

    /** An awaited future settles: its continuation posts the resume to the event loop. */
    method SignalSettles(f: nat, err: Option<Err>)
      requires Inv(Now()) && Enabled(Now(), Settle(f, err))
      modifies this
      ensures Now() == Step(old(Now()), Settle(f, err)) && Inv(Now())
    {
      StepKeepsInv(Now(), Settle(f, err));
      subscribed := subscribed - multiset{f};
      posted := posted + [(f, err)];
    }

    /** The event loop runs the oldest posted resume. `thrown` is what the await then rethrows. */
    method DispatchResume() returns (thrown: Option<Err>)
      requires Inv(Now()) && Enabled(Now(), Dispatch)
      modifies this
      ensures Now() == Step(old(Now()), Dispatch) && Inv(Now())
      ensures thrown == if old(fibers[posted[0].0]).attached then old(posted)[0].1 else None
    {
      StepKeepsInv(Now(), Dispatch);
      ResumeFindsItsAwait(Now());
      assert FiberOk(Now(), posted[0].0);
      var (f, err) := posted[0];
      posted := posted[1..];
      if !fibers[f].attached {
        return None;
      }
      thrown := Resume(f, err);
    }

    method Resume(f: nat, err: Option<Err>) returns (thrown: Option<Err>)
      requires f < |fibers| && fibers[f].spot == InAwait && fibers[f].exc == None
      modifies this`fibers, this`saved, this`current, this`resumed
      ensures fibers == old(fibers)[f := old(fibers)[f].(spot := InEntry)]
      ensures saved == old(current) && current == Some(f) && resumed && thrown == err
    {
      fibers := fibers[f := fibers[f].(exc := err)];
      saved, current := current, Some(f);
      resumed := true;
      // back in the await: the exception moves into the throw
      thrown := fibers[f].exc;
      fibers := fibers[f := fibers[f].(exc := None, spot := InEntry)];
    }

    /** Stop after its wait: the flying fibers are taken out of the pool. */
    method BeginForcedStop()
      requires Inv(Now()) && Enabled(Now(), ForceStop)
      modifies this
      ensures Now() == Step(old(Now()), ForceStop) && Inv(Now())
    {
      StepKeepsInv(Now(), ForceStop);
      doomed := flying;
      flying := {};
      stopping := true;
    }

    /** Stop destroys the coroutine of a straggler: its await turns the unwinding into a shutdown
        error for the code that awaits. */
    method UnwindStraggler(f: nat)
      requires Inv(Now()) && Enabled(Now(), UnwindNext(f))
      modifies this
      ensures Now() == Step(old(Now()), UnwindNext(f)) && Inv(Now())
      ensures TornDown(Now(), f)
    {
      StepKeepsInv(Now(), UnwindNext(f));
      UnwindTearsDown(Now(), f);
      doomed := doomed - {f};
      fibers := fibers[f := fibers[f].(attached := false)];
      saved, current := current, Some(f);
      fibers := fibers[f := fibers[f].(unwind := true, spot := InEntry)];
    }

    method EndForcedStop()
      requires Inv(Now()) && Enabled(Now(), StopReturns)
      modifies this
      ensures Now() == Step(old(Now()), StopReturns) && Inv(Now())
      ensures flying == {} && forall c :: 0 <= c < |places| ==> places[c] == Over
    {
      StepKeepsInv(Now(), StopReturns);
      StopLeavesNothing(Now());
      stopping := false;
    }
  }
}
