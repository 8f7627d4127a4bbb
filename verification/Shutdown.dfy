/**
 The end of an instance: Shutdown, the timeout, the workers going away and the fiber pool coming to
 rest may come in any order.
 */
module Shutdown {
  import opened Variants
  import opened FiberRuns
  import opened Fibers

  /** `calling` is the body of Shutdown between its first and its last statements, `inStop` the body
      of emitDoneWhenIdle while FiberPool::Stop runs, `idleCalls` the posted emitDoneWhenIdle. */
  datatype Inst = Inst(
    shutdown: bool, done: bool, armed: bool, calling: bool, inStop: bool,
    timer: bool, idleCalls: nat, workers: set<nat>, emitted: nat, stops: nat, pool: Pool)

  datatype InstEvent =
    | ShutdownCalled
    | ShutdownArms
    | WorkerCreated(w: nat)
    | WorkerDestroyed(w: nat)
    | TimeoutFires
    | IdleCall
    | PoolEvent(e: Event)

  function StartInst(cap: nat): Inst {
    Inst(false, false, false, false, false, false, 0, {}, 0, 0, Start(cap))
  }

  predicate LoopFree(i: Inst) {
    i.pool.current.None? && !i.pool.stopping
  }

  predicate Possible(i: Inst, e: InstEvent) {
    match e
    case ShutdownCalled => true
    case ShutdownArms => i.calling
    case WorkerCreated(w) => w !in i.workers
    case WorkerDestroyed(w) => w in i.workers
    case TimeoutFires => i.timer && LoopFree(i)
    case IdleCall => i.idleCalls > 0 && LoopFree(i)
    case PoolEvent(e) => Enabled(i.pool, e) && (e.ForceStop? ==> i.inStop)
  }

  function Emit(i: Inst): Inst {
    if i.done then i else i.(done := true, emitted := i.emitted + 1)
  }

  function Happens(i: Inst, e: InstEvent): Inst
    requires Possible(i, e)
  {
    match e
    case ShutdownCalled => if i.shutdown then i else i.(shutdown := true, calling := true)
    case ShutdownArms =>
      i.(calling := false, timer := true, idleCalls := if i.workers == {} then i.idleCalls + 1 else i.idleCalls)
    case WorkerCreated(w) => i.(workers := i.workers + {w})
    case WorkerDestroyed(w) =>
      i.(workers := i.workers - {w},
         idleCalls := if i.workers - {w} == {} && i.shutdown then i.idleCalls + 1 else i.idleCalls)
    case TimeoutFires => Emit(i.(timer := false))
    case IdleCall =>
      var j := i.(idleCalls := i.idleCalls - 1);
      if i.armed then j else j.(armed := true, inStop := true, stops := i.stops + 1)
    case PoolEvent(e) =>
      var j := i.(pool := Step(i.pool, e));
      if e.StopReturns? then Emit(j.(inStop := false)) else j
  }

  ghost predicate InstInv(i: Inst) {
    && Inv(i.pool)
    && i.emitted == (if i.done then 1 else 0)
    && i.stops == (if i.armed then 1 else 0)
    && (i.calling || i.timer || i.done || i.armed || i.idleCalls > 0 ==> i.shutdown)
    && (i.shutdown ==> i.calling || i.timer || i.done)
    && (i.inStop ==> i.armed)
    && (i.armed ==> i.inStop || i.done)
    && (i.pool.stopping ==> i.inStop)
  }

  ghost predicate IsInstRun(states: seq<Inst>, events: seq<InstEvent>) {
    && |states| == |events| + 1
    && forall k :: 0 <= k < |events| ==> GoesTo(states[k], events[k], states[k + 1])
  }

  ghost predicate GoesTo(i: Inst, e: InstEvent, j: Inst) {
    Possible(i, e) && j == Happens(i, e)
  }

  lemma HappensKeepsInv(i: Inst, e: InstEvent)
    requires InstInv(i) && Possible(i, e)
    ensures InstInv(Happens(i, e))
  {
    if e.PoolEvent? {
      StepKeepsInv(i.pool, e.e);
      StoppingChanges(i.pool, e.e);
    }
  }

  lemma StoppingChanges(p: Pool, e: Event)
    requires Enabled(p, e)
    ensures e.ForceStop? ==> Step(p, e).stopping
    ensures e.StopReturns? ==> !Step(p, e).stopping
    ensures !e.ForceStop? && !e.StopReturns? ==> Step(p, e).stopping == p.stopping
  {
  }

  lemma {:induction false} InstRunKeepsInv(states: seq<Inst>, events: seq<InstEvent>, k: nat)
    requires IsInstRun(states, events) && InstInv(states[0]) && k <= |events|
    ensures InstInv(states[k])
    decreases k
  {
    if k > 0 {
      InstRunKeepsInv(states, events, k - 1);
      assert GoesTo(states[k - 1], events[k - 1], states[k]);
      HappensKeepsInv(states[k - 1], events[k - 1]);
    }
  }

  /** Over every order of timeout, worker destruction, repeated Shutdown calls and fiber events:
      ShutdownDone is emitted at most once and only after Shutdown, the pool is stopped at most once,
      and once the timeout has fired, or that one Stop is through, it has been emitted. */
  lemma ShutdownDoneOnce(cap: nat, states: seq<Inst>, events: seq<InstEvent>, k: nat)
    requires IsInstRun(states, events) && states[0] == StartInst(cap) && k <= |events|
    ensures
      var i := states[k];
      && i.emitted <= 1 && i.stops <= 1
      && (i.emitted == 1 ==> i.shutdown)
      && (i.shutdown && !i.calling && !i.timer ==> i.emitted == 1)
      && (i.stops == 1 && !i.inStop ==> i.emitted == 1)
  {
    StartInv(cap);
    InstRunKeepsInv(states, events, k);
  }

  /** The emission that Stop leads to finds every fiber gone and every accepted closure over. */
  lemma IdleEmissionFindsNothingRunning(i: Inst, e: InstEvent)
    requires InstInv(i) && Possible(i, e) && !e.TimeoutFires?
    requires Happens(i, e).emitted > i.emitted
    ensures
      var p := Happens(i, e).pool;
      && p.flying == {} && !p.stopping
      && (forall f :: 0 <= f < |p.fibers| ==> !Active(p.fibers[f]))
      && (forall c :: 0 <= c < |p.places| ==> p.places[c] == Over)
  {
    StopLeavesNothing(i.pool);
  }

  /** The flags of the instance and the code that moves them. */
  class Instance {
    const fibers: FiberPool
    var shutdown: bool
    var shutdownDone: bool
    var shutdownIdleArmed: bool
    var calling: bool
    var inStop: bool
    var timer: bool
    var idleCalls: nat
    var workers: set<nat>
    var emitted: nat
    var stops: nat

    ghost function Now(): Inst
      reads this, fibers
    {
      Inst(shutdown, shutdownDone, shutdownIdleArmed, calling, inStop, timer, idleCalls, workers,
           emitted, stops, fibers.Now())
    }

    constructor (pool: FiberPool)
      requires pool.Now() == Start(pool.pooledFibers)
      ensures fibers == pool && Now() == StartInst(pool.pooledFibers) && InstInv(Now())
    {
      fibers := pool;
      shutdown, shutdownDone, shutdownIdleArmed := false, false, false;
      calling, inStop, timer, idleCalls := false, false, false, 0;
      workers, emitted, stops := {}, 0, 0;
      new;
      StartInv(pool.pooledFibers);
    }

    /** Shutdown up to the point where handlers run and workers are told to go. */
    method BeginShutdown()
      requires InstInv(Now())
      modifies this
      ensures Now() == Happens(old(Now()), ShutdownCalled) && InstInv(Now())
    {
      HappensKeepsInv(Now(), ShutdownCalled);
      if shutdown {
        return;
      }
      shutdown := true;
      calling := true;
    }

    /** The rest of Shutdown: the timeout is armed, and with no worker left the idle path too. */
    method ArmShutdown()
      requires InstInv(Now()) && Possible(Now(), ShutdownArms)
      modifies this
      ensures Now() == Happens(old(Now()), ShutdownArms) && InstInv(Now())
    {
      HappensKeepsInv(Now(), ShutdownArms);
      timer := true;
      if workers == {} {
        idleCalls := idleCalls + 1;
      }
      calling := false;
    }

    method OnWorkerDestroyed(w: nat)
      requires InstInv(Now()) && Possible(Now(), WorkerDestroyed(w))
      modifies this
      ensures Now() == Happens(old(Now()), WorkerDestroyed(w)) && InstInv(Now())
    {
      HappensKeepsInv(Now(), WorkerDestroyed(w));
      workers := workers - {w};
      if workers == {} && shutdown {
        idleCalls := idleCalls + 1;
      }
    }

    method OnTimeout()
      requires InstInv(Now()) && Possible(Now(), TimeoutFires)
      modifies this
      ensures Now() == Happens(old(Now()), TimeoutFires) && InstInv(Now())
    {
      HappensKeepsInv(Now(), TimeoutFires);
      timer := false;
      EmitDone();
    }

    method EmitDone()
      modifies this`shutdownDone, this`emitted
      ensures Now() == Emit(old(Now()))
    {
      var was := shutdownDone;
      shutdownDone := true;
      if !was {
        emitted := emitted + 1;
      }
    }

    /** emitDoneWhenIdle up to its call of Stop. */
    method BeginEmitDoneWhenIdle()
      requires InstInv(Now()) && Possible(Now(), IdleCall)
      modifies this
      ensures Now() == Happens(old(Now()), IdleCall) && InstInv(Now())
    {
      HappensKeepsInv(Now(), IdleCall);
      idleCalls := idleCalls - 1;
      var was := shutdownIdleArmed;
      shutdownIdleArmed := true;
      if was {
        return;
      }
      inStop := true;
      stops := stops + 1;
    }

    /** Stop returns into emitDoneWhenIdle. */
    method EndEmitDoneWhenIdle()
      requires InstInv(Now()) && Possible(Now(), PoolEvent(StopReturns))
      modifies this, fibers
      ensures Now() == Happens(old(Now()), PoolEvent(StopReturns)) && InstInv(Now())
      ensures emitted == 1 && fibers.flying == {}
    {
      HappensKeepsInv(Now(), PoolEvent(StopReturns));
      fibers.EndForcedStop();
      inStop := false;
      EmitDone();
    }
  }
}
