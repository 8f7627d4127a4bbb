/**
 The fiber pool as a step system: what each call and each event does to the pool, and what holds
 over every run.
 */
module FiberRuns {
  import opened Variants

  type Err = nat

  /** Where a fiber's coroutine stands: at the yield on top of its loop, running user code, parked
      in the yield of an await, or ended. */
  datatype Spot = AtTop | InEntry | InAwait | Gone

  /** Fiber::Impl. `attached` is pool != nullptr, `unwind` and `exc` are the two exception pointers,
      `entries` the closures running on the fiber, its own first and those Run inline on it after. */
  datatype Fiber = Fiber(
    busy: bool, unwind: bool, exc: Option<Err>, attached: bool, spot: Spot, entries: seq<nat>)

  /** Where an accepted closure is: running on a fiber, or over. */
  datatype Place = On(fiber: nat) | Over

  datatype Report = Thrown(err: Err) | Logged(err: Err)

  /** FiberPool::Impl with what surrounds it: the current-fiber variable and what the step guard
      saved of it, the futures awaited (`subscribed`), the resumes posted to the event loop, whether
      Stop is past its wait and unwinding the stragglers still left (`doomed`). */
  datatype Pool = Pool(
    cap: nat, parked: seq<nat>, flying: set<nat>, fibers: seq<Fiber>,
    current: Option<nat>, saved: Option<nat>, resumed: bool,
    subscribed: multiset<nat>, posted: seq<(nat, Option<Err>)>,
    stopping: bool, doomed: set<nat>,
    places: seq<Place>, idles: nat, reports: seq<Report>)

  datatype Ending = Returned | ForcedOut | Failed(err: Err)

  datatype Event =
    | Submit                                  // FiberPool::Run
    | Await                                   // Await on the current fiber
    | InnerDone                               // a closure run inline is over
    | EntryDone(how: Ending)                  // the fiber's own closure is over
    | Settle(f: nat, err: Option<Err>)        // an awaited future settles
    | Dispatch                                // the event loop runs the oldest posted resume
    | ForceStop                               // Stop is done waiting
    | UnwindNext(f: nat)                      // Stop destroys the coroutine of a straggler
    | StopReturns

  function Start(cap: nat): Pool {
    Pool(cap, [], {}, [], None, None, false, multiset{}, [], false, {}, [], 0, [])
  }

  /** A fiber is started with the closure that is accepted next. */
  function Started(p: Pool, f: nat): Pool
    requires f < |p.fibers|
  {
    Accept(p.(fibers := p.fibers[f := p.fibers[f].(busy := true, spot := InEntry)],
              flying := p.flying + {f},
              saved := p.current, current := Some(f), resumed := false), f)
  }

  /** The main loop neither runs events while a fiber runs nor while Stop unwinds. */
  predicate Enabled(p: Pool, e: Event) {
    match e
    case Submit =>
      if p.current.Some? then p.current.value < |p.fibers|
      else !p.stopping && (p.parked != [] ==> p.parked[|p.parked| - 1] < |p.fibers|)
    case Await => p.current.Some? && p.current.value < |p.fibers|
    case InnerDone => p.current.Some? && p.current.value < |p.fibers| && |p.fibers[p.current.value].entries| > 1
    case EntryDone(_) => p.current.Some? && p.current.value < |p.fibers| && |p.fibers[p.current.value].entries| == 1
    case Settle(f, _) => p.subscribed[f] > 0
    case Dispatch => p.current.None? && !p.stopping && p.posted != [] && p.posted[0].0 < |p.fibers|
    case ForceStop => p.current.None? && !p.stopping
    case UnwindNext(f) => p.current.None? && p.stopping && f in p.doomed && f < |p.fibers|
    case StopReturns => p.current.None? && p.stopping && p.doomed == {}
  }

  function Accept(p: Pool, f: nat): Pool
    requires f < |p.fibers|
  {
    p.(fibers := p.fibers[f := p.fibers[f].(entries := p.fibers[f].entries + [|p.places|])],
       places := p.places + [On(f)])
  }

  /** FiberPool::Impl::returnFiber; a fiber that does not fit in the pool is dropped. */
  function ReturnFiber(p: Pool, f: nat): Pool
    requires f < |p.fibers|
  {
    var kept := |p.parked| < p.cap;
    p.(parked := if kept then p.parked + [f] else p.parked,
       fibers := if kept then p.fibers else p.fibers[f := p.fibers[f].(spot := Gone)],
       flying := p.flying - {f},
       idles := if p.flying - {f} == {} then p.idles + 1 else p.idles)
  }

  function Step(p: Pool, e: Event): Pool
    requires Enabled(p, e)
  {
    match e
    case Submit =>
      if p.current.Some? then
        (if p.fibers[p.current.value].unwind then p else Accept(p, p.current.value))
      else
        var grow := p.parked == [];
        var f := if grow then |p.fibers| else p.parked[|p.parked| - 1];
        var idle := Fiber(true, false, None, true, AtTop, []);
        var fibers := if grow then p.fibers + [idle] else p.fibers;
        Started(p.(parked := if grow then [] else p.parked[..|p.parked| - 1], fibers := fibers), f)
    case Await =>
      var f := p.current.value;
      if p.fibers[f].unwind then p
      else p.(fibers := p.fibers[f := p.fibers[f].(spot := InAwait)],
              subscribed := p.subscribed + multiset{f},
              current := p.saved)
    case InnerDone => Leave(p, p.current.value)
    case EntryDone(how) =>
      var f := p.current.value;
      var q := Leave(p, f);
      var fiber := q.fibers[f].(busy := false);
      if fiber.unwind then
        q.(fibers := q.fibers[f := fiber.(spot := Gone)], current := p.saved)
      else
        var r := ReturnFiber(q.(fibers := q.fibers[f := fiber.(spot := AtTop)], current := p.saved), f);
        if how.Failed?
        then r.(reports := r.reports + [if p.resumed then Logged(how.err) else Thrown(how.err)])
        else r
    case Settle(f, err) =>
      p.(subscribed := p.subscribed - multiset{f}, posted := p.posted + [(f, err)])
    case Dispatch =>
      var f := p.posted[0].0;
      var q := p.(posted := p.posted[1..]);
      if !p.fibers[f].attached then q
      else q.(fibers := p.fibers[f := p.fibers[f].(spot := InEntry)],
              saved := p.current, current := Some(f), resumed := true)
    case ForceStop =>
      p.(doomed := p.flying, flying := {}, stopping := true)
    case UnwindNext(f) =>
      p.(fibers := p.fibers[f := p.fibers[f].(attached := false, unwind := true, spot := InEntry)],
         doomed := p.doomed - {f}, saved := p.current, current := Some(f))
    case StopReturns => p.(stopping := false)
  }

  /** The innermost closure on a fiber is over. */
  function Leave(p: Pool, f: nat): Pool
    requires f < |p.fibers| && |p.fibers[f].entries| > 0
  {
    var es := p.fibers[f].entries;
    var c := es[|es| - 1];
    p.(fibers := p.fibers[f := p.fibers[f].(entries := es[..|es| - 1])],
       places := if c < |p.places| then p.places[c := Over] else p.places)
  }

  // ---------------------------------------------------------------- the invariant

  predicate Active(fiber: Fiber) {
    fiber.spot == InEntry || fiber.spot == InAwait
  }

  function PostedFor(posted: seq<(nat, Option<Err>)>, f: nat): nat {
    if posted == [] then 0
    else (if posted[0].0 == f then 1 else 0) + PostedFor(posted[1..], f)
  }

  /** Resumes of a fiber still to come: futures it awaits, and events already posted. */
  function Pending(p: Pool, f: nat): nat {
    p.subscribed[f] + PostedFor(p.posted, f)
  }

  predicate NoDup(s: seq<nat>) {
    forall i, j :: 0 <= i < j < |s| ==> s[i] != s[j]
  }

  ghost predicate FiberOk(p: Pool, f: nat)
    requires f < |p.fibers|
  {
    var fiber := p.fibers[f];
    && fiber.exc == None
    && (f in p.flying || f in p.doomed <==> Active(fiber) && fiber.attached)
    && (fiber.spot == InEntry <==> p.current == Some(f))
    && (Active(fiber) ==> fiber.busy)
    && (fiber.spot == InAwait ==> fiber.attached)
    && (fiber.attached <==> !fiber.unwind)
    && (fiber.attached ==> Pending(p, f) == if fiber.spot == InAwait then 1 else 0)
    && (f in p.parked <==> fiber.spot == AtTop)
    && (fiber.spot == AtTop ==> fiber.attached && !fiber.busy)
    && (fiber.entries == [] <==> !Active(fiber))
  }

  ghost predicate EntriesOk(p: Pool, f: nat)
    requires f < |p.fibers|
  {
    var es := p.fibers[f].entries;
    && NoDup(es)
    && (forall c: nat :: c in es <==> c < |p.places| && p.places[c] == On(f))
  }

  ghost predicate Inv(p: Pool) {
    && |p.parked| <= p.cap
    && NoDup(p.parked)
    && (forall f: nat :: f in p.parked ==> f < |p.fibers|)
    && (forall f: nat :: f in p.flying ==> f < |p.fibers|)
    && (forall f: nat :: f in p.doomed ==> f < |p.fibers|)
    && p.flying !! p.doomed
    && (p.current.Some? ==> p.current.value < |p.fibers|)
    && p.saved == None
    && (if p.stopping
        then p.flying == {} && (p.current.Some? ==> p.fibers[p.current.value].unwind)
        else p.doomed == {} && (p.current.Some? ==> p.current.value in p.flying))
    && (forall f: nat :: 0 <= f < |p.fibers| ==> FiberOk(p, f))
    && (forall f: nat :: 0 <= f < |p.fibers| ==> EntriesOk(p, f))
    && (forall c :: 0 <= c < |p.places| ==> p.places[c].Over? || p.places[c].fiber < |p.fibers|)
    && (forall f: nat :: f in p.subscribed ==> f < |p.fibers|)
    && (forall i :: 0 <= i < |p.posted| ==> p.posted[i].0 < |p.fibers|)
  }

  lemma {:induction false} PostedForAppend(posted: seq<(nat, Option<Err>)>, x: (nat, Option<Err>), f: nat)
    ensures PostedFor(posted + [x], f) == PostedFor(posted, f) + if x.0 == f then 1 else 0
  {
    if posted == [] {
      assert (posted + [x])[1..] == [];
    } else {
      assert (posted + [x])[1..] == posted[1..] + [x];
      PostedForAppend(posted[1..], x, f);
    }
  }

  lemma {:induction false} PostedForNone(posted: seq<(nat, Option<Err>)>, f: nat)
    requires forall i :: 0 <= i < |posted| ==> posted[i].0 != f
    ensures PostedFor(posted, f) == 0
  {
    if posted != [] {
      PostedForNone(posted[1..], f);
    }
  }

  lemma PostedForBounds(p: Pool, f: nat)
    requires Inv(p) && f >= |p.fibers|
    ensures Pending(p, f) == 0
  {
    PostedForNone(p.posted, f);
  }

  lemma NoDupSnoc(s: seq<nat>, x: nat)
    requires NoDup(s + [x])
    ensures NoDup(s) && x !in s
  {
    forall i, j | 0 <= i < j < |s| ensures s[i] != s[j] {
      assert (s + [x])[i] == s[i] && (s + [x])[j] == s[j];
    }
    forall i | 0 <= i < |s| ensures s[i] != x {
      assert (s + [x])[i] == s[i] && (s + [x])[|s|] == x;
    }
  }

  lemma SubmitKeepsInv(p: Pool)
    requires Inv(p) && Enabled(p, Submit)
    ensures Inv(Step(p, Submit))
  {
    if p.current.Some? {
      SubmitInlineKeepsInv(p);
    } else if p.parked == [] {
      SubmitOnNewKeepsInv(p);
    } else {
      SubmitOnParkedKeepsInv(p);
    }
  }

  lemma SubmitInlineKeepsInv(p: Pool)
    requires Inv(p) && p.current.Some?
    ensures Inv(Step(p, Submit))
  {
    var q := Step(p, Submit);
    var f := p.current.value;
    assert FiberOk(p, f) && EntriesOk(p, f);
    assert |p.places| !in p.fibers[f].entries;
    forall g | 0 <= g < |q.fibers| ensures FiberOk(q, g) && EntriesOk(q, g) {
      assert FiberOk(p, g) && EntriesOk(p, g);
    }
  }

  lemma SubmitOnNewKeepsInv(p: Pool)
    requires Inv(p) && p.current.None? && !p.stopping && p.parked == []
    ensures Inv(Step(p, Submit))
  {
    var q := Step(p, Submit);
    var f := |p.fibers|;
    PostedForBounds(p, f);
    assert [] + [|p.places|] == [|p.places|];
    assert q.fibers == p.fibers + [Fiber(true, false, None, true, InEntry, [|p.places|])];
    forall g | 0 <= g < |q.fibers| ensures FiberOk(q, g) && EntriesOk(q, g) {
      if g < f { assert FiberOk(p, g) && EntriesOk(p, g); }
    }
  }

  /** The pool after the last parked fiber `f` was taken out and started. */
  function Restarted(p: Pool, rest: seq<nat>, f: nat): Pool
    requires f < |p.fibers|
  {
    p.(parked := rest, flying := p.flying + {f}, current := Some(f), resumed := false,
       fibers := p.fibers[f := Fiber(true, false, None, true, InEntry, [|p.places|])],
       places := p.places + [On(f)])
  }

  lemma SubmitOnParkedKeepsInv(p: Pool)
    requires Inv(p) && Enabled(p, Submit) && p.current.None? && p.parked != []
    ensures Inv(Step(p, Submit))
  {
    var rest, f := p.parked[..|p.parked| - 1], p.parked[|p.parked| - 1];
    assert f in p.parked;
    assert FiberOk(p, f);
    assert p.fibers[f].entries + [|p.places|] == [|p.places|];
    assert Step(p, Submit) == Restarted(p, rest, f);
    assert p.parked == rest + [f];
    RestartedKeepsInv(p, rest, f);
  }

  lemma RestartedKeepsInv(p: Pool, rest: seq<nat>, f: nat)
    requires Inv(p) && p.current.None? && !p.stopping && p.parked == rest + [f] && f < |p.fibers|
    ensures Inv(Restarted(p, rest, f))
  {
    var q := Restarted(p, rest, f);
    NoDupSnoc(rest, f);
    assert f in p.parked;
    forall g: nat | g in rest ensures g in p.parked {
      assert g in rest + [f];
    }
    forall g | 0 <= g < |q.fibers| ensures FiberOk(q, g) {
      assert FiberOk(p, g);
    }
    forall g | 0 <= g < |q.fibers| ensures EntriesOk(q, g) {
      assert FiberOk(p, g) && EntriesOk(p, g);
    }
  }

  lemma AwaitKeepsInv(p: Pool)
    requires Inv(p) && Enabled(p, Await)
    ensures Inv(Step(p, Await))
  {
    var q := Step(p, Await);
    forall g | 0 <= g < |q.fibers| ensures FiberOk(q, g) && EntriesOk(q, g) {
      assert FiberOk(p, g) && EntriesOk(p, g);
    }
  }

  lemma LeaveKeepsEntries(p: Pool, f: nat)
    requires f < |p.fibers| && p.fibers[f].entries != []
    requires forall g: nat :: g < |p.fibers| ==> EntriesOk(p, g)
    ensures forall g: nat :: g < |p.fibers| ==> EntriesOk(Leave(p, f), g)
  {
    var q := Leave(p, f);
    var es := p.fibers[f].entries;
    var c := es[|es| - 1];
    assert EntriesOk(p, f);
    assert c in es;
    assert q.places == p.places[c := Over];
    assert es == es[..|es| - 1] + [c];
    NoDupSnoc(es[..|es| - 1], c);
    forall g: nat | g < |p.fibers| ensures EntriesOk(q, g) {
      assert EntriesOk(p, g);
      if g == f {
        var rest := q.fibers[g].entries;
        forall d: nat ensures d in rest <==> d < |q.places| && q.places[d] == On(g) {
          assert d in es <==> d in rest || d == c;
        }
      } else {
        assert q.fibers[g] == p.fibers[g];
      }
    }
  }

  lemma InnerDoneKeepsInv(p: Pool)
    requires Inv(p) && Enabled(p, InnerDone)
    ensures Inv(Step(p, InnerDone))
  {
    var q := Step(p, InnerDone);
    LeaveKeepsEntries(p, p.current.value);
    forall g | 0 <= g < |q.fibers| ensures FiberOk(q, g) {
      assert FiberOk(p, g);
    }
  }

  lemma EntryDoneKeepsInv(p: Pool, how: Ending)
    requires Inv(p) && Enabled(p, EntryDone(how))
    ensures Inv(Step(p, EntryDone(how)))
  {
    if p.fibers[p.current.value].unwind {
      UnwoundKeepsInv(p, how);
    } else {
      ReturnedKeepsInv(p, how);
    }
  }

  lemma UnwoundKeepsInv(p: Pool, how: Ending)
    requires Inv(p) && Enabled(p, EntryDone(how)) && p.fibers[p.current.value].unwind
    ensures Inv(Step(p, EntryDone(how)))
  {
    var q := Step(p, EntryDone(how));
    var f := p.current.value;
    assert FiberOk(p, f) && EntriesOk(p, f);
    assert p.fibers[f].entries[0] in p.fibers[f].entries;
    assert q.places == p.places[p.fibers[f].entries[0] := Over];
    forall g | 0 <= g < |q.fibers| ensures FiberOk(q, g) && EntriesOk(q, g) {
      assert FiberOk(p, g) && EntriesOk(p, g);
    }
  }

  /** The pool after the closure of fiber `f` ended in the ordinary way. */
  function AfterReturn(p: Pool, f: nat, c: nat, more: seq<Report>): Pool
    requires f < |p.fibers| && c < |p.places|
  {
    var kept := |p.parked| < p.cap;
    p.(fibers := p.fibers[f := Fiber(false, false, None, true, if kept then AtTop else Gone, [])],
       places := p.places[c := Over], parked := if kept then p.parked + [f] else p.parked,
       flying := p.flying - {f}, current := None,
       idles := if p.flying - {f} == {} then p.idles + 1 else p.idles, reports := p.reports + more)
  }

  lemma ReturnedIs(p: Pool, how: Ending)
    requires Inv(p) && Enabled(p, EntryDone(how)) && !p.fibers[p.current.value].unwind
    ensures
      var f := p.current.value;
      var c := p.fibers[f].entries[0];
      && c < |p.places|
      && Step(p, EntryDone(how)) == AfterReturn(p, f, c,
        if how.Failed? then [if p.resumed then Logged(how.err) else Thrown(how.err)] else [])
  {
    var f := p.current.value;
    assert FiberOk(p, f) && EntriesOk(p, f);
    assert p.fibers[f].entries[0] in p.fibers[f].entries;
    assert p.fibers[f].entries[..0] == [];
    assert p.reports + [] == p.reports;
  }

  lemma ReturnedKeepsInv(p: Pool, how: Ending)
    requires Inv(p) && Enabled(p, EntryDone(how)) && !p.fibers[p.current.value].unwind
    ensures Inv(Step(p, EntryDone(how)))
  {
    ReturnedIs(p, how);
    AfterReturnKeepsInv(p, p.current.value, p.fibers[p.current.value].entries[0],
      if how.Failed? then [if p.resumed then Logged(how.err) else Thrown(how.err)] else []);
  }

  lemma AfterReturnKeepsInv(p: Pool, f: nat, c: nat, more: seq<Report>)
    requires Inv(p) && p.current == Some(f) && f < |p.fibers| && !p.fibers[f].unwind
    requires p.fibers[f].entries == [c] && c < |p.places|
    ensures Inv(AfterReturn(p, f, c, more))
  {
    var q := AfterReturn(p, f, c, more);
    assert FiberOk(p, f) && EntriesOk(p, f);
    assert c in p.fibers[f].entries;
    forall g | 0 <= g < |q.fibers| ensures FiberOk(q, g) {
      assert FiberOk(p, g);
    }
    forall g | 0 <= g < |q.fibers| ensures EntriesOk(q, g) {
      assert EntriesOk(p, g);
    }
  }

  lemma SettleKeepsInv(p: Pool, f: nat, err: Option<Err>)
    requires Inv(p) && Enabled(p, Settle(f, err))
    ensures Inv(Step(p, Settle(f, err)))
  {
    var q := Step(p, Settle(f, err));
    forall g | 0 <= g < |q.fibers| ensures FiberOk(q, g) && EntriesOk(q, g) {
      assert FiberOk(p, g) && EntriesOk(p, g);
      PostedForAppend(p.posted, (f, err), g);
    }
  }

  lemma DispatchKeepsInv(p: Pool)
    requires Inv(p) && Enabled(p, Dispatch)
    ensures Inv(Step(p, Dispatch))
  {
    var q := Step(p, Dispatch);
    assert FiberOk(p, p.posted[0].0);
    forall g | 0 <= g < |q.fibers| ensures FiberOk(q, g) && EntriesOk(q, g) {
      assert FiberOk(p, g) && EntriesOk(p, g);
    }
  }

  lemma StopKeepsInv(p: Pool, e: Event)
    requires Inv(p) && Enabled(p, e) && (e.ForceStop? || e.UnwindNext? || e.StopReturns?)
    ensures Inv(Step(p, e))
  {
    var q := Step(p, e);
    forall g | 0 <= g < |q.fibers| ensures FiberOk(q, g) && EntriesOk(q, g) {
      assert FiberOk(p, g) && EntriesOk(p, g);
    }
  }

  /** Every step of every run keeps the invariant. */
  lemma StepKeepsInv(p: Pool, e: Event)
    requires Inv(p) && Enabled(p, e)
    ensures Inv(Step(p, e))
  {
    match e
    case Submit => SubmitKeepsInv(p);
    case Await => AwaitKeepsInv(p);
    case InnerDone => InnerDoneKeepsInv(p);
    case EntryDone(how) => EntryDoneKeepsInv(p, how);
    case Settle(f, err) => SettleKeepsInv(p, f, err);
    case Dispatch => DispatchKeepsInv(p);
    case _ => StopKeepsInv(p, e);
  }

  // ---------------------------------------------------------------- runs

  /** The states a run goes through, as long as the events that happen are possible. */
  ghost predicate IsRun(states: seq<Pool>, events: seq<Event>) {
    && |states| == |events| + 1
    && forall i :: 0 <= i < |events| ==> StepsTo(states[i], events[i], states[i + 1])
  }

  ghost predicate StepsTo(p: Pool, e: Event, q: Pool) {
    Enabled(p, e) && q == Step(p, e)
  }

  lemma StartInv(cap: nat)
    ensures Inv(Start(cap))
  {
  }

  lemma {:induction false} RunKeepsInv(states: seq<Pool>, events: seq<Event>, i: nat)
    requires IsRun(states, events) && Inv(states[0]) && i <= |events|
    ensures Inv(states[i])
    decreases i
  {
    if i > 0 {
      RunKeepsInv(states, events, i - 1);
      assert StepsTo(states[i - 1], events[i - 1], states[i]);
      StepKeepsInv(states[i - 1], events[i - 1]);
    }
  }

  /** Over every run of a fresh pool: parked and flying fibers are disjoint, the parked ones fit the
      cap, and outside of a forced stop a fiber is flying exactly while its entry is started and not
      over. */
  lemma PoolSafety(cap: nat, states: seq<Pool>, events: seq<Event>, i: nat)
    requires IsRun(states, events) && states[0] == Start(cap) && i <= |events|
    ensures
      var p := states[i];
      && |p.parked| <= p.cap == cap
      && (forall f :: f in p.parked ==> f !in p.flying && f < |p.fibers| && p.fibers[f].spot == AtTop)
      && (!p.stopping ==> forall f :: 0 <= f < |p.fibers| ==> (f in p.flying <==> p.fibers[f].entries != []))
  {
    StartInv(cap);
    RunKeepsInv(states, events, i);
    CapKept(states, events, i);
    PoolFacts(states[i]);
  }

  lemma PoolFacts(p: Pool)
    requires Inv(p)
    ensures forall f :: f in p.parked ==> f !in p.flying && f < |p.fibers| && p.fibers[f].spot == AtTop
    ensures !p.stopping ==> forall f :: 0 <= f < |p.fibers| ==> (f in p.flying <==> p.fibers[f].entries != [])
  {
    forall f | f in p.parked ensures f !in p.flying && f < |p.fibers| && p.fibers[f].spot == AtTop {
      assert FiberOk(p, f);
    }
    forall f | 0 <= f < |p.fibers|
      ensures !p.stopping ==> (f in p.flying <==> p.fibers[f].entries != [])
    {
      assert FiberOk(p, f);
    }
  }

  lemma {:induction false} CapKept(states: seq<Pool>, events: seq<Event>, i: nat)
    requires IsRun(states, events) && i <= |events|
    ensures states[i].cap == states[0].cap
    decreases i
  {
    if i > 0 {
      CapKept(states, events, i - 1);
      assert StepsTo(states[i - 1], events[i - 1], states[i]);
    }
  }

  /** Whenever control comes back from a fiber the current-fiber variable is what it was before the
      fiber was entered, and every step guard that is open belongs to the fiber that runs. */
  lemma CurrentRestored(p: Pool, e: Event)
    requires Inv(p) && Enabled(p, e)
    ensures
      var q := Step(p, e);
      && (p.current.None? && q.current.Some? ==> q.saved == p.current)
      && (p.current.Some? && q.current != p.current ==> q.current == p.saved == None)
      && (p.current == None ==> q.current.Some? ==> q.fibers[q.current.value].spot == InEntry)
  {
    StepKeepsInv(p, e);
    var q := Step(p, e);
    if q.current.Some? {
      assert FiberOk(q, q.current.value);
    }
  }

  /** The idle signal is emitted exactly by the steps in which the last flying fiber comes back; the
      forced stop takes the fibers away without it. */
  lemma IdleExactly(p: Pool, e: Event)
    requires Inv(p) && Enabled(p, e)
    ensures
      var q := Step(p, e);
      && (q.idles == p.idles || q.idles == p.idles + 1)
      && (q.idles == p.idles + 1 <==> p.flying != {} && q.flying == {} && !e.ForceStop?)
  {
    if e.EntryDone? {
      assert FiberOk(p, p.current.value);
      if !p.fibers[p.current.value].unwind {
        ReturnedIs(p, e.how);
      }
    }
  }

  /** A posted resume finds its fiber suspended in the await that asked for it, or detached. */
  lemma ResumeFindsItsAwait(p: Pool)
    requires Inv(p) && Enabled(p, Dispatch)
    ensures
      var fiber := p.fibers[p.posted[0].0];
      if fiber.attached
      then fiber.spot == InAwait && fiber.busy && Pending(p, p.posted[0].0) == 1 && fiber.entries != []
      else Step(p, Dispatch) == p.(posted := p.posted[1..])
  {
    var f := p.posted[0].0;
    assert FiberOk(p, f);
    assert PostedFor(p.posted, f) > 0;
  }

  // -- each accepted closure runs exactly once

  /** A step starts at most one closure, and it is over at most once: closures that are over stay
      over, and one not over stays on the fiber it was started on. */
  lemma ClosureLedger(p: Pool, e: Event)
    requires Inv(p) && Enabled(p, e)
    ensures
      var q := Step(p, e);
      && |p.places| <= |q.places| <= |p.places| + 1
      && (|q.places| > |p.places| ==> e == Submit && q.current.Some? && q.places[|p.places|] == On(q.current.value))
      && (e == Submit && |q.places| == |p.places| ==> p.current.Some? && p.fibers[p.current.value].unwind)
      && (forall c :: 0 <= c < |p.places| ==>
            || q.places[c] == p.places[c]
            || (q.places[c] == Over && p.current.Some? && p.places[c] == On(p.current.value)))
  {
    if p.current.Some? {
      var f := p.current.value;
      assert FiberOk(p, f) && EntriesOk(p, f);
      if e.InnerDone? || e.EntryDone? {
        var es := p.fibers[f].entries;
        assert es[|es| - 1] in es;
      }
    }
  }

  /** No closure is lost: at any time an accepted closure runs on exactly one fiber that is flying or
      being unwound, or it is over. */
  lemma ClosureConserved(p: Pool, c: nat)
    requires Inv(p) && c < |p.places| && !p.places[c].Over?
    ensures
      var f := p.places[c].fiber;
      && f < |p.fibers| && c in p.fibers[f].entries
      && (f in p.flying || f in p.doomed || p.current == Some(f))
      && forall g :: 0 <= g < |p.fibers| && c in p.fibers[g].entries ==> g == f
  {
    var f := p.places[c].fiber;
    assert EntriesOk(p, f) && FiberOk(p, f);
    forall g | 0 <= g < |p.fibers| && c in p.fibers[g].entries ensures g == f {
      assert EntriesOk(p, g);
    }
  }

  // -- forced teardown

  /** A fiber that Stop is unwinding: it is out of the pool for good. */
  predicate TornDown(p: Pool, f: nat) {
    f < |p.fibers| && p.fibers[f].unwind && !p.fibers[f].attached && p.fibers[f].spot != InAwait
  }

  /** From then on an await on it does not suspend, a Run made from it starts nothing, and a resume
      still queued for it does nothing. */
  lemma TornDownIsInert(p: Pool, f: nat)
    requires Inv(p) && TornDown(p, f)
    ensures p.current == Some(f) ==> Step(p, Await) == p && Step(p, Submit) == p
    ensures p.posted != [] && p.posted[0].0 == f && Enabled(p, Dispatch) ==>
      Step(p, Dispatch) == p.(posted := p.posted[1..])
    ensures f !in p.flying && f !in p.doomed && f !in p.parked
  {
    assert FiberOk(p, f);
  }

  lemma TornDownStays(p: Pool, e: Event, f: nat)
    requires Inv(p) && Enabled(p, e) && TornDown(p, f)
    ensures TornDown(Step(p, e), f)
    ensures |Step(p, e).fibers[f].entries| <= |p.fibers[f].entries|
  {
    assert FiberOk(p, f);
    match e
    case Submit => TornDownNotReused(p, f);
    case Dispatch => assert FiberOk(p, p.posted[0].0);
    case UnwindNext(g) => assert FiberOk(p, g);
    case _ =>
  }

  lemma TornDownNotReused(p: Pool, f: nat)
    requires Inv(p) && Enabled(p, Submit) && TornDown(p, f)
    ensures TornDown(Step(p, Submit), f) && |Step(p, Submit).fibers[f].entries| <= |p.fibers[f].entries|
  {
    assert FiberOk(p, f);
    if p.current.None? && p.parked != [] {
      assert p.parked[|p.parked| - 1] in p.parked;
      assert FiberOk(p, p.parked[|p.parked| - 1]);
    }
  }

  /** The fiber is torn down and has at most `n` closures to leave. */
  ghost predicate Leaving(p: Pool, f: nat, n: nat) {
    TornDown(p, f) && |p.fibers[f].entries| <= n
  }

  lemma LeavingStays(p: Pool, e: Event, q: Pool, f: nat, n: nat)
    requires Inv(p) && Enabled(p, e) && q == Step(p, e) && Leaving(p, f, n)
    ensures Leaving(q, f, n)
  {
    TornDownStays(p, e, f);
  }

  lemma LeavingNext(states: seq<Pool>, events: seq<Event>, k: nat, f: nat, n: nat)
    requires IsRun(states, events) && Inv(states[0]) && k < |events| && Leaving(states[k], f, n)
    ensures Leaving(states[k + 1], f, n)
  {
    RunStep(states, events, k);
    LeavingStays(states[k], events[k], states[k + 1], f, n);
  }

  lemma {:induction false} TornDownForGood(states: seq<Pool>, events: seq<Event>, i: nat, j: nat, f: nat, n: nat)
    requires IsRun(states, events) && Inv(states[0]) && i <= j <= |events| && Leaving(states[i], f, n)
    ensures Leaving(states[j], f, n)
    decreases j
  {
    if j > i {
      TornDownForGood(states, events, i, j - 1, f, n);
      LeavingNext(states, events, j - 1, f, n);
    }
  }

  lemma RunStep(states: seq<Pool>, events: seq<Event>, i: nat)
    requires IsRun(states, events) && Inv(states[0]) && i < |events|
    ensures Inv(states[i]) && Enabled(states[i], events[i]) && states[i + 1] == Step(states[i], events[i])
  {
    RunKeepsInv(states, events, i);
    assert StepsTo(states[i], events[i], states[i + 1]);
  }

  /** Over every later run, whatever user code catches: the fiber never suspends, accepts or comes
      back to the pool again. */
  lemma TeardownIsFinal(states: seq<Pool>, events: seq<Event>, i: nat, j: nat, f: nat)
    requires IsRun(states, events) && Inv(states[0]) && i <= j <= |events| && TornDown(states[i], f)
    ensures TornDown(states[j], f) && f !in states[j].flying && f !in states[j].parked
    ensures j < |events| && states[j].current == Some(f) && (events[j] == Await || events[j] == Submit) ==>
      states[j + 1] == states[j]
  {
    TornDownForGood(states, events, i, j, f, |states[i].fibers[f].entries|);
    RunKeepsInv(states, events, j);
    TornDownIsInert(states[j], f);
    if j < |events| {
      assert StepsTo(states[j], events[j], states[j + 1]);
    }
  }

  /** Unwinding a straggler makes it torn down, with its closures still to be left one by one. */
  lemma UnwindTearsDown(p: Pool, f: nat)
    requires Inv(p) && Enabled(p, UnwindNext(f))
    ensures TornDown(Step(p, UnwindNext(f)), f)
    ensures p.fibers[f].spot == InAwait && p.fibers[f].entries != []
    ensures Step(p, UnwindNext(f)).current == Some(f)
  {
    assert FiberOk(p, f);
  }

  /** While Stop unwinds, no closure is accepted and no fiber starts flying. */
  lemma NothingStartsWhileStopping(p: Pool, e: Event)
    requires Inv(p) && Enabled(p, e) && p.stopping
    ensures Step(p, e).places == p.places || !e.Submit?
    ensures |Step(p, e).places| == |p.places| && Step(p, e).flying == {}
    ensures Step(p, e).doomed <= p.doomed
  {
    if p.current.Some? {
      assert FiberOk(p, p.current.value);
    }
  }

  /** When Stop returns no fiber is flying, none is suspended or running, and every closure ever
      accepted is over. */
  lemma StopLeavesNothing(p: Pool)
    requires Inv(p) && Enabled(p, StopReturns)
    ensures p.flying == {}
    ensures forall f :: 0 <= f < |p.fibers| ==> !Active(p.fibers[f])
    ensures forall c :: 0 <= c < |p.places| ==> p.places[c] == Over
  {
    forall f | 0 <= f < |p.fibers| ensures !Active(p.fibers[f]) {
      assert FiberOk(p, f);
    }
    forall c | 0 <= c < |p.places| ensures p.places[c] == Over {
      if !p.places[c].Over? {
        ClosureConserved(p, c);
      }
    }
  }

  // ---------------------------------------------------------------- errors

  /** The closure that the event ends by an error on a fiber that is not being unwound. */
  function Failing(p: Pool, e: Event): Option<nat> {
    if e.EntryDone? && e.how.Failed? && p.current.Some? && p.current.value < |p.fibers|
       && !p.fibers[p.current.value].unwind && |p.fibers[p.current.value].entries| == 1
    then Some(p.fibers[p.current.value].entries[0])
    else None
  }

  ghost predicate Fails(p: Pool, e: Event, c: nat) {
    Failing(p, e) == Some(c)
  }

  /** The fiber that was started with closure `c` suspends. */
  ghost predicate Suspends(p: Pool, e: Event, c: nat) {
    && e == Await && p.current.Some? && p.current.value < |p.fibers|
    && !p.fibers[p.current.value].unwind
    && p.fibers[p.current.value].entries != [] && p.fibers[p.current.value].entries[0] == c
  }

  ghost predicate SuspendedBefore(states: seq<Pool>, events: seq<Event>, i: nat, c: nat)
    requires i <= |events| && |states| == |events| + 1
  {
    i > 0 && (Suspends(states[i - 1], events[i - 1], c) || SuspendedBefore(states, events, i - 1, c))
  }

  /** The report the failure of a closure deserves: to the caller of Run as long as Run has not returned, that is
      unless the fiber was suspended since; to the log after that. */
  ghost function Due(states: seq<Pool>, events: seq<Event>, i: nat, c: nat): Report
    requires i < |events| && |states| == |events| + 1 && Fails(states[i], events[i], c)
  {
    if SuspendedBefore(states, events, i, c) then Logged(events[i].how.err) else Thrown(events[i].how.err)
  }

  /** The reports due for the closures that failed in the first `n` events, in that order. */
  ghost function DueReports(states: seq<Pool>, events: seq<Event>, n: nat): seq<Report>
    requires n <= |events| && |states| == |events| + 1
  {
    if n == 0 then []
    else
      var before := DueReports(states, events, n - 1);
      match Failing(states[n - 1], events[n - 1])
      case None => before
      case Some(c) => before + [Due(states, events, n - 1, c)]
  }

  /** Whether the fiber in front was resumed is whether it was suspended since its closure started. */
  ghost predicate MarksOk(states: seq<Pool>, events: seq<Event>, i: nat)
    requires i <= |events| && |states| == |events| + 1
  {
    var p := states[i];
    && (forall f :: 0 <= f < |p.fibers| && p.fibers[f].spot == InAwait && p.fibers[f].entries != [] ==>
          SuspendedBefore(states, events, i, p.fibers[f].entries[0]))
    && (Live(p) ==> (p.resumed <==> SuspendedBefore(states, events, i, p.fibers[p.current.value].entries[0])))
    && (forall c :: c >= |p.places| ==> !SuspendedBefore(states, events, i, c))
  }

  /** A fiber runs a closure and is not being unwound. */
  predicate Live(p: Pool) {
    && p.current.Some? && p.current.value < |p.fibers|
    && p.fibers[p.current.value].entries != [] && !p.fibers[p.current.value].unwind
  }

  lemma SameMarks(states: seq<Pool>, events: seq<Event>, i: nat, n: nat)
    requires |states| == |events| + 1 && n == i + 1 && i < |events|
    requires forall c :: !Suspends(states[i], events[i], c)
    ensures forall c
      {:trigger SuspendedBefore(states, events, i, c)} {:trigger SuspendedBefore(states, events, n, c)} ::
      SuspendedBefore(states, events, n, c) <==> SuspendedBefore(states, events, i, c)
  {
  }

  lemma OtherMarks(states: seq<Pool>, events: seq<Event>, i: nat, n: nat, c: nat)
    requires |states| == |events| + 1 && n == i + 1 && i < |events| && Suspends(states[i], events[i], c)
    ensures SuspendedBefore(states, events, n, c)
    ensures forall d
      {:trigger SuspendedBefore(states, events, i, d)} {:trigger SuspendedBefore(states, events, n, d)} ::
      d != c ==> (SuspendedBefore(states, events, n, d) <==> SuspendedBefore(states, events, i, d))
  {
  }

  ghost predicate MarkedStep(states: seq<Pool>, events: seq<Event>, i: nat) {
    && |states| == |events| + 1 && i < |events|
    && Inv(states[i]) && Enabled(states[i], events[i]) && states[i + 1] == Step(states[i], events[i])
    && MarksOk(states, events, i)
  }

  lemma MarksStep(states: seq<Pool>, events: seq<Event>, i: nat)
    requires MarkedStep(states, events, i)
    ensures MarksOk(states, events, i + 1)
  {
    match events[i]
    case Submit => MarksSubmit(states, events, i);
    case Await => MarksAwait(states, events, i);
    case InnerDone => MarksDone(states, events, i);
    case EntryDone(_) => MarksDone(states, events, i);
    case Dispatch => MarksDispatch(states, events, i);
    case _ => MarksElsewhere(states, events, i);
  }

  lemma MarksSubmit(states: seq<Pool>, events: seq<Event>, i: nat)
    requires MarkedStep(states, events, i) && events[i] == Submit
    ensures MarksOk(states, events, i + 1)
  {
    var p := states[i];
    if p.current.Some? {
      assert FiberOk(p, p.current.value);
    } else if p.parked != [] {
      assert p.parked[|p.parked| - 1] in p.parked;
      assert FiberOk(p, p.parked[|p.parked| - 1]);
    }
    SameMarks(states, events, i, i + 1);
  }

  lemma MarksDone(states: seq<Pool>, events: seq<Event>, i: nat)
    requires MarkedStep(states, events, i) && (events[i].InnerDone? || events[i].EntryDone?)
    ensures MarksOk(states, events, i + 1)
  {
    var p := states[i];
    assert FiberOk(p, p.current.value);
    SameMarks(states, events, i, i + 1);
  }

  lemma MarksElsewhere(states: seq<Pool>, events: seq<Event>, i: nat)
    requires MarkedStep(states, events, i)
    requires events[i].Settle? || events[i].ForceStop? || events[i].UnwindNext? || events[i].StopReturns?
    ensures MarksOk(states, events, i + 1)
  {
    SameMarks(states, events, i, i + 1);
  }

  lemma MarksAwait(states: seq<Pool>, events: seq<Event>, i: nat)
    requires MarkedStep(states, events, i) && events[i] == Await
    ensures MarksOk(states, events, i + 1)
  {
    var p := states[i];
    var f := p.current.value;
    assert FiberOk(p, f) && EntriesOk(p, f);
    if p.fibers[f].unwind {
      SameMarks(states, events, i, i + 1);
    } else {
      var c := p.fibers[f].entries[0];
      assert c in p.fibers[f].entries && c < |p.places|;
      assert Suspends(p, Await, c);
      OtherMarks(states, events, i, i + 1, c);
      assert states[i + 1].current == None;
      assert states[i + 1].fibers[f].entries[0] == c;
    }
  }

  lemma MarksDispatch(states: seq<Pool>, events: seq<Event>, i: nat)
    requires MarkedStep(states, events, i) && events[i] == Dispatch
    ensures MarksOk(states, events, i + 1)
  {
    var p := states[i];
    var f := p.posted[0].0;
    assert FiberOk(p, f);
    if p.fibers[f].attached {
      ResumeFindsItsAwait(p);
      var q := states[i + 1];
      assert q.current == Some(f) && q.resumed && q.fibers[f].entries == p.fibers[f].entries;
      assert SuspendedBefore(states, events, i, p.fibers[f].entries[0]);
    }
    SameMarks(states, events, i, i + 1);
  }

  lemma MarksAtStart(cap: nat, states: seq<Pool>, events: seq<Event>)
    requires |states| == |events| + 1 && states[0] == Start(cap)
    ensures MarksOk(states, events, 0)
  {
  }

  lemma NextMarks(states: seq<Pool>, events: seq<Event>, i: nat)
    requires IsRun(states, events) && Inv(states[0]) && i < |events| && MarksOk(states, events, i)
    ensures MarksOk(states, events, i + 1)
  {
    RunStep(states, events, i);
    MarksStep(states, events, i);
  }

  lemma {:induction false} RunMarks(cap: nat, states: seq<Pool>, events: seq<Event>, i: nat)
    requires IsRun(states, events) && states[0] == Start(cap) && i <= |events|
    ensures MarksOk(states, events, i)
    decreases i
  {
    if i == 0 {
      MarksAtStart(cap, states, events);
    } else {
      StartInv(cap);
      RunMarks(cap, states, events, i - 1);
      NextMarks(states, events, i - 1);
    }
  }

  lemma StepReports(p: Pool, e: Event)
    requires Inv(p) && Enabled(p, e)
    ensures Failing(p, e).Some? <==> e.EntryDone? && e.how.Failed? && !p.fibers[p.current.value].unwind
    ensures Step(p, e).reports ==
      if Failing(p, e).None? then p.reports
      else p.reports + [if p.resumed then Logged(e.how.err) else Thrown(e.how.err)]
  {
    if e.EntryDone? && !p.fibers[p.current.value].unwind {
      ReturnedIs(p, e.how);
    }
  }

  /** Over every run of a fresh pool the reports are exactly those due: one for each closure that failed on a
      fiber not being unwound, in the order of the failures, to the caller of Run exactly if the fiber never was
      suspended since the closure started. */
  lemma {:induction false} ErrorsReportedOnce(cap: nat, states: seq<Pool>, events: seq<Event>, n: nat)
    requires IsRun(states, events) && states[0] == Start(cap) && n <= |events|
    ensures states[n].reports == DueReports(states, events, n)
    decreases n
  {
    if n > 0 {
      StartInv(cap);
      ErrorsReportedOnce(cap, states, events, n - 1);
      RunMarks(cap, states, events, n - 1);
      RunStep(states, events, n - 1);
      NextReports(states, events, n - 1);
    }
  }

  lemma NextReports(states: seq<Pool>, events: seq<Event>, n: nat)
    requires MarkedStep(states, events, n) && states[n].reports == DueReports(states, events, n)
    ensures states[n + 1].reports == DueReports(states, events, n + 1)
  {
    StepReports(states[n], events[n]);
  }

  /** A closure fails at most once over a run. */
  lemma FailsOnce(cap: nat, states: seq<Pool>, events: seq<Event>, i: nat, j: nat, c: nat)
    requires IsRun(states, events) && states[0] == Start(cap) && i < j < |events| && Fails(states[i], events[i], c)
    ensures !Fails(states[j], events[j], c)
  {
    StartInv(cap);
    RunStep(states, events, i);
    RunStep(states, events, j);
    FailedIsOver(states[i], events[i], c);
    OverStays(states, events, i + 1, j, c);
    if Fails(states[j], events[j], c) {
      FailingRuns(states[j], events[j], c);
    }
  }

  lemma FailingRuns(p: Pool, e: Event, c: nat)
    requires Inv(p) && Fails(p, e, c)
    ensures c < |p.places| && p.places[c] == On(p.current.value)
  {
    assert EntriesOk(p, p.current.value);
    assert c in p.fibers[p.current.value].entries;
  }

  lemma FailedIsOver(p: Pool, e: Event, c: nat)
    requires Inv(p) && Enabled(p, e) && Fails(p, e, c)
    ensures IsOver(Step(p, e), c)
  {
    FailingRuns(p, e, c);
    ReturnedIs(p, e.how);
  }

  ghost predicate IsOver(p: Pool, c: nat) {
    c < |p.places| && p.places[c] == Over
  }

  lemma OverNext(p: Pool, e: Event, c: nat)
    requires Inv(p) && Enabled(p, e) && IsOver(p, c)
    ensures IsOver(Step(p, e), c)
  {
    ClosureLedger(p, e);
  }

  lemma OverNextIn(states: seq<Pool>, events: seq<Event>, k: nat, c: nat)
    requires IsRun(states, events) && Inv(states[0]) && k < |events| && IsOver(states[k], c)
    ensures IsOver(states[k + 1], c)
  {
    RunStep(states, events, k);
    OverNext(states[k], events[k], c);
  }

  lemma {:induction false} OverStays(states: seq<Pool>, events: seq<Event>, i: nat, j: nat, c: nat)
    requires IsRun(states, events) && Inv(states[0]) && i <= j <= |events| && IsOver(states[i], c)
    ensures IsOver(states[j], c)
    decreases j, 0
  {
    if j > i {
      OverStaysOn(states, events, i, j - 1, c);
    }
  }

  lemma {:induction false} OverStaysOn(states: seq<Pool>, events: seq<Event>, i: nat, j: nat, c: nat)
    requires IsRun(states, events) && Inv(states[0]) && i <= j < |events| && IsOver(states[i], c)
    ensures IsOver(states[j + 1], c)
    decreases j, 1
  {
    OverStays(states, events, i, j, c);
    OverNextIn(states, events, j, c);
  }
}
