/**
 The request queues of a Modbus device and the retries of its writes, as steps on values. A queue that is
 full calls back the request it removes before it removes it; for a write that callback retries at once,
 into the queue that is still full.
 */
module RequestRuns {
  import opened Variants

  // ---------------------------------------------------------------- requests

  /** Requests are numbered in the order they are made, reads and writes each on their own. */
  datatype Read = Read(no: nat, run: nat)

  datatype Write = Write(no: nat, key: string, unit: nat)

  datatype Overflow = PopFirst | PopLast

  datatype Config = Config(maxRead: nat, maxWrite: nat, onRead: Overflow, onWrite: Overflow, writeRetries: nat)

  /** With a limit of zero the device takes the front of an empty queue. */
  predicate Sound(c: Config) {
    c.maxRead >= 1 && c.maxWrite >= 1
  }

  datatype Outcome = Done | Failed | NotSent | Removed

  /** A callback that was run. */
  datatype Call = Call(no: nat, outcome: Outcome)

  /** What a master remembers about the last write to a register. */
  datatype Flight = Flight(unit: nat, retriesLeft: nat)

  datatype Flying = FlyingRead(read: Read) | FlyingWrite(write: Write)

  datatype State = State(
    readQueue: seq<Read>,
    writeQueue: seq<Write>,
    flying: Option<Flying>,
    inFlight: map<string, Flight>,
    readsMade: nat,
    writesMade: nat,
    readCalls: seq<Call>,
    writeCalls: seq<Call>)

  const START := State([], [], None, map[], 0, 0, [], [])

  function Left(m: map<string, Flight>, key: string): nat {
    if key in m then m[key].retriesLeft else 0
  }

  function Drained(m: map<string, Flight>, key: string): map<string, Flight> {
    if key in m then m[key := m[key].(retriesLeft := 0)] else m
  }

  function Repeat(c: Call, n: nat): (calls: seq<Call>)
    ensures |calls| == n
  {
    if n == 0 then [] else [c] + Repeat(c, n - 1)
  }

  /** `r` retries of a write: the one made last is queued first. */
  function Backward(key: string, unit: nat, from: nat, r: nat): (retries: seq<Write>)
    ensures |retries| == r
    decreases r
  {
    if r == 0 then [] else Backward(key, unit, from + 1, r - 1) + [Write(from, key, unit)]
  }

  // ---------------------------------------------------------------- what the operations do

  predicate Full(c: Config, d: State) {
    |d.writeQueue| >= c.maxWrite
  }

  function Victim(c: Config, d: State): Write
    requires Sound(c) && Full(c, d)
  {
    if c.onWrite == PopFirst then d.writeQueue[0] else d.writeQueue[|d.writeQueue| - 1]
  }

  function UnitOf(m: map<string, Flight>, key: string): nat {
    if key in m then m[key].unit else 0
  }

  /** Queueing a write. In a full queue the removed write is called back once for each of its retries and
      once more; each retry goes through the full queue itself. */
  function Pushed(c: Config, d: State, req: Write): State
    requires Sound(c)
  {
    if !Full(c, d) then d.(writeQueue := d.writeQueue + [req])
    else
      var victim := Victim(c, d);
      var r := Left(d.inFlight, victim.key);
      var retries := Backward(victim.key, UnitOf(d.inFlight, victim.key), d.writesMade, r);
      d.(writeQueue := if c.onWrite == PopFirst then (d.writeQueue + retries + [req])[r + 1..]
                       else d.writeQueue[..|d.writeQueue| - 1] + [req],
         inFlight := Drained(d.inFlight, victim.key),
         writesMade := d.writesMade + r,
         writeCalls := d.writeCalls + Repeat(Call(victim.no, Removed), r + 1))
  }

  function Wrote(c: Config, d: State, key: string, unit: nat): State
    requires Sound(c)
  {
    Pushed(c, d.(writesMade := d.writesMade + 1), Write(d.writesMade, key, unit))
  }

  /** One retry fewer for a register. */
  function Spent(d: State, key: string): State
    requires key in d.inFlight && d.inFlight[key].retriesLeft > 0
  {
    d.(inFlight := d.inFlight[key := d.inFlight[key].(retriesLeft := d.inFlight[key].retriesLeft - 1)])
  }

  function Retried(c: Config, d: State, key: string): State
    requires Sound(c)
  {
    if Left(d.inFlight, key) == 0 then d else Wrote(c, Spent(d, key), key, d.inFlight[key].unit)
  }

  /** The callback of a write. */
  function Answered(c: Config, d: State, req: Write, outcome: Outcome): State
    requires Sound(c)
  {
    var called := d.(writeCalls := d.writeCalls + [Call(req.no, outcome)]);
    if outcome == Done then called.(inFlight := called.inFlight - {req.key}) else Retried(c, called, req.key)
  }

  /** Queueing a read; its callback only logs or reports. */
  function PushedRead(c: Config, d: State, req: Read): State
    requires Sound(c)
  {
    if |d.readQueue| < c.maxRead then d.(readQueue := d.readQueue + [req])
    else if c.onRead == PopFirst then
      d.(readQueue := d.readQueue[1..] + [req], readCalls := d.readCalls + [Call(d.readQueue[0].no, Removed)])
    else
      d.(readQueue := d.readQueue[..|d.readQueue| - 1] + [req],
         readCalls := d.readCalls + [Call(d.readQueue[|d.readQueue| - 1].no, Removed)])
  }

  // ---------------------------------------------------------------- runs

  datatype Event =
    | Poll(run: nat)                       // the poll timer asks for one run of registers
    | Message(key: string, unit: nat)      // a message writes a register
    | Next(sent: bool)                     // the frame timer; whether the bus takes the request
    | Finish(ok: bool)                     // the reply to the request in flight

  predicate Enabled(d: State, e: Event) {
    e.Finish? ==> d.flying.Some?
  }

  function Noted(c: Config, d: State, key: string, unit: nat): State {
    d.(inFlight := d.inFlight[key := Flight(unit, c.writeRetries)])
  }

  function Step(c: Config, d: State, e: Event): State
    requires Sound(c) && Enabled(d, e)
  {
    match e
    case Poll(run) => PushedRead(c, d.(readsMade := d.readsMade + 1), Read(d.readsMade, run))
    case Message(key, unit) => Wrote(c, Noted(c, d, key, unit), key, unit)
    case Next(sent) =>
      if d.flying.Some? then d
      else if d.writeQueue != [] then
        var req, rest := d.writeQueue[0], d.(writeQueue := d.writeQueue[1..]);
        if sent then rest.(flying := Some(FlyingWrite(req))) else Answered(c, rest, req, NotSent)
      else if d.readQueue != [] then
        var req, rest := d.readQueue[0], d.(readQueue := d.readQueue[1..]);
        if sent then rest.(flying := Some(FlyingRead(req)))
        else rest.(readCalls := rest.readCalls + [Call(req.no, NotSent)])
      else d
    case Finish(ok) =>
      var idle, outcome := d.(flying := None), if ok then Done else Failed;
      match d.flying.value
      case FlyingWrite(req) => Answered(c, idle, req, outcome)
      case FlyingRead(req) => idle.(readCalls := idle.readCalls + [Call(req.no, outcome)])
  }

  ghost predicate Possible(c: Config, d: State, run: seq<Event>)
    requires Sound(c)
    decreases |run|
  {
    run == [] || (Enabled(d, run[0]) && Possible(c, Step(c, d, run[0]), run[1..]))
  }

  ghost function After(c: Config, d: State, run: seq<Event>): State
    requires Sound(c) && Possible(c, d, run)
    decreases |run|
  {
    if run == [] then d else After(c, Step(c, d, run[0]), run[1..])
  }

  // ---------------------------------------------------------------- a retry inside an eviction

  /** Running the callback of the removed write, and only then removing it and queueing the new one, comes
      to the closed form. */
  lemma EvictionClosedForm(c: Config, d: State, req: Write)
    requires Sound(c) && Full(c, d)
    ensures Evicted(c, Answered(c, d, Victim(c, d), Removed), req) == Pushed(c, d, req)
    ensures |Answered(c, d, Victim(c, d), Removed).writeQueue| == |d.writeQueue|
  {
    if Left(d.inFlight, Victim(c, d).key) == 0 {
      EvictionWithoutRetry(c, d, req);
    } else {
      EvictionWithRetries(c, d, req);
    }
  }

  /** Removing one write and queueing another. */
  function Evicted(c: Config, d: State, req: Write): State {
    if d.writeQueue == [] then d
    else d.(writeQueue :=
      (if c.onWrite == PopFirst then d.writeQueue[1..] else d.writeQueue[..|d.writeQueue| - 1]) + [req])
  }

  lemma EvictionWithoutRetry(c: Config, d: State, req: Write)
    requires Sound(c) && Full(c, d) && Left(d.inFlight, Victim(c, d).key) == 0
    ensures Evicted(c, Answered(c, d, Victim(c, d), Removed), req) == Pushed(c, d, req)
    ensures |Answered(c, d, Victim(c, d), Removed).writeQueue| == |d.writeQueue|
  {
    var victim, w := Victim(c, d), d.writeQueue;
    assert Repeat(Call(victim.no, Removed), 1) == [Call(victim.no, Removed)];
    assert (w + [] + [req])[1..] == w[1..] + [req];
    assert Drained(d.inFlight, victim.key) == d.inFlight;
  }

  lemma EvictionWithRetries(c: Config, d: State, req: Write)
    requires Sound(c) && Full(c, d) && Left(d.inFlight, Victim(c, d).key) > 0
    ensures Evicted(c, Answered(c, d, Victim(c, d), Removed), req) == Pushed(c, d, req)
    ensures |Answered(c, d, Victim(c, d), Removed).writeQueue| == |d.writeQueue|
  {
    var victim := Victim(c, d);
    var k, r, unit := victim.key, Left(d.inFlight, victim.key), UnitOf(d.inFlight, victim.key);
    RetriedFull(c, d);
    RepeatStep(d.writeCalls, Call(victim.no, Removed), r);
    ShiftQueue(d.writeQueue, Backward(k, unit, d.writesMade + 1, r - 1), Write(d.writesMade, k, unit), req);
  }

  /** The removed write called back once more, and retried through the queue that is still full. */
  lemma RetriedFull(c: Config, d: State)
    requires Sound(c) && Full(c, d) && Left(d.inFlight, Victim(c, d).key) > 0
    ensures
      var victim := Victim(c, d);
      var k, r, unit := victim.key, Left(d.inFlight, victim.key), UnitOf(d.inFlight, victim.key);
      var retry, others := Write(d.writesMade, k, unit), Backward(k, unit, d.writesMade + 1, r - 1);
      Answered(c, d, victim, Removed) == d.(
        writeQueue := if c.onWrite == PopFirst then (d.writeQueue + others + [retry])[r..]
                      else d.writeQueue[..|d.writeQueue| - 1] + [retry],
        inFlight := Drained(d.inFlight, k),
        writesMade := d.writesMade + r,
        writeCalls := d.writeCalls + [Call(victim.no, Removed)] + Repeat(Call(victim.no, Removed), r))
  {
    var victim := Victim(c, d);
    RetryIsPush(c, d, victim);
    SpentDrains(d, victim.key);
  }

  lemma SpentDrains(d: State, k: string)
    requires Left(d.inFlight, k) > 0
    ensures Drained(Spent(d, k).inFlight, k) == Drained(d.inFlight, k)
    ensures Left(Spent(d, k).inFlight, k) == Left(d.inFlight, k) - 1
    ensures UnitOf(Spent(d, k).inFlight, k) == UnitOf(d.inFlight, k)
  {
    assert Drained(Spent(d, k).inFlight, k) == Drained(d.inFlight, k);
  }

  /** The state in which a retry of a removed write is queued. */
  function Retrying(d: State, victim: Write): State
    requires Left(d.inFlight, victim.key) > 0
  {
    Spent(d, victim.key).(writeCalls := d.writeCalls + [Call(victim.no, Removed)], writesMade := d.writesMade + 1)
  }

  lemma RetryIsPush(c: Config, d: State, victim: Write)
    requires Sound(c) && Left(d.inFlight, victim.key) > 0
    ensures Answered(c, d, victim, Removed)
      == Pushed(c, Retrying(d, victim), Write(d.writesMade, victim.key, UnitOf(d.inFlight, victim.key)))
  {
  }

  lemma RepeatStep(calls: seq<Call>, c: Call, n: nat)
    ensures calls + [c] + Repeat(c, n) == calls + Repeat(c, n + 1)
  {
  }

  lemma ShiftQueue(w: seq<Write>, retries: seq<Write>, retry: Write, req: Write)
    requires w != []
    ensures |(w + retries + [retry])[|retries| + 1..]| == |w|
    ensures (w + retries + [retry])[|retries| + 1..][1..] + [req] == (w + (retries + [retry]) + [req])[|retries| + 2..]
    ensures (w[..|w| - 1] + [retry])[..|w| - 1] + [req] == w[..|w| - 1] + [req]
  {
  }

  // ---------------------------------------------------------------- the sum of the retries left

  ghost function TotalLeft(m: map<string, Flight>): nat
    decreases |m|
  {
    if m == map[] then 0
    else
      var k :| k in m;
      m[k].retriesLeft + TotalLeft(m - {k})
  }

  lemma {:induction false} TotalLeftWithout(m: map<string, Flight>, k: string)
    requires k in m
    ensures TotalLeft(m) == m[k].retriesLeft + TotalLeft(m - {k})
    decreases |m|
  {
    var j :| j in m && TotalLeft(m) == m[j].retriesLeft + TotalLeft(m - {j});
    if j != k {
      TotalLeftWithout(m - {j}, k);
      TotalLeftWithout(m - {k}, j);
      assert m - {j} - {k} == m - {k} - {j};
    }
  }

  lemma TotalLeftUpdate(m: map<string, Flight>, k: string, f: Flight)
    ensures TotalLeft(m[k := f]) + Left(m, k) == TotalLeft(m) + f.retriesLeft
  {
    TotalLeftWithout(m[k := f], k);
    assert m[k := f] - {k} == m - {k};
    if k in m {
      TotalLeftWithout(m, k);
    } else {
      assert m - {k} == m;
    }
  }

  lemma TotalLeftErase(m: map<string, Flight>, k: string)
    ensures TotalLeft(m - {k}) + Left(m, k) == TotalLeft(m)
  {
    if k in m {
      TotalLeftWithout(m, k);
    } else {
      assert m - {k} == m;
    }
  }
}
