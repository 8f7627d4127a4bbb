/** What every run of the request queues keeps. */
module RequestSafety {
  import opened Variants
  import opened RequestRuns

  // ---------------------------------------------------------------- retries are bounded

  function Messages(run: seq<Event>): nat {
    if run == [] then 0 else (if run[0].Message? then 1 else 0) + Messages(run[1..])
  }

  /** The writes made and the retries left are covered by `n` messages. */
  ghost predicate Budget(c: Config, d: State, n: nat) {
    d.writesMade + TotalLeft(d.inFlight) <= n * (1 + c.writeRetries)
  }

  lemma PushedBudget(c: Config, d: State, req: Write)
    requires Sound(c)
    ensures
      var after := Pushed(c, d, req);
      after.writesMade + TotalLeft(after.inFlight) == d.writesMade + TotalLeft(d.inFlight)
  {
    if Full(c, d) {
      var k := Victim(c, d).key;
      if k in d.inFlight {
        TotalLeftUpdate(d.inFlight, k, d.inFlight[k].(retriesLeft := 0));
      }
    }
  }

  lemma AnsweredBudget(c: Config, d: State, req: Write, outcome: Outcome)
    requires Sound(c)
    ensures
      var after := Answered(c, d, req, outcome);
      after.writesMade + TotalLeft(after.inFlight) <= d.writesMade + TotalLeft(d.inFlight)
  {
    var k := req.key;
    var called := d.(writeCalls := d.writeCalls + [Call(req.no, outcome)]);
    if outcome == Done {
      TotalLeftErase(d.inFlight, k);
    } else if Left(d.inFlight, k) > 0 {
      TotalLeftUpdate(d.inFlight, k, d.inFlight[k].(retriesLeft := d.inFlight[k].retriesLeft - 1));
      var spent := Spent(called, k);
      PushedBudget(c, spent.(writesMade := d.writesMade + 1), Write(d.writesMade, k, d.inFlight[k].unit));
    }
  }

  lemma StepBudget(c: Config, d: State, e: Event, n: nat)
    requires Sound(c) && Enabled(d, e) && Budget(c, d, n)
    ensures Budget(c, Step(c, d, e), n + if e.Message? then 1 else 0)
  {
    match e {
      case Poll(run) =>
      case Message(k, unit) =>
        TotalLeftUpdate(d.inFlight, k, Flight(unit, c.writeRetries));
        var noted := Noted(c, d, k, unit);
        PushedBudget(c, noted.(writesMade := d.writesMade + 1), Write(d.writesMade, k, unit));
        assert (n + 1) * (1 + c.writeRetries) == n * (1 + c.writeRetries) + 1 + c.writeRetries;
      case Next(sent) =>
        if d.writeQueue != [] {
          AnsweredBudget(c, d.(writeQueue := d.writeQueue[1..]), d.writeQueue[0], NotSent);
        }
      case Finish(ok) =>
        if d.flying.value.FlyingWrite? {
          AnsweredBudget(c, d.(flying := None), d.flying.value.write, if ok then Done else Failed);
        }
    }
  }

  lemma {:induction false} RunBudget(c: Config, d: State, run: seq<Event>, n: nat)
    requires Sound(c) && Possible(c, d, run) && Budget(c, d, n)
    ensures Budget(c, After(c, d, run), n + Messages(run))
    decreases |run|
  {
    if run != [] {
      StepBudget(c, d, run[0], n);
      RunBudget(c, Step(c, d, run[0]), run[1..], n + if run[0].Message? then 1 else 0);
    }
  }

  /** However the bus answers and however the queues overflow: `n` messages cause at most
      `n * (1 + writeRetries)` write requests. */
  lemma RetriesBounded(c: Config, run: seq<Event>)
    requires Sound(c) && Possible(c, START, run)
    ensures After(c, START, run).writesMade <= Messages(run) * (1 + c.writeRetries)
  {
    RunBudget(c, START, run, 0);
  }

  // ---------------------------------------------------------------- limits and order

  predicate WithinLimits(c: Config, d: State) {
    |d.readQueue| <= c.maxRead && |d.writeQueue| <= c.maxWrite
  }

  lemma StepWithinLimits(c: Config, d: State, e: Event)
    requires Sound(c) && Enabled(d, e) && WithinLimits(c, d)
    ensures WithinLimits(c, Step(c, d, e))
  {
  }

  lemma {:induction false} RunWithinLimits(c: Config, d: State, run: seq<Event>)
    requires Sound(c) && Possible(c, d, run) && WithinLimits(c, d)
    ensures WithinLimits(c, After(c, d, run))
    decreases |run|
  {
    if run != [] {
      StepWithinLimits(c, d, run[0]);
      RunWithinLimits(c, Step(c, d, run[0]), run[1..]);
    }
  }

  /** A read goes out only when no write is queued, and only when nothing is in flight. */
  lemma WritesGoFirst(c: Config, d: State, e: Event)
    requires Sound(c) && Enabled(d, e)
    ensures
      var after := Step(c, d, e);
      after.flying.Some? && after.flying.value.FlyingRead? && after.flying != d.flying ==>
        d.flying == None && d.writeQueue == [] && d.readQueue != [] && after.flying.value.read == d.readQueue[0]
  {
  }

  // ---------------------------------------------------------------- where a request is

  function ReadNos(q: seq<Read>): seq<nat> {
    seq(|q|, i requires 0 <= i < |q| => q[i].no)
  }

  function WriteNos(q: seq<Write>): seq<nat> {
    seq(|q|, i requires 0 <= i < |q| => q[i].no)
  }

  function CallNos(calls: seq<Call>): seq<nat> {
    seq(|calls|, i requires 0 <= i < |calls| => calls[i].no)
  }

  function FlyingReadNos(f: Option<Flying>): seq<nat> {
    if f.Some? && f.value.FlyingRead? then [f.value.read.no] else []
  }

  function FlyingWriteNos(f: Option<Flying>): seq<nat> {
    if f.Some? && f.value.FlyingWrite? then [f.value.write.no] else []
  }

  /** The numbers queued, in flight and called back, as often as they are. */
  ghost function ReadPlaces(d: State): multiset<nat> {
    multiset(FlyingReadNos(d.flying)) + multiset(ReadNos(d.readQueue)) + multiset(CallNos(d.readCalls))
  }

  ghost function WritePlaces(d: State): multiset<nat> {
    multiset(FlyingWriteNos(d.flying)) + multiset(WriteNos(d.writeQueue)) + multiset(CallNos(d.writeCalls))
  }

  /** Each of the first `n` numbers once, and no other. */
  ghost predicate OneOfEach(places: multiset<nat>, n: nat) {
    forall no: nat :: places[no] == if no < n then 1 else 0
  }

  /** Every request made is in exactly one place: queued, in flight, or called back once. */
  ghost predicate Accounted(d: State) {
    OneOfEach(WritePlaces(d), d.writesMade)
  }

  ghost predicate ReadsAccounted(d: State) {
    OneOfEach(ReadPlaces(d), d.readsMade)
  }

  // -- moving one number

  lemma ReadNosSnoc(q: seq<Read>, x: Read)
    ensures multiset(ReadNos(q + [x])) == multiset(ReadNos(q)) + multiset{x.no}
  {
    assert ReadNos(q + [x]) == ReadNos(q) + [x.no];
  }

  lemma ReadNosEnds(q: seq<Read>)
    requires q != []
    ensures multiset(ReadNos(q)) == multiset{q[0].no} + multiset(ReadNos(q[1..]))
    ensures multiset(ReadNos(q)) == multiset(ReadNos(q[..|q| - 1])) + multiset{q[|q| - 1].no}
  {
    assert ReadNos(q) == [q[0].no] + ReadNos(q[1..]);
    assert ReadNos(q) == ReadNos(q[..|q| - 1]) + [q[|q| - 1].no];
  }

  lemma WriteNosSnoc(q: seq<Write>, x: Write)
    ensures multiset(WriteNos(q + [x])) == multiset(WriteNos(q)) + multiset{x.no}
  {
    assert WriteNos(q + [x]) == WriteNos(q) + [x.no];
  }

  lemma WriteNosEnds(q: seq<Write>)
    requires q != []
    ensures multiset(WriteNos(q)) == multiset{q[0].no} + multiset(WriteNos(q[1..]))
    ensures multiset(WriteNos(q)) == multiset(WriteNos(q[..|q| - 1])) + multiset{q[|q| - 1].no}
  {
    assert WriteNos(q) == [q[0].no] + WriteNos(q[1..]);
    assert WriteNos(q) == WriteNos(q[..|q| - 1]) + [q[|q| - 1].no];
  }

  lemma CallNosSnoc(calls: seq<Call>, c: Call)
    ensures multiset(CallNos(calls + [c])) == multiset(CallNos(calls)) + multiset{c.no}
  {
    assert CallNos(calls + [c]) == CallNos(calls) + [c.no];
  }

  // ---------------------------------------------------------------- reads

  /** A new number in, one from the queue to the calls. */
  lemma OneInOneOut(flying: multiset<nat>, queue: multiset<nat>, rest: multiset<nat>, calls: multiset<nat>,
                    x: nat, no: nat)
    requires queue == rest + multiset{x}
    ensures flying + (rest + multiset{no}) + (calls + multiset{x}) == flying + queue + calls + multiset{no}
  {
  }

  /** The read a full queue removes. */
  function ReadVictim(c: Config, q: seq<Read>): Read
    requires q != []
  {
    if c.onRead == PopFirst then q[0] else q[|q| - 1]
  }

  function ReadsKept(c: Config, q: seq<Read>): seq<Read>
    requires q != []
  {
    if c.onRead == PopFirst then q[1..] else q[..|q| - 1]
  }

  lemma PollWithRoom(c: Config, d: State, run: nat)
    requires Sound(c) && |d.readQueue| < c.maxRead
    ensures ReadPlaces(Step(c, d, Poll(run))) == ReadPlaces(d) + multiset{d.readsMade}
  {
    ReadNosSnoc(d.readQueue, Read(d.readsMade, run));
  }

  /** One read in, one out. */
  lemma ReadRemoved(d: State, kept: seq<Read>, victim: Read, req: Read)
    requires multiset(ReadNos(d.readQueue)) == multiset(ReadNos(kept)) + multiset{victim.no}
    ensures
      var after := d.(readQueue := kept + [req], readCalls := d.readCalls + [Call(victim.no, Removed)]);
      ReadPlaces(after) == ReadPlaces(d) + multiset{req.no}
  {
    ReadNosSnoc(kept, req);
    CallNosSnoc(d.readCalls, Call(victim.no, Removed));
    OneInOneOut(multiset(FlyingReadNos(d.flying)), multiset(ReadNos(d.readQueue)), multiset(ReadNos(kept)),
                multiset(CallNos(d.readCalls)), victim.no, req.no);
  }

  lemma PollFull(c: Config, d: State, run: nat)
    requires Sound(c) && |d.readQueue| >= c.maxRead
    ensures ReadPlaces(Step(c, d, Poll(run))) == ReadPlaces(d) + multiset{d.readsMade}
  {
    var victim, kept, req := ReadVictim(c, d.readQueue), ReadsKept(c, d.readQueue), Read(d.readsMade, run);
    ReadNosEnds(d.readQueue);
    ReadRemoved(d, kept, victim, req);
    SameSideSamePlaces(Step(c, d, Poll(run)),
      d.(readQueue := kept + [req], readCalls := d.readCalls + [Call(victim.no, Removed)]));
  }

  /** All that is known about the reads. */
  datatype ReadSide = ReadSide(flying: seq<nat>, queue: seq<Read>, calls: seq<Call>)

  function ReadSideOf(d: State): ReadSide {
    ReadSide(FlyingReadNos(d.flying), d.readQueue, d.readCalls)
  }

  lemma SameSideSamePlaces(d: State, e: State)
    requires ReadSideOf(d) == ReadSideOf(e)
    ensures ReadPlaces(d) == ReadPlaces(e)
  {
  }

  lemma AnsweredReadSide(c: Config, d: State, req: Write, outcome: Outcome)
    requires Sound(c)
    ensures ReadSideOf(Answered(c, d, req, outcome)) == ReadSideOf(d)
    ensures Answered(c, d, req, outcome).readsMade == d.readsMade
  {
  }

  lemma NextReadPlaces(c: Config, d: State, sent: bool)
    requires Sound(c)
    ensures
      var after := Step(c, d, Next(sent));
      ReadPlaces(after) == ReadPlaces(d) && after.readsMade == d.readsMade
  {
    if d.flying.Some? || (d.writeQueue == [] && d.readQueue == []) {
    } else if d.writeQueue != [] {
      NextWriteKeepsReads(c, d, sent);
    } else {
      NextReadMoves(c, d, sent);
    }
  }

  lemma NextWriteKeepsReads(c: Config, d: State, sent: bool)
    requires Sound(c) && d.flying.None? && d.writeQueue != []
    ensures
      var after := Step(c, d, Next(sent));
      ReadPlaces(after) == ReadPlaces(d) && after.readsMade == d.readsMade
  {
    AnsweredReadSide(c, d.(writeQueue := d.writeQueue[1..]), d.writeQueue[0], NotSent);
    SameSideSamePlaces(d, Step(c, d, Next(sent)));
  }

  lemma NextReadMoves(c: Config, d: State, sent: bool)
    requires Sound(c) && d.flying.None? && d.writeQueue == [] && d.readQueue != []
    ensures
      var after := Step(c, d, Next(sent));
      ReadPlaces(after) == ReadPlaces(d) && after.readsMade == d.readsMade
  {
    ReadNosEnds(d.readQueue);
    CallNosSnoc(d.readCalls, Call(d.readQueue[0].no, NotSent));
  }

  lemma FinishReadPlaces(c: Config, d: State, ok: bool)
    requires Sound(c) && d.flying.Some?
    ensures
      var after := Step(c, d, Finish(ok));
      ReadPlaces(after) == ReadPlaces(d) && after.readsMade == d.readsMade
  {
    match d.flying.value {
      case FlyingRead(req) =>
        FinishReadMoves(c, d, req, ok);
      case FlyingWrite(req) =>
        FinishWriteKeepsReads(c, d, req, ok);
    }
  }

  lemma FinishWriteKeepsReads(c: Config, d: State, req: Write, ok: bool)
    requires Sound(c) && d.flying == Some(FlyingWrite(req))
    ensures
      var after := Step(c, d, Finish(ok));
      ReadPlaces(after) == ReadPlaces(d) && after.readsMade == d.readsMade
  {
    AnsweredReadSide(c, d.(flying := None), req, if ok then Done else Failed);
    SameSideSamePlaces(d, Step(c, d, Finish(ok)));
  }

  lemma FinishReadMoves(c: Config, d: State, req: Read, ok: bool)
    requires Sound(c) && d.flying == Some(FlyingRead(req))
    ensures
      var after := Step(c, d, Finish(ok));
      ReadPlaces(after) == ReadPlaces(d) && after.readsMade == d.readsMade
  {
    CallNosSnoc(d.readCalls, Call(req.no, if ok then Done else Failed));
  }

  lemma MessageReadPlaces(c: Config, d: State, key: string, unit: nat)
    requires Sound(c)
    ensures
      var after := Step(c, d, Message(key, unit));
      ReadPlaces(after) == ReadPlaces(d) && after.readsMade == d.readsMade
  {
    SameSideSamePlaces(d, Step(c, d, Message(key, unit)));
  }

  lemma PollReadPlaces(c: Config, d: State, run: nat)
    requires Sound(c)
    ensures
      var after := Step(c, d, Poll(run));
      ReadPlaces(after) == ReadPlaces(d) + multiset{d.readsMade} && after.readsMade == d.readsMade + 1
  {
    if |d.readQueue| < c.maxRead {
      PollWithRoom(c, d, run);
    } else {
      PollFull(c, d, run);
    }
  }

  lemma StepReadsAccounted(c: Config, d: State, e: Event)
    requires Sound(c) && Enabled(d, e) && ReadsAccounted(d)
    ensures ReadsAccounted(Step(c, d, e))
  {
    match e {
      case Poll(run) =>
        PollReadPlaces(c, d, run);
      case Message(k, unit) =>
        MessageReadPlaces(c, d, k, unit);
      case Next(sent) =>
        NextReadPlaces(c, d, sent);
      case Finish(ok) =>
        FinishReadPlaces(c, d, ok);
    }
  }

  /** No read is lost and none is called back twice, whatever happens to the writes. */
  lemma {:induction false} ReadsConserved(c: Config, d: State, run: seq<Event>)
    requires Sound(c) && Possible(c, d, run) && ReadsAccounted(d)
    ensures ReadsAccounted(After(c, d, run))
    decreases |run|
  {
    if run != [] {
      StepReadsAccounted(c, d, run[0]);
      ReadsConserved(c, Step(c, d, run[0]), run[1..]);
    }
  }

  // ---------------------------------------------------------------- writes

  /** Queueing a write now would remove one that still has retries, and so retry it from within. */
  predicate Reenters(c: Config, d: State)
    requires Sound(c)
  {
    Full(c, d) && Left(d.inFlight, Victim(c, d).key) > 0
  }

  predicate StepReenters(c: Config, d: State, e: Event)
    requires Sound(c)
  {
    match e
    case Message(key, unit) => Reenters(c, Noted(c, d, key, unit))
    case Finish(ok) =>
      !ok && d.flying.Some? && d.flying.value.FlyingWrite? && Left(d.inFlight, d.flying.value.write.key) > 0
      && Reenters(c, Spent(d, d.flying.value.write.key))
    case _ => false
  }

  lemma PushedPlaces(c: Config, d: State, req: Write)
    requires Sound(c) && !Reenters(c, d)
    ensures WritePlaces(Pushed(c, d, req)) == WritePlaces(d) + multiset{req.no}
    ensures Pushed(c, d, req).writesMade == d.writesMade
  {
    var q := d.writeQueue;
    if Full(c, d) {
      PushedRemovesOne(c, d, req);
      PushedFullPlaces(c, d, req);
    } else {
      WriteNosSnoc(q, req);
    }
  }

  function WritesKept(c: Config, q: seq<Write>): seq<Write>
    requires q != []
  {
    if c.onWrite == PopFirst then q[1..] else q[..|q| - 1]
  }

  lemma PushedFullPlaces(c: Config, d: State, req: Write)
    requires Sound(c) && Full(c, d)
    ensures
      var after := d.(writeQueue := WritesKept(c, d.writeQueue) + [req],
                      writeCalls := d.writeCalls + [Call(Victim(c, d).no, Removed)]);
      WritePlaces(after) == WritePlaces(d) + multiset{req.no}
  {
    var q, victim, kept := d.writeQueue, Victim(c, d), WritesKept(c, d.writeQueue);
    WriteNosEnds(q);
    WriteNosSnoc(kept, req);
    CallNosSnoc(d.writeCalls, Call(victim.no, Removed));
    OneInOneOut(multiset(FlyingWriteNos(d.flying)), multiset(WriteNos(q)), multiset(WriteNos(kept)),
                multiset(CallNos(d.writeCalls)), victim.no, req.no);
  }

  lemma PushedRemovesOne(c: Config, d: State, req: Write)
    requires Sound(c) && Full(c, d) && Left(d.inFlight, Victim(c, d).key) == 0
    ensures Pushed(c, d, req) == d.(writeQueue := WritesKept(c, d.writeQueue) + [req],
                                    writeCalls := d.writeCalls + [Call(Victim(c, d).no, Removed)])
  {
    var q := d.writeQueue;
    assert (q + [] + [req])[1..] == q[1..] + [req];
    assert Repeat(Call(Victim(c, d).no, Removed), 1) == [Call(Victim(c, d).no, Removed)];
    assert Drained(d.inFlight, Victim(c, d).key) == d.inFlight;
  }

  /** What a callback adds to the places: itself, and the retry it makes. */
  ghost predicate PlacedAs(d: State, after: State, places: multiset<nat>) {
    || (after.writesMade == d.writesMade && WritePlaces(after) == places)
    || (after.writesMade == d.writesMade + 1 && WritePlaces(after) == places + multiset{d.writesMade})
  }

  lemma AnsweredPlaces(c: Config, d: State, req: Write, outcome: Outcome)
    requires Sound(c)
    requires outcome != Done && Left(d.inFlight, req.key) > 0 ==> !Reenters(c, Spent(d, req.key))
    ensures PlacedAs(d, Answered(c, d, req, outcome), WritePlaces(d) + multiset{req.no})
  {
    var called := d.(writeCalls := d.writeCalls + [Call(req.no, outcome)]);
    CallNosSnoc(d.writeCalls, Call(req.no, outcome));
    assert WritePlaces(called) == WritePlaces(d) + multiset{req.no};
    if outcome != Done && Left(d.inFlight, req.key) > 0 {
      var spent := Spent(called, req.key);
      PushedPlaces(c, spent.(writesMade := d.writesMade + 1), Write(d.writesMade, req.key, d.inFlight[req.key].unit));
    }
  }

  lemma PlacedAccounted(d: State, after: State)
    requires Accounted(d) && PlacedAs(d, after, WritePlaces(d))
    ensures Accounted(after)
  {
  }

  lemma StepPlaces(c: Config, d: State, e: Event)
    requires Sound(c) && Enabled(d, e) && WithinLimits(c, d) && !StepReenters(c, d, e)
    ensures PlacedAs(d, Step(c, d, e), WritePlaces(d))
  {
    match e {
      case Poll(run) =>
      case Message(k, unit) =>
        MessagePlaces(c, d, k, unit);
      case Next(sent) =>
        NextPlaces(c, d, sent);
      case Finish(ok) =>
        FinishPlaces(c, d, ok);
    }
  }

  lemma MessagePlaces(c: Config, d: State, key: string, unit: nat)
    requires Sound(c) && !StepReenters(c, d, Message(key, unit))
    ensures PlacedAs(d, Step(c, d, Message(key, unit)), WritePlaces(d))
  {
    MadePlaces(c, d, Noted(c, d, key, unit), Write(d.writesMade, key, unit));
  }

  /** A write that is made and queued, whatever was noted about its retries. */
  lemma MadePlaces(c: Config, d: State, noted: State, req: Write)
    requires Sound(c) && noted == d.(inFlight := noted.inFlight) && req.no == d.writesMade
    requires !Reenters(c, noted.(writesMade := d.writesMade + 1))
    ensures PlacedAs(d, Pushed(c, noted.(writesMade := d.writesMade + 1), req), WritePlaces(d))
  {
    var made := noted.(writesMade := d.writesMade + 1);
    PushedPlaces(c, made, req);
    assert WritePlaces(made) == WritePlaces(d);
  }

  lemma FinishPlaces(c: Config, d: State, ok: bool)
    requires Sound(c) && d.flying.Some? && !StepReenters(c, d, Finish(ok))
    ensures PlacedAs(d, Step(c, d, Finish(ok)), WritePlaces(d))
  {
    if d.flying.value.FlyingWrite? {
      var idle, req := d.(flying := None), d.flying.value.write;
      IdlePlaces(d);
      AnsweredPlaces(c, idle, req, if ok then Done else Failed);
    } else {
      ReadAnsweredPlaces(d, d.readCalls + [Call(d.flying.value.read.no, if ok then Done else Failed)]);
    }
  }

  lemma IdlePlaces(d: State)
    requires d.flying.Some? && d.flying.value.FlyingWrite?
    ensures WritePlaces(d) == WritePlaces(d.(flying := None)) + multiset{d.flying.value.write.no}
  {
  }

  lemma ReadAnsweredPlaces(d: State, calls: seq<Call>)
    requires d.flying.Some? && d.flying.value.FlyingRead?
    ensures WritePlaces(d.(flying := None, readCalls := calls)) == WritePlaces(d)
  {
  }

  lemma NextPlaces(c: Config, d: State, sent: bool)
    requires Sound(c) && WithinLimits(c, d)
    ensures PlacedAs(d, Step(c, d, Next(sent)), WritePlaces(d))
  {
    if d.flying.None? && d.writeQueue != [] {
      NextWritePlaces(d);
      if sent {
        SentPlaces(d);
      } else {
        AnsweredPlaces(c, d.(writeQueue := d.writeQueue[1..]), d.writeQueue[0], NotSent);
      }
    }
  }

  lemma NextWritePlaces(d: State)
    requires d.writeQueue != []
    ensures WritePlaces(d) == WritePlaces(d.(writeQueue := d.writeQueue[1..])) + multiset{d.writeQueue[0].no}
  {
    WriteNosEnds(d.writeQueue);
  }

  lemma SentPlaces(d: State)
    requires d.flying.None? && d.writeQueue != []
    ensures
      var after := d.(writeQueue := d.writeQueue[1..], flying := Some(FlyingWrite(d.writeQueue[0])));
      WritePlaces(after) == WritePlaces(d)
  {
    NextWritePlaces(d);
  }

  // -- when a write is removed that has retries left

  predicate CalledTwice(d: State, no: nat) {
    multiset(CallNos(d.writeCalls))[no] >= 2
  }

  lemma {:induction false} RepeatNos(c: Call, n: nat)
    ensures multiset(CallNos(Repeat(c, n)))[c.no] == n
    decreases n
  {
    if n > 0 {
      RepeatNos(c, n - 1);
      assert CallNos(Repeat(c, n)) == [c.no] + CallNos(Repeat(c, n - 1));
    }
  }

  lemma CallsAppend(a: seq<Call>, b: seq<Call>)
    ensures multiset(CallNos(a + b)) == multiset(CallNos(a)) + multiset(CallNos(b))
  {
    assert CallNos(a + b) == CallNos(a) + CallNos(b);
  }

  lemma ReenteringCallsTwice(c: Config, d: State, req: Write)
    requires Sound(c) && Reenters(c, d)
    ensures CalledTwice(Pushed(c, d, req), Victim(c, d).no)
  {
    var victim := Victim(c, d);
    var call, n := Call(victim.no, Removed), Left(d.inFlight, victim.key) + 1;
    CallsAppend(d.writeCalls, Repeat(call, n));
    RepeatNos(call, n);
  }

  lemma StepCallsTwice(c: Config, d: State, e: Event) returns (no: nat)
    requires Sound(c) && Enabled(d, e) && StepReenters(c, d, e)
    ensures CalledTwice(Step(c, d, e), no)
  {
    if e.Message? {
      var noted := Noted(c, d, e.key, e.unit).(writesMade := d.writesMade + 1);
      var req := Write(d.writesMade, e.key, e.unit);
      no := Victim(c, noted).no;
      ReenteringCallsTwice(c, noted, req);
      assert Step(c, d, e) == Pushed(c, noted, req);
    } else {
      var req := d.flying.value.write;
      var called := d.(flying := None, writeCalls := d.writeCalls + [Call(req.no, Failed)]);
      var spent := Spent(called, req.key).(writesMade := d.writesMade + 1);
      var retry := Write(d.writesMade, req.key, d.inFlight[req.key].unit);
      no := Victim(c, spent).no;
      ReenteringCallsTwice(c, spent, retry);
      assert Step(c, d, e) == Pushed(c, spent, retry);
    }
  }

  lemma StepKeepsCalls(c: Config, d: State, e: Event)
    requires Sound(c) && Enabled(d, e)
    ensures d.writeCalls <= Step(c, d, e).writeCalls
  {
  }

  lemma {:induction false} RunKeepsCalls(c: Config, d: State, run: seq<Event>)
    requires Sound(c) && Possible(c, d, run)
    ensures d.writeCalls <= After(c, d, run).writeCalls
    decreases |run|
  {
    if run != [] {
      StepKeepsCalls(c, d, run[0]);
      RunKeepsCalls(c, Step(c, d, run[0]), run[1..]);
    }
  }

  lemma TwiceNotAccounted(c: Config, d: State, run: seq<Event>, no: nat)
    requires Sound(c) && Possible(c, d, run) && CalledTwice(d, no)
    ensures !Accounted(After(c, d, run))
  {
    RunKeepsCalls(c, d, run);
    var after := After(c, d, run);
    var more := after.writeCalls[|d.writeCalls|..];
    assert after.writeCalls == d.writeCalls + more;
    CallsAppend(d.writeCalls, more);
    assert WritePlaces(after)[no] >= 2;
  }

  ghost predicate RunReenters(c: Config, d: State, run: seq<Event>)
    requires Sound(c) && Possible(c, d, run)
    decreases |run|
  {
    run != [] && (StepReenters(c, d, run[0]) || RunReenters(c, Step(c, d, run[0]), run[1..]))
  }

  lemma {:induction false} WritesConservedFrom(c: Config, d: State, run: seq<Event>)
    requires Sound(c) && Possible(c, d, run) && Accounted(d) && WithinLimits(c, d)
    ensures Accounted(After(c, d, run)) <==> !RunReenters(c, d, run)
    decreases |run|
  {
    if run != [] {
      var next := Step(c, d, run[0]);
      if StepReenters(c, d, run[0]) {
        var no := StepCallsTwice(c, d, run[0]);
        TwiceNotAccounted(c, next, run[1..], no);
      } else {
        StepPlaces(c, d, run[0]);
        PlacedAccounted(d, next);
        StepWithinLimits(c, d, run[0]);
        WritesConservedFrom(c, next, run[1..]);
      }
    }
  }

  /** Over a whole run every write is queued, in flight, or called back exactly once, if and only if no
      full queue ever removed a write that still had retries. */
  lemma WritesConservedIff(c: Config, run: seq<Event>)
    requires Sound(c) && Possible(c, START, run)
    ensures Accounted(After(c, START, run)) <==> !RunReenters(c, START, run)
  {
    WritesConservedFrom(c, START, run);
  }

  predicate NoneLeft(m: map<string, Flight>) {
    forall k :: k in m ==> m[k].retriesLeft == 0
  }

  lemma PushedNoneLeft(c: Config, d: State, req: Write)
    requires Sound(c) && NoneLeft(d.inFlight)
    ensures NoneLeft(Pushed(c, d, req).inFlight) && !Reenters(c, d)
  {
  }

  lemma AnsweredNoneLeft(c: Config, d: State, req: Write, outcome: Outcome)
    requires Sound(c) && NoneLeft(d.inFlight)
    ensures NoneLeft(Answered(c, d, req, outcome).inFlight)
  {
    assert Left(d.inFlight, req.key) == 0;
    var called := d.(writeCalls := d.writeCalls + [Call(req.no, outcome)]);
    assert outcome != Done ==> Retried(c, called, req.key) == called;
  }

  lemma StepNoneLeft(c: Config, d: State, e: Event)
    requires Sound(c) && Enabled(d, e) && c.writeRetries == 0 && NoneLeft(d.inFlight)
    ensures NoneLeft(Step(c, d, e).inFlight) && !StepReenters(c, d, e)
  {
    match e {
      case Poll(run) =>
      case Message(k, unit) =>
        var noted := Noted(c, d, k, unit);
        PushedNoneLeft(c, noted, Write(d.writesMade, k, unit));
        PushedNoneLeft(c, noted.(writesMade := d.writesMade + 1), Write(d.writesMade, k, unit));
      case Next(sent) =>
        if d.writeQueue != [] {
          AnsweredNoneLeft(c, d.(writeQueue := d.writeQueue[1..]), d.writeQueue[0], NotSent);
        }
      case Finish(ok) =>
        if d.flying.value.FlyingWrite? {
          assert Left(d.inFlight, d.flying.value.write.key) == 0;
          AnsweredNoneLeft(c, d.(flying := None), d.flying.value.write, if ok then Done else Failed);
        }
    }
  }

  /** Without retries no callback ever queues a request, so nothing is lost. */
  lemma {:induction false} NoRetriesNoReentry(c: Config, d: State, run: seq<Event>)
    requires Sound(c) && Possible(c, d, run) && c.writeRetries == 0 && NoneLeft(d.inFlight)
    ensures !RunReenters(c, d, run)
    decreases |run|
  {
    if run != [] {
      StepNoneLeft(c, d, run[0]);
      NoRetriesNoReentry(c, Step(c, d, run[0]), run[1..]);
    }
  }

  /** What such a removal loses: with `r` retries left for the oldest write, the `r` writes behind it leave
      the queue and are never called back. */
  lemma RemovalLoses(c: Config, d: State, req: Write, i: nat)
    requires Sound(c) && c.onWrite == PopFirst && Full(c, d)
    requires 1 <= i < |d.writeQueue| && i <= Left(d.inFlight, d.writeQueue[0].key)
    requires WritePlaces(d)[d.writeQueue[i].no] == 1 && d.writeQueue[i].no < d.writesMade
    requires req.no != d.writeQueue[i].no && d.writeQueue[0].no != d.writeQueue[i].no
    ensures WritePlaces(Pushed(c, d, req))[d.writeQueue[i].no] == 0
  {
    var q, victim, no := d.writeQueue, d.writeQueue[0], d.writeQueue[i].no;
    var r := Left(d.inFlight, victim.key);
    var retries := Backward(victim.key, UnitOf(d.inFlight, victim.key), d.writesMade, r);
    var all := q + retries + [req];
    BackwardNos(victim.key, UnitOf(d.inFlight, victim.key), d.writesMade, r, no);
    QueuedOnce(q, i, FlyingWriteNos(d.flying), CallNos(d.writeCalls));
    DroppedNo(q, retries, req, i, r + 1);
    CallsAppend(d.writeCalls, Repeat(Call(victim.no, Removed), r + 1));
    RepeatOther(Call(victim.no, Removed), r + 1, no);
  }

  /** With the other policy the retries themselves are lost: each replaces the one before it in the queue,
      and none of them is called back. */
  lemma RemovalLosesRetries(c: Config, d: State, req: Write, no: nat)
    requires Sound(c) && c.onWrite != PopFirst && Full(c, d) && WritePlaces(d)[no] == 0
    requires req.no < d.writesMade <= no < d.writesMade + Left(d.inFlight, Victim(c, d).key)
    ensures no < Pushed(c, d, req).writesMade && WritePlaces(Pushed(c, d, req))[no] == 0
  {
    var q, victim := d.writeQueue, Victim(c, d);
    var r := Left(d.inFlight, victim.key);
    LastReplaced(q, req, no);
    CallsAppend(d.writeCalls, Repeat(Call(victim.no, Removed), r + 1));
    RepeatOther(Call(victim.no, Removed), r + 1, no);
  }

  lemma LastReplaced(q: seq<Write>, req: Write, no: nat)
    requires q != [] && req.no != no && multiset(WriteNos(q))[no] == 0
    ensures multiset(WriteNos(q[..|q| - 1] + [req]))[no] == 0 && q[|q| - 1].no != no
  {
    var front, last := q[..|q| - 1], q[|q| - 1];
    assert q == front + [last];
    WriteNosSnoc(front, last);
    WriteNosSnoc(front, req);
  }

  lemma QueuedOnce(q: seq<Write>, i: nat, flying: seq<nat>, calls: seq<nat>)
    requires i < |q|
    requires (multiset(flying) + multiset(WriteNos(q)) + multiset(calls))[q[i].no] == 1
    ensures multiset(WriteNos(q))[q[i].no] == 1
    ensures multiset(flying)[q[i].no] == 0 && multiset(calls)[q[i].no] == 0
  {
    assert WriteNos(q)[i] == q[i].no;
    assert q[i].no in WriteNos(q);
  }

  lemma {:induction false} BackwardNos(key: string, unit: nat, from: nat, r: nat, no: nat)
    requires no < from
    ensures multiset(WriteNos(Backward(key, unit, from, r)))[no] == 0
    decreases r
  {
    if r > 0 {
      BackwardNos(key, unit, from + 1, r - 1, no);
      WriteNosSnoc(Backward(key, unit, from + 1, r - 1), Write(from, key, unit));
    }
  }

  lemma {:induction false} RepeatOther(c: Call, n: nat, no: nat)
    requires no != c.no
    ensures multiset(CallNos(Repeat(c, n)))[no] == 0
    decreases n
  {
    if n > 0 {
      RepeatOther(c, n - 1, no);
      assert CallNos(Repeat(c, n)) == [c.no] + CallNos(Repeat(c, n - 1));
    }
  }

  lemma DroppedNo(q: seq<Write>, retries: seq<Write>, req: Write, i: nat, n: nat)
    requires i < |q| && i < n <= |q| + |retries| + 1 && q[i].no != req.no
    requires multiset(WriteNos(q))[q[i].no] == 1 && multiset(WriteNos(retries))[q[i].no] == 0
    ensures multiset(WriteNos((q + retries + [req])[n..]))[q[i].no] == 0
  {
    var all := q + retries + [req];
    var nos := WriteNos(all);
    assert nos == WriteNos(q) + WriteNos(retries) + [req.no];
    assert WriteNos(all[n..]) == nos[n..];
    assert nos == nos[..n] + nos[n..];
    assert nos[..n][i] == q[i].no;
    assert q[i].no in nos[..n];
    assert multiset(nos)[q[i].no] == 1;
  }

  /** The smallest such run: a queue of two, one retry, three messages. The second write is in the queue no
      more, its callback never ran, and the first one's ran twice. */
  lemma ThreeMessagesLoseOne(c: Config)
    requires c.maxRead >= 1 && c.maxWrite == 2 && c.onWrite == PopFirst && c.writeRetries == 1
    ensures
      var run := [Message("a", 0), Message("b", 1), Message("c", 2)];
      Possible(c, START, run) &&
        var end := After(c, START, run);
        && end.writeQueue == [Write(3, "a", 0), Write(2, "c", 2)]
        && end.writeCalls == [Call(0, Removed), Call(0, Removed)]
        && end.flying == None
  {
    var e1, e2, e3 := Message("a", 0), Message("b", 1), Message("c", 2);
    var s1 := Step(c, START, e1);
    var s2 := Step(c, s1, e2);
    assert s1.writeQueue == [Write(0, "a", 0)];
    assert s2.writeQueue == [Write(0, "a", 0), Write(1, "b", 1)];
    LastMessage(c, s2);
    assert [e1, e2, e3][1..] == [e2, e3] && [e2, e3][1..] == [e3] && [e3][1..] == [];
    assert After(c, s2, [e3]) == Step(c, s2, e3);
    assert After(c, s1, [e2, e3]) == After(c, s2, [e3]);
  }

  lemma LastMessage(c: Config, d: State)
    requires Sound(c) && c.maxWrite == 2 && c.onWrite == PopFirst
    requires d.writeQueue == [Write(0, "a", 0), Write(1, "b", 1)] && d.writesMade == 2 && d.writeCalls == []
    requires "a" in d.inFlight && d.inFlight["a"] == Flight(0, 1)
    ensures
      var end := Step(c, d, Message("c", 2));
      && end.writeQueue == [Write(3, "a", 0), Write(2, "c", 2)]
      && end.writeCalls == [Call(0, Removed), Call(0, Removed)] && end.flying == d.flying
  {
    var noted := Noted(c, d, "c", 2);
    assert noted.inFlight["a"] == Flight(0, 1);
    assert Backward("a", 0, 4, 0) == [] && Backward("a", 0, 3, 1) == [Write(3, "a", 0)];
    var call := Call(0, Removed);
    assert Repeat(call, 1) == [call] && Repeat(call, 2) == [call, call];
    assert (d.writeQueue + [Write(3, "a", 0)] + [Write(2, "c", 2)])[2..] == [Write(3, "a", 0), Write(2, "c", 2)];
  }

  // ---------------------------------------------------------------- first in, first out

  /** Numbers in the order they were given out, all of them below `n`. */
  ghost predicate InOrder(nos: seq<nat>, n: nat) {
    && (forall i, j :: 0 <= i < j < |nos| ==> nos[i] < nos[j])
    && forall i :: 0 <= i < |nos| ==> nos[i] < n
  }

  lemma OrderPush(nos: seq<nat>, n: nat)
    requires InOrder(nos, n)
    ensures InOrder(nos + [n], n + 1)
  {
  }

  /** Leaving out one number, wherever it is, keeps the order. */
  lemma OrderDrop(a: seq<nat>, no: nat, b: seq<nat>, n: nat)
    requires InOrder(a + [no] + b, n)
    ensures InOrder(a + b, n)
  {
    var s, t := a + [no] + b, a + b;
    forall i, j | 0 <= i < j < |t| ensures t[i] < t[j] {
      var i', j' := if i < |a| then i else i + 1, if j < |a| then j else j + 1;
      assert t[i] == s[i'] && t[j] == s[j'];
    }
    forall i | 0 <= i < |t| ensures t[i] < n {
      assert t[i] == s[if i < |a| then i else i + 1];
    }
  }

  /** The request in flight and then the queued ones. */
  function ReadLine(d: State): seq<nat> {
    FlyingReadNos(d.flying) + ReadNos(d.readQueue)
  }

  function WriteLine(d: State): seq<nat> {
    FlyingWriteNos(d.flying) + WriteNos(d.writeQueue)
  }

  /** A queue may lose its first or its last number and then get the next one. */
  lemma OrderKept(f: seq<nat>, q: seq<nat>, kept: seq<nat>, n: nat)
    requires InOrder(f + q, n)
    requires kept == q || (q != [] && (kept == q[1..] || kept == q[..|q| - 1]))
    ensures InOrder(f + (kept + [n]), n + 1)
  {
    if kept == q {
    } else if kept == q[1..] {
      assert f + q == f + [q[0]] + q[1..];
      OrderDrop(f, q[0], kept, n);
    } else {
      assert f + q == f + kept + [q[|q| - 1]] + [] && f + kept + [] == f + kept;
      OrderDrop(f + kept, q[|q| - 1], [], n);
    }
    OrderPush(f + kept, n);
    assert f + (kept + [n]) == f + kept + [n];
  }

  lemma PushedReadInOrder(c: Config, d: State, run: nat)
    requires Sound(c) && InOrder(ReadLine(d), d.readsMade)
    ensures InOrder(ReadLine(Step(c, d, Poll(run))), d.readsMade + 1)
  {
    var q, req := d.readQueue, Read(d.readsMade, run);
    var kept := if |q| < c.maxRead then q else ReadsKept(c, q);
    OrderKept(FlyingReadNos(d.flying), ReadNos(q), ReadNos(kept), d.readsMade);
    assert ReadNos(kept + [req]) == ReadNos(kept) + [d.readsMade];
  }

  lemma FinishInOrder(no: nat, rest: seq<nat>, n: nat)
    requires InOrder([no] + rest, n)
    ensures InOrder(rest, n)
  {
    assert [] + [no] + rest == [no] + rest && [] + rest == rest;
    OrderDrop([], no, rest, n);
  }

  lemma StepReadsInOrder(c: Config, d: State, e: Event)
    requires Sound(c) && Enabled(d, e) && InOrder(ReadLine(d), d.readsMade)
    ensures InOrder(ReadLine(Step(c, d, e)), Step(c, d, e).readsMade)
  {
    match e {
      case Poll(run) =>
        PushedReadInOrder(c, d, run);
      case Message(k, unit) =>
      case Next(sent) =>
        if d.flying.None? && d.writeQueue != [] {
          AnsweredReadSide(c, d.(writeQueue := d.writeQueue[1..]), d.writeQueue[0], NotSent);
        } else if d.flying.None? && d.readQueue != [] {
          NextReadInOrder(c, d, sent);
        }
      case Finish(ok) =>
        FinishReadInOrder(c, d, ok);
    }
  }

  lemma NextReadInOrder(c: Config, d: State, sent: bool)
    requires Sound(c) && d.flying.None? && d.writeQueue == [] && d.readQueue != [] && InOrder(ReadLine(d), d.readsMade)
    ensures InOrder(ReadLine(Step(c, d, Next(sent))), Step(c, d, Next(sent)).readsMade)
  {
    var nos := ReadNos(d.readQueue[1..]);
    assert ReadLine(d) == [d.readQueue[0].no] + nos;
    FinishInOrder(d.readQueue[0].no, nos, d.readsMade);
    assert [] + nos == nos;
  }

  lemma FinishReadInOrder(c: Config, d: State, ok: bool)
    requires Sound(c) && d.flying.Some? && InOrder(ReadLine(d), d.readsMade)
    ensures InOrder(ReadLine(Step(c, d, Finish(ok))), Step(c, d, Finish(ok)).readsMade)
  {
    match d.flying.value {
      case FlyingRead(req) =>
        FinishInOrder(req.no, ReadNos(d.readQueue), d.readsMade);
        assert [] + ReadNos(d.readQueue) == ReadNos(d.readQueue);
      case FlyingWrite(req) =>
        AnsweredReadSide(c, d.(flying := None), req, if ok then Done else Failed);
    }
  }

  /** Reads go out in the order they were made: the one in flight, and then the queue, always is in order. */
  lemma {:induction false} ReadsInOrder(c: Config, d: State, run: seq<Event>)
    requires Sound(c) && Possible(c, d, run) && InOrder(ReadLine(d), d.readsMade)
    ensures InOrder(ReadLine(After(c, d, run)), After(c, d, run).readsMade)
    decreases |run|
  {
    if run != [] {
      StepReadsInOrder(c, d, run[0]);
      ReadsInOrder(c, Step(c, d, run[0]), run[1..]);
    }
  }

  // -- writes, as long as no full queue removes one with retries left

  lemma PushedWriteInOrder(c: Config, d: State, key: string, unit: nat)
    requires Sound(c) && !Reenters(c, d) && InOrder(WriteLine(d), d.writesMade)
    ensures InOrder(WriteLine(Wrote(c, d, key, unit)), d.writesMade + 1)
    ensures Wrote(c, d, key, unit).writesMade == d.writesMade + 1
  {
    var q, req := d.writeQueue, Write(d.writesMade, key, unit);
    var kept := if Full(c, d) then WritesKept(c, q) else q;
    WroteQueue(c, d, key, unit);
    OrderKept(FlyingWriteNos(d.flying), WriteNos(q), WriteNos(kept), d.writesMade);
    assert WriteNos(kept + [req]) == WriteNos(kept) + [d.writesMade];
  }

  lemma WroteQueue(c: Config, d: State, key: string, unit: nat)
    requires Sound(c) && !Reenters(c, d)
    ensures
      var after, q := Wrote(c, d, key, unit), d.writeQueue;
      && after.writeQueue == (if Full(c, d) then WritesKept(c, q) else q) + [Write(d.writesMade, key, unit)]
      && after.flying == d.flying && after.writesMade == d.writesMade + 1
  {
    if Full(c, d) {
      PushedRemovesOne(c, d.(writesMade := d.writesMade + 1), Write(d.writesMade, key, unit));
    }
  }

  lemma AnsweredWriteInOrder(c: Config, d: State, req: Write, outcome: Outcome)
    requires Sound(c) && InOrder(WriteLine(d), d.writesMade)
    requires outcome != Done && Left(d.inFlight, req.key) > 0 ==> !Reenters(c, Spent(d, req.key))
    ensures InOrder(WriteLine(Answered(c, d, req, outcome)), Answered(c, d, req, outcome).writesMade)
  {
    var called := d.(writeCalls := d.writeCalls + [Call(req.no, outcome)]);
    if outcome != Done && Left(d.inFlight, req.key) > 0 {
      PushedWriteInOrder(c, Spent(called, req.key), req.key, d.inFlight[req.key].unit);
    }
  }

  lemma StepWritesInOrder(c: Config, d: State, e: Event)
    requires Sound(c) && Enabled(d, e) && WithinLimits(c, d) && !StepReenters(c, d, e)
    requires InOrder(WriteLine(d), d.writesMade)
    ensures InOrder(WriteLine(Step(c, d, e)), Step(c, d, e).writesMade)
  {
    match e {
      case Poll(run) =>
      case Message(k, unit) =>
        PushedWriteInOrder(c, Noted(c, d, k, unit), k, unit);
      case Next(sent) =>
        NextWriteInOrder(c, d, sent);
      case Finish(ok) =>
        if d.flying.value.FlyingWrite? {
          var req, idle := d.flying.value.write, d.(flying := None);
          FinishInOrder(req.no, WriteNos(d.writeQueue), d.writesMade);
          assert [] + WriteNos(d.writeQueue) == WriteNos(d.writeQueue);
          AnsweredWriteInOrder(c, idle, req, if ok then Done else Failed);
        }
    }
  }

  lemma NextWriteInOrder(c: Config, d: State, sent: bool)
    requires Sound(c) && WithinLimits(c, d) && InOrder(WriteLine(d), d.writesMade)
    ensures InOrder(WriteLine(Step(c, d, Next(sent))), Step(c, d, Next(sent)).writesMade)
  {
    if d.flying.None? && d.writeQueue != [] {
      var req, rest := d.writeQueue[0], d.(writeQueue := d.writeQueue[1..]);
      var nos := WriteNos(d.writeQueue[1..]);
      assert WriteLine(d) == [req.no] + nos;
      FinishInOrder(req.no, nos, d.writesMade);
      assert [] + nos == nos;
      if !sent {
        AnsweredWriteInOrder(c, rest, req, NotSent);
      }
    }
  }

  /** Writes and their retries go out in the order they were made as long as no removal retries. */
  lemma {:induction false} WritesInOrder(c: Config, d: State, run: seq<Event>)
    requires Sound(c) && Possible(c, d, run) && WithinLimits(c, d) && !RunReenters(c, d, run)
    requires InOrder(WriteLine(d), d.writesMade)
    ensures InOrder(WriteLine(After(c, d, run)), After(c, d, run).writesMade)
    decreases |run|
  {
    if run != [] {
      StepWritesInOrder(c, d, run[0]);
      StepWithinLimits(c, d, run[0]);
      WritesInOrder(c, Step(c, d, run[0]), run[1..]);
    }
  }
}
