/**
 The device that queues requests and the master that retries its writes. The fields of the two classes of
 the program are kept in one object here, because each queued request holds a callback into the master.
 */
module RequestQueues {
  import opened Variants
  import opened RequestRuns

  class MasterDevice {
    const config: Config
    var readQueue: seq<Read>
    var writeQueue: seq<Write>
    var busy: bool
    var flying: Option<Flying>
    var inFlight: map<string, Flight>
    // numbers and logs that the program does not keep
    var readsMade: nat
    var writesMade: nat
    ghost var readCalls: seq<Call>
    ghost var writeCalls: seq<Call>

    ghost predicate Valid()
      reads this
    {
      Sound(config) && (busy <==> flying.Some?)
    }

    ghost function Now(): State
      reads this
    {
      State(readQueue, writeQueue, flying, inFlight, readsMade, writesMade, readCalls, writeCalls)
    }

    constructor (config: Config)
      requires Sound(config)
      ensures Valid() && this.config == config && Now() == START
    {
      this.config := config;
      readQueue, writeQueue, busy, flying, inFlight := [], [], false, None, map[];
      readsMade, writesMade, readCalls, writeCalls := 0, 0, [], [];
    }

    method ExecuteRead(req: Read)
      requires Valid()
      modifies this
      ensures Valid() && Now() == PushedRead(config, old(Now()), req)
    {
      if |readQueue| >= config.maxRead {
        match config.onRead {
          case PopFirst =>
            readCalls := readCalls + [Call(readQueue[0].no, Removed)];
            readQueue := readQueue[1..];
          case PopLast =>
            readCalls := readCalls + [Call(readQueue[|readQueue| - 1].no, Removed)];
            readQueue := readQueue[..|readQueue| - 1];
        }
      }
      readQueue := readQueue + [req];
    }

    method ExecuteWrite(req: Write)
      requires Valid()
      modifies this
      ensures Valid() && Now() == Pushed(config, old(Now()), req)
      decreases TotalLeft(inFlight), 2
    {
      if |writeQueue| >= config.maxWrite {
        EvictionClosedForm(config, Now(), req);
        match config.onWrite {
          case PopFirst =>
            WriteCallback(writeQueue[0], Removed);
            writeQueue := writeQueue[1..];
          case PopLast =>
            WriteCallback(writeQueue[|writeQueue| - 1], Removed);
            writeQueue := writeQueue[..|writeQueue| - 1];
        }
      }
      writeQueue := writeQueue + [req];
    }

    /** What Master::write gave the request to run. */
    method WriteCallback(req: Write, outcome: Outcome)
      requires Valid()
      modifies this
      ensures Valid() && Now() == Answered(config, old(Now()), req, outcome)
      decreases TotalLeft(inFlight), 1
    {
      writeCalls := writeCalls + [Call(req.no, outcome)];
      if outcome == Done {
        inFlight := inFlight - {req.key};
      } else {
        Retry(req.key);
      }
    }

    method Retry(key: string)
      requires Valid()
      modifies this
      ensures Valid() && Now() == Retried(config, old(Now()), key)
      decreases TotalLeft(inFlight), 0
    {
      if key !in inFlight {
        return;
      }
      if inFlight[key].retriesLeft == 0 {
        return;
      }
      TotalLeftUpdate(inFlight, key, inFlight[key].(retriesLeft := inFlight[key].retriesLeft - 1));
      inFlight := inFlight[key := inFlight[key].(retriesLeft := inFlight[key].retriesLeft - 1)];
      WriteOut(key, inFlight[key].unit);
    }

    method WriteOut(key: string, unit: nat)
      requires Valid()
      modifies this
      ensures Valid() && Now() == Wrote(config, old(Now()), key, unit)
      decreases TotalLeft(inFlight), 3
    {
      var no := writesMade;
      writesMade := writesMade + 1;
      ExecuteWrite(Write(no, key, unit));
    }

    // -- the events

    /** One request of Master::poll. */
    method Poll(run: nat)
      requires Valid()
      modifies this
      ensures Valid() && Now() == Step(config, old(Now()), Event.Poll(run))
    {
      var no := readsMade;
      readsMade := readsMade + 1;
      ExecuteRead(Read(no, run));
    }

    /** One encoded write of Master::OnMsg. */
    method OnMsg(key: string, unit: nat)
      requires Valid()
      modifies this
      ensures Valid() && Now() == Step(config, old(Now()), Message(key, unit))
    {
      inFlight := inFlight[key := Flight(unit, config.writeRetries)];
      WriteOut(key, unit);
    }

    /** `sent` says whether the bus takes the request. */
    method NextReq(sent: bool)
      requires Valid()
      modifies this
      ensures Valid() && Now() == Step(config, old(Now()), Next(sent))
    {
      if busy {
        return;
      }
      busy := true;
      var req: Flying;
      if |writeQueue| > 0 {
        req := FlyingWrite(writeQueue[0]);
        writeQueue := writeQueue[1..];
      } else if |readQueue| > 0 {
        req := FlyingRead(readQueue[0]);
        readQueue := readQueue[1..];
      } else {
        busy := false;
        return;
      }
      if !sent {
        busy := false;
        CallBack(req, NotSent);
        return;
      }
      flying := Some(req);
    }

    /** The reply to the request in flight. */
    method Finish(ok: bool)
      requires Valid() && flying.Some?
      modifies this
      ensures Valid() && Now() == Step(config, old(Now()), Event.Finish(ok))
    {
      var req := flying.value;
      busy, flying := false, None;
      CallBack(req, if ok then Done else Failed);
    }

    method CallBack(req: Flying, outcome: Outcome)
      requires Valid()
      modifies this
      ensures Valid()
      ensures Now() == match req
                       case FlyingWrite(w) => Answered(config, old(Now()), w, outcome)
                       case FlyingRead(r) => old(Now()).(readCalls := old(Now()).readCalls + [Call(r.no, outcome)])
    {
      match req {
        case FlyingWrite(w) =>
          WriteCallback(w, outcome);
        case FlyingRead(r) =>
          readCalls := readCalls + [Call(r.no, outcome)];
      }
    }
  }
}
