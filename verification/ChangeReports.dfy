/** Reporting register values only when they change: the poll of a master and the write scan of a slave. */
module ChangeReports {
  import opened Variants
  import opened PollPlan
  import opened RegisterCodec

  /** A decoded or reported value with its name. */
  datatype Named = Named(key: string, value: Value)

  // ---------------------------------------------------------------- when a value has changed

  predicate NotANumber(pattern: nat) {
    pattern / 0x80_0000 % 0x100 == 0xFF && pattern % 0x80_0000 != 0
  }

  predicate Zero(pattern: nat) {
    pattern % 0x8000_0000 == 0
  }

  /** QVariant equality: floats compare as IEEE 754 numbers, so a NaN differs from itself and the two
      zeros are the same. */
  predicate Same(a: Value, b: Value) {
    if a.Single? && b.Single? then
      && !NotANumber(a.pattern) && !NotANumber(b.pattern)
      && (a.pattern == b.pattern || (Zero(a.pattern) && Zero(b.pattern)))
    else a == b
  }

  /** The last reported values; a name that was never decoded has an invalid one. */
  type Snapshot = map<string, Value>

  predicate Changed(state: Snapshot, x: Named) {
    x.key !in state || !Same(state[x.key], x.value)
  }

  // ---------------------------------------------------------------- one report

  /** The entries that differ from the state when their turn comes. */
  function Diff(state: Snapshot, decoded: seq<Named>): seq<Named>
    decreases |decoded|
  {
    if decoded == [] then []
    else
      var x := decoded[0];
      if Changed(state, x) then [x] + Diff(state[x.key := x.value], decoded[1..]) else Diff(state, decoded[1..])
  }

  /** Later entries win. */
  function Overlay(state: Snapshot, diff: seq<Named>): Snapshot
    decreases |diff|
  {
    if diff == [] then state else Overlay(state[diff[0].key := diff[0].value], diff[1..])
  }

  /** The state after a report. */
  function After(state: Snapshot, decoded: seq<Named>): Snapshot {
    Overlay(state, Diff(state, decoded))
  }

  predicate Typed(r: Register) {
    IsRegister(r) && r.kind != DefaultType
  }

  ghost predicate AllTyped(regs: seq<Register>) {
    forall i :: 0 <= i < |regs| ==> Typed(regs[i])
  }

  // ---------------------------------------------------------------- a master's poll

  datatype Reply = Reply(start: int, words: seq<Word>)

  /** QModbusDataUnit::value: zero outside the reply. */
  function WordAt(reply: Reply, i: int): Word {
    if 0 <= i < |reply.words| then reply.words[i] else 0
  }

  /** The registers of a reply from the `i`-th on. The second word is read for two-word registers only; for
      the others it is what the register before left there. */
  function Polled(regs: seq<Register>, i: nat, reply: Reply, d1: Word): seq<Named>
    requires i <= |regs| && AllTyped(regs)
    decreases |regs| - i
  {
    if i == |regs| then []
    else
      var r := regs[i];
      var e0, e1 := WordAt(reply, r.index - reply.start), SecondWord(r, reply, d1);
      [Named(r.key, Decoded(r.kind, r.packing, e0, e1))]
        + Polled(regs, i + 1, reply, if r.packing.word != HOST then e0 else e1)
  }

  function SecondWord(r: Register, reply: Reply, d1: Word): Word {
    if r.sizeOf == 4 then WordAt(reply, r.index + 1 - reply.start) else d1
  }

  /** The reply holds the words of a value where the register is. */
  ghost predicate ReplyHolds(r: Register, reply: Reply, v: Value) {
    && IsRegister(r) && Holds(r.kind, v)
    && var words := Encoded(r.kind, r.packing, v);
       && WordAt(reply, r.index - reply.start) == words[0]
       && (r.sizeOf == 4 ==> WordAt(reply, r.index + 1 - reply.start) == words[1])
  }

  /** One register of a poll, whatever the registers before it leave in the buffer: it is decoded to the value
      in the reply if that is one that comes back; of two words, only then. */
  lemma {:induction false} PolledEntry(regs: seq<Register>, i: nat, reply: Reply, d1: Word, j: nat, v: Value)
    requires i <= j < |regs| && AllTyped(regs) && ReplyHolds(regs[j], reply, v)
    ensures
      var decoded, r := Polled(regs, i, reply, d1), regs[j];
      && |decoded| == |regs| - i && decoded[j - i].key == r.key
      && (ComesBack(r.kind, r.packing, v) ==> decoded[j - i].value == v)
      && (r.sizeOf == 4 && !ComesBack(r.kind, r.packing, v) ==> decoded[j - i].value != v)
    decreases j - i
  {
    PolledLength(regs, i, reply, d1);
    if i < j {
      var e0, e1 := WordAt(reply, regs[i].index - reply.start), SecondWord(regs[i], reply, d1);
      PolledEntry(regs, i + 1, reply, if regs[i].packing.word != HOST then e0 else e1, j, v);
    } else {
      PolledHere(regs[j], reply, d1, v);
    }
  }

  lemma {:induction false} PolledLength(regs: seq<Register>, i: nat, reply: Reply, d1: Word)
    requires i <= |regs| && AllTyped(regs)
    ensures |Polled(regs, i, reply, d1)| == |regs| - i
    decreases |regs| - i
  {
    if i < |regs| {
      var e0, e1 := WordAt(reply, regs[i].index - reply.start), SecondWord(regs[i], reply, d1);
      PolledLength(regs, i + 1, reply, if regs[i].packing.word != HOST then e0 else e1);
    }
  }

  lemma PolledHere(r: Register, reply: Reply, d1: Word, v: Value)
    requires Typed(r) && ReplyHolds(r, reply, v)
    ensures
      var x := Decoded(r.kind, r.packing, WordAt(reply, r.index - reply.start), SecondWord(r, reply, d1));
      && (ComesBack(r.kind, r.packing, v) ==> x == v)
      && (r.sizeOf == 4 && !ComesBack(r.kind, r.packing, v) ==> x != v)
  {
    DecodedIsBack(r, reply, d1, v);
    BackIff(r.kind, r.packing, v);
    if r.sizeOf == 4 {
      BackOfTwoWords(r.kind, r.packing, v, d1);
    }
  }

  lemma DecodedIsBack(r: Register, reply: Reply, d1: Word, v: Value)
    requires Typed(r) && ReplyHolds(r, reply, v)
    ensures r.sizeOf == 4 <==> r.kind == UInt32 || r.kind == Float32
    ensures Decoded(r.kind, r.packing, WordAt(reply, r.index - reply.start), SecondWord(r, reply, d1))
      == Back(r.kind, r.packing, v, d1)
  {
    EncodedLength(r.kind, r.packing, v);
  }

  /** The values of a whole poll. */
  ghost predicate ValuesOf(regs: seq<Register>, reply: Reply, values: seq<Value>) {
    |values| == |regs| && forall j :: 0 <= j < |regs| ==> ReplyHolds(regs[j], reply, values[j])
  }

  /** A poll of registers whose values all come back gives exactly these, in order, whatever the buffer held. */
  lemma PolledRoundTrip(regs: seq<Register>, reply: Reply, d1: Word, values: seq<Value>)
    requires AllTyped(regs) && ValuesOf(regs, reply, values)
    requires forall j :: 0 <= j < |regs| ==> ComesBack(regs[j].kind, regs[j].packing, values[j])
    ensures Polled(regs, 0, reply, d1) == seq(|regs|, j requires 0 <= j < |regs| => Named(regs[j].key, values[j]))
  {
    PolledLength(regs, 0, reply, d1);
    forall j | 0 <= j < |regs| ensures Polled(regs, 0, reply, d1)[j] == Named(regs[j].key, values[j]) {
      PolledEntry(regs, 0, reply, d1, j, values[j]);
    }
  }

  /** A report in progress: what was put in the diff, and what will be. */
  ghost predicate Reporting(start: Snapshot, all: seq<Named>, state: Snapshot, rest: seq<Named>, diff: seq<Named>) {
    && Diff(start, all) == diff + Diff(state, rest)
    && state == Overlay(start, diff)
  }

  lemma ReportingStep(start: Snapshot, all: seq<Named>, state: Snapshot, rest: seq<Named>, diff: seq<Named>)
    requires Reporting(start, all, state, rest, diff) && rest != []
    ensures
      var x := rest[0];
      if Changed(state, x) then Reporting(start, all, state[x.key := x.value], rest[1..], diff + [x])
      else Reporting(start, all, state, rest[1..], diff)
  {
    if Changed(state, rest[0]) {
      OverlaySnoc(start, diff, rest[0]);
      var tail := Diff(state[rest[0].key := rest[0].value], rest[1..]);
      assert diff + ([rest[0]] + tail) == diff + [rest[0]] + tail;
    }
  }

  lemma {:induction false} OverlaySnoc(state: Snapshot, diff: seq<Named>, x: Named)
    ensures Overlay(state, diff + [x]) == Overlay(state, diff)[x.key := x.value]
    decreases |diff|
  {
    if diff == [] {
      assert [] + [x] == [x];
    } else {
      assert (diff + [x])[1..] == diff[1..] + [x];
      OverlaySnoc(state[diff[0].key := diff[0].value], diff[1..], x);
    }
  }

  class Master {
    var currentState: Snapshot

    constructor ()
      ensures currentState == map[]
    {
      currentState := map[];
    }

    /** `unset` is what the decoding buffer holds at the start. The message that is sent is the diff. */
    method ParsePoll(regs: seq<Register>, reply: Reply, unset: Word) returns (sent: Option<seq<Named>>)
      requires AllTyped(regs)
      modifies this
      ensures currentState == After(old(currentState), Polled(regs, 0, reply, unset))
      ensures
        var diff := Diff(old(currentState), Polled(regs, 0, reply, unset));
        sent == if diff == [] then None else Some(diff)
    {
      var diff: seq<Named> := [];
      var data1 := unset;
      ghost var all := Polled(regs, 0, reply, unset);
      for i := 0 to |regs|
        invariant Reporting(old(currentState), all, currentState, Polled(regs, i, reply, data1), diff)
      {
        var reg := regs[i];
        ghost var now := Polled(regs, i, reply, data1);
        var data0 := WordAt(reply, reg.index - reply.start);
        if reg.sizeOf == 4 {
          data1 := WordAt(reply, reg.index + 1 - reply.start);
        }
        var decoded := Decoded(reg.kind, reg.packing, data0, data1);
        if reg.packing.word != HOST {
          data1 := data0;
        }
        diff := Note(reg.key, decoded, old(currentState), all, now, diff);
      }
      assert diff + [] == diff;
      sent := if |diff| > 0 then Some(diff) else None;
    }

    /** A decoded value goes into the state and the diff if it has changed. */
    method Note(key: string, decoded: Value, ghost start: Snapshot, ghost all: seq<Named>, ghost rest: seq<Named>,
                diff: seq<Named>)
      returns (more: seq<Named>)
      requires rest != [] && rest[0] == Named(key, decoded) && Reporting(start, all, currentState, rest, diff)
      modifies this
      ensures Reporting(start, all, currentState, rest[1..], more)
    {
      ReportingStep(start, all, currentState, rest, diff);
      more := diff;
      if key !in currentState || !Same(currentState[key], decoded) {
        currentState := currentState[key := decoded];
        more := diff + [Named(key, decoded)];
      }
    }
  }

  // ---------------------------------------------------------------- a slave's write scan

  predicate Touches(r: Register, address: int, size: int) {
    r.index < address + size && address < End(r)
  }

  /** A slave's memory of one register type, by 16-bit address; what is not there reads as zero. */
  type Memory = map<int, Word>

  function MemoryAt(memory: Memory, index: int): Word {
    if index % 0x1_0000 in memory then memory[index % 0x1_0000] else 0
  }

  function Stored(r: Register, memory: Memory): Named
    requires Typed(r)
  {
    var d1 := if r.sizeOf == 4 then MemoryAt(memory, r.index + 1) else 0;
    Named(r.key, Decoded(r.kind, r.packing, MemoryAt(memory, r.index), d1))
  }

  /** The registers from the `i`-th on that share a word with the written addresses. */
  function Written(sorted: seq<Register>, i: nat, memory: Memory, address: int, size: int): seq<Named>
    requires i <= |sorted| && AllTyped(sorted)
    decreases |sorted| - i
  {
    if i == |sorted| then []
    else if Touches(sorted[i], address, size) then
      [Stored(sorted[i], memory)] + Written(sorted, i + 1, memory, address, size)
    else Written(sorted, i + 1, memory, address, size)
  }

  /** The registers are in order, so behind the written addresses none is touched. */
  lemma {:induction false} NoneTouchedLater(sorted: seq<Register>, i: nat, memory: Memory, address: int, size: int)
    requires i <= |sorted| && AllTyped(sorted)
    requires forall j :: i <= j < |sorted| ==> sorted[j].index >= address + size
    ensures Written(sorted, i, memory, address, size) == []
    decreases |sorted| - i
  {
    if i < |sorted| {
      NoneTouchedLater(sorted, i + 1, memory, address, size);
    }
  }

  class Slave {
    var currentState: Snapshot
    var applying: bool

    constructor ()
      ensures currentState == map[] && !applying
    {
      currentState, applying := map[], false;
    }

    /** A write of the slave's own is not reported. */
    method OnDataWritten(sorted: seq<Register>, memory: Memory, address: int, size: int)
      returns (sent: Option<seq<Named>>)
      requires ByIndex(sorted) && AllTyped(sorted)
      modifies this
      ensures applying == old(applying)
      ensures applying ==> sent == None && currentState == old(currentState)
      ensures !applying ==> currentState == After(old(currentState), Written(sorted, 0, memory, address, size))
      ensures !applying ==>
        var diff := Diff(old(currentState), Written(sorted, 0, memory, address, size));
        sent == if diff == [] then None else Some(diff)
    {
      if applying {
        return None;
      }
      var diff: seq<Named> := [];
      ghost var all := Written(sorted, 0, memory, address, size);
      var i := 0;
      while i < |sorted|
        invariant i <= |sorted| && applying == old(applying)
        invariant Reporting(old(currentState), all, currentState, Written(sorted, i, memory, address, size), diff)
      {
        var reg := sorted[i];
        if reg.index + reg.sizeOf / 2 <= address {
          i := i + 1;
          continue;
        }
        if reg.index >= address + size {
          NoneTouchedLater(sorted, i, memory, address, size);
          i := |sorted|;
          break;
        }
        ghost var now := Written(sorted, i, memory, address, size);
        var data0, data1 := MemoryAt(memory, reg.index), 0;
        if reg.sizeOf == 4 {
          data1 := MemoryAt(memory, reg.index + 1);
        }
        var decoded := Decoded(reg.kind, reg.packing, data0, data1);
        diff := Note(reg.key, decoded, old(currentState), all, now, diff);
        i := i + 1;
      }
      assert diff + [] == diff;
      sent := if |diff| > 0 then Some(diff) else None;
    }

    /** A decoded value goes into the state and the diff if it has changed. */
    method Note(key: string, decoded: Value, ghost start: Snapshot, ghost all: seq<Named>, ghost rest: seq<Named>,
                diff: seq<Named>)
      returns (more: seq<Named>)
      requires rest != [] && rest[0] == Named(key, decoded) && Reporting(start, all, currentState, rest, diff)
      modifies this`currentState
      ensures Reporting(start, all, currentState, rest[1..], more)
    {
      ReportingStep(start, all, currentState, rest, diff);
      more := diff;
      if key !in currentState || !Same(currentState[key], decoded) {
        currentState := currentState[key := decoded];
        more := diff + [Named(key, decoded)];
      }
    }
  }

  /** The scan reads exactly the registers that share a word with the written addresses. */
  lemma {:induction false} ScanExact(sorted: seq<Register>, i: nat, memory: Memory, address: int, size: int, x: Named)
    requires i <= |sorted| && AllTyped(sorted) && size > 0
    ensures x in Written(sorted, i, memory, address, size) <==>
            exists j :: i <= j < |sorted| && Shares(sorted[j], address, size) && x == Stored(sorted[j], memory)
    decreases |sorted| - i
  {
    if i < |sorted| {
      ScanExact(sorted, i + 1, memory, address, size, x);
      TouchesIff(sorted[i], address, size);
      if Touches(sorted[i], address, size) && x == Stored(sorted[i], memory) {
        assert Written(sorted, i, memory, address, size)[0] == x;
      }
    }
  }

  ghost predicate Shares(r: Register, address: int, size: int) {
    exists word :: Covers(r, word) && address <= word < address + size
  }

  lemma TouchesIff(r: Register, address: int, size: int)
    requires IsRegister(r) && size > 0
    ensures Touches(r, address, size) <==> Shares(r, address, size)
  {
    if Touches(r, address, size) {
      assert Covers(r, if r.index < address then address else r.index);
    }
  }

  // ---------------------------------------------------------------- runs of reports

  function Joined(reports: seq<seq<Named>>): seq<Named> {
    if reports == [] then [] else reports[0] + Joined(reports[1..])
  }

  /** The messages sent over a run of polls or scans. */
  function Sent(state: Snapshot, run: seq<seq<Named>>): seq<seq<Named>>
    decreases |run|
  {
    if run == [] then []
    else
      var diff, rest := Diff(state, run[0]), Sent(After(state, run[0]), run[1..]);
      if diff == [] then rest else [diff] + rest
  }

  function Final(state: Snapshot, run: seq<seq<Named>>): Snapshot
    decreases |run|
  {
    if run == [] then state else Final(After(state, run[0]), run[1..])
  }

  lemma {:induction false} DiffAppend(state: Snapshot, a: seq<Named>, b: seq<Named>)
    ensures Diff(state, a + b) == Diff(state, a) + Diff(After(state, a), b)
    decreases |a|
  {
    if a == [] {
      assert a + b == b;
    } else {
      assert (a + b)[1..] == a[1..] + b;
      DiffAppend(if Changed(state, a[0]) then state[a[0].key := a[0].value] else state, a[1..], b);
    }
  }

  lemma {:induction false} OverlayAppend(state: Snapshot, a: seq<Named>, b: seq<Named>)
    ensures Overlay(state, a + b) == Overlay(Overlay(state, a), b)
    decreases |a|
  {
    if a == [] {
      assert a + b == b;
    } else {
      assert (a + b)[1..] == a[1..] + b;
      OverlayAppend(state[a[0].key := a[0].value], a[1..], b);
    }
  }

  /** The value a name was decoded to last. */
  function LastDecoded(decoded: seq<Named>, key: string): Option<Value>
    decreases |decoded|
  {
    if decoded == [] then None
    else
      var last := decoded[|decoded| - 1];
      if last.key == key then Some(last.value) else LastDecoded(decoded[..|decoded| - 1], key)
  }

  /** The value held for a name is the decoded one, or one that compares the same. */
  predicate Settled(state: Snapshot, key: string, v: Value) {
    key in state && (state[key] == v || Same(state[key], v))
  }

  lemma {:induction false} AfterSettled(state: Snapshot, decoded: seq<Named>, key: string)
    ensures match LastDecoded(decoded, key)
            case None => (key in After(state, decoded) <==> key in state)
              && (key in state ==> After(state, decoded)[key] == state[key])
            case Some(v) => Settled(After(state, decoded), key, v)
    decreases |decoded|
  {
    if decoded != [] {
      var front, last := decoded[..|decoded| - 1], decoded[|decoded| - 1];
      assert decoded == front + [last];
      AfterSettled(state, front, key);
      AfterSnoc(state, front, last);
    }
  }

  lemma AfterSnoc(state: Snapshot, front: seq<Named>, last: Named)
    ensures
      var before := After(state, front);
      After(state, front + [last]) == if Changed(before, last) then before[last.key := last.value] else before
  {
    var before := After(state, front);
    DiffAppend(state, front, [last]);
    assert [last][1..] == [];
    OverlayAppend(state, Diff(state, front), Diff(before, [last]));
  }

  /** Over a run: the messages joined are the diff of everything that was decoded, and laid over the state
      before, in order, they give the state after. */
  lemma {:induction false} RunReports(state: Snapshot, run: seq<seq<Named>>)
    ensures Joined(Sent(state, run)) == Diff(state, Joined(run))
    ensures Overlay(state, Joined(Sent(state, run))) == Final(state, run)
    decreases |run|
  {
    if run != [] {
      var next := After(state, run[0]);
      RunReports(next, run[1..]);
      DiffAppend(state, run[0], Joined(run[1..]));
      OverlayAppend(state, Diff(state, run[0]), Joined(Sent(next, run[1..])));
      JoinedSent(state, run);
    }
  }

  lemma JoinedSent(state: Snapshot, run: seq<seq<Named>>)
    requires run != []
    ensures Joined(Sent(state, run)) == Diff(state, run[0]) + Joined(Sent(After(state, run[0]), run[1..]))
  {
    var diff, rest := Diff(state, run[0]), Sent(After(state, run[0]), run[1..]);
    if diff != [] {
      assert ([diff] + rest)[1..] == rest;
    }
  }

  /** Whoever lays the messages over the starting state holds, for every name, the value decoded last. */
  lemma FollowersHoldLastValues(state: Snapshot, run: seq<seq<Named>>, key: string)
    ensures match LastDecoded(Joined(run), key)
            case None => (key in Overlay(state, Joined(Sent(state, run))) <==> key in state)
              && (key in state ==> Overlay(state, Joined(Sent(state, run)))[key] == state[key])
            case Some(v) => Settled(Overlay(state, Joined(Sent(state, run))), key, v)
  {
    RunReports(state, run);
    AfterSettled(state, Joined(run), key);
  }

  lemma {:induction false} NoEmptyMessage(state: Snapshot, run: seq<seq<Named>>, i: nat)
    requires i < |Sent(state, run)|
    ensures Sent(state, run)[i] != []
    decreases |run|
  {
    var diff, next := Diff(state, run[0]), After(state, run[0]);
    if diff == [] {
      NoEmptyMessage(next, run[1..], i);
    } else if i > 0 {
      NoEmptyMessage(next, run[1..], i - 1);
    }
  }

  /** Every entry that was sent changed the value its followers held when it came. */
  lemma {:induction false} EveryEntryChanges(state: Snapshot, decoded: seq<Named>, i: nat)
    requires i < |Diff(state, decoded)|
    ensures Changed(Overlay(state, Diff(state, decoded)[..i]), Diff(state, decoded)[i])
    decreases |decoded|
  {
    var x := decoded[0];
    if Changed(state, x) {
      var next := state[x.key := x.value];
      var rest := Diff(next, decoded[1..]);
      if i > 0 {
        EveryEntryChanges(next, decoded[1..], i - 1);
        assert ([x] + rest)[..i][1..] == rest[..i - 1];
      }
    } else {
      EveryEntryChanges(state, decoded[1..], i);
    }
  }

  lemma RunEntriesChange(state: Snapshot, run: seq<seq<Named>>, i: nat)
    requires i < |Joined(Sent(state, run))|
    ensures Changed(Overlay(state, Joined(Sent(state, run))[..i]), Joined(Sent(state, run))[i])
  {
    RunReports(state, run);
    EveryEntryChanges(state, Joined(run), i);
  }

  // ---------------------------------------------------------------- the same values again

  predicate HoldsNaN(x: Named) {
    x.value.Single? && NotANumber(x.value.pattern)
  }

  function NaNs(decoded: seq<Named>): seq<Named> {
    if decoded == [] then []
    else (if HoldsNaN(decoded[0]) then [decoded[0]] else []) + NaNs(decoded[1..])
  }

  ghost predicate NamesDiffer(decoded: seq<Named>) {
    forall i, j :: 0 <= i < j < |decoded| ==> decoded[i].key != decoded[j].key
  }

  ghost predicate AllSettled(state: Snapshot, decoded: seq<Named>) {
    forall i :: 0 <= i < |decoded| ==> Settled(state, decoded[i].key, decoded[i].value)
  }

  function Repeats(decoded: seq<Named>, n: nat): seq<seq<Named>> {
    if n == 0 then [] else [decoded] + Repeats(decoded, n - 1)
  }

  lemma {:induction false} DecodedLast(decoded: seq<Named>, i: nat)
    requires NamesDiffer(decoded) && i < |decoded|
    ensures LastDecoded(decoded, decoded[i].key) == Some(decoded[i].value)
    decreases |decoded|
  {
    if i < |decoded| - 1 {
      DecodedLast(decoded[..|decoded| - 1], i);
    }
  }

  lemma AfterAllSettled(state: Snapshot, decoded: seq<Named>)
    requires NamesDiffer(decoded)
    ensures AllSettled(After(state, decoded), decoded)
  {
    forall i | 0 <= i < |decoded| ensures Settled(After(state, decoded), decoded[i].key, decoded[i].value) {
      DecodedLast(decoded, i);
      AfterSettled(state, decoded, decoded[i].key);
    }
  }

  /** Where every value is held already, the NaNs are what differs. */
  lemma {:induction false} SettledDiff(state: Snapshot, decoded: seq<Named>)
    requires AllSettled(state, decoded)
    ensures Diff(state, decoded) == NaNs(decoded)
    decreases |decoded|
  {
    if decoded != [] {
      var x := decoded[0];
      assert Settled(state, x.key, x.value);
      assert Changed(state, x) <==> HoldsNaN(x);
      SettledDiff(if Changed(state, x) then state[x.key := x.value] else state, decoded[1..]);
    }
  }

  /** A reading polled again is not reported exactly if it holds no NaN. */
  lemma ReportedAgainIff(state: Snapshot, x: Named)
    ensures Diff(After(state, [x]), [x]) == [] <==> !(x.value.Single? && NotANumber(x.value.pattern))
    ensures Diff(After(state, [x]), [x]) == [] || Diff(After(state, [x]), [x]) == [x]
  {
    AfterAllSettled(state, [x]);
    SettledDiff(After(state, [x]), [x]);
    assert [x][1..] == [];
  }

  /** Over a run in which all registers keep their words: after the first poll nothing is sent, unless there
      are NaNs, which are sent at every poll and alone. */
  lemma {:induction false} RepeatedReadings(state: Snapshot, decoded: seq<Named>, n: nat)
    requires NamesDiffer(decoded)
    ensures Sent(After(state, decoded), Repeats(decoded, n)) ==
      if NaNs(decoded) == [] then [] else Repeats(NaNs(decoded), n)
    decreases n
  {
    if n > 0 {
      var once := After(state, decoded);
      AfterAllSettled(state, decoded);
      SettledDiff(once, decoded);
      RepeatedReadings(once, decoded, n - 1);
      assert Repeats(decoded, n)[1..] == Repeats(decoded, n - 1);
    }
  }
}
