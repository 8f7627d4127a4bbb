/** Grouping planned registers into requests: merged runs, manual queries, and the slave's ranges. */
module PollRuns {
  import opened PollPlan

  /** QModbusDataUnit: the addresses of one request. */
  datatype Unit = Unit(start: int, count: nat)

  datatype MergedRead = MergedRead(regs: seq<Register>, unit: Unit)

  function Last(regs: seq<Register>): Register
    requires regs != []
  {
    regs[|regs| - 1]
  }

  // ---------------------------------------------------------------- merged runs

  /** Each register begins where the one before it ends. */
  ghost predicate Adjacent(regs: seq<Register>) {
    forall i :: 0 <= i < |regs| - 1 ==> regs[i + 1].index == End(regs[i])
  }

  /** A request that covers a gapless run of registers and nothing else. */
  ghost predicate IsRun(m: MergedRead) {
    && m.regs != [] && Adjacent(m.regs)
    && m.unit.start == m.regs[0].index
    && m.unit.start + m.unit.count == End(Last(m.regs))
  }

  ghost predicate Apart(a: MergedRead, b: MergedRead) {
    a.regs != [] && b.regs != [] && b.regs[0].index != End(Last(a.regs))
  }

  /** Every request is a run, and no two neighbours could have been one. */
  ghost predicate MaximalRuns(runs: seq<MergedRead>) {
    && (forall k :: 0 <= k < |runs| ==> IsRun(runs[k]))
    && forall k :: 0 <= k < |runs| - 1 ==> Apart(runs[k], runs[k + 1])
  }

  function AllRegs(runs: seq<MergedRead>): seq<Register> {
    if runs == [] then [] else AllRegs(runs[..|runs| - 1]) + runs[|runs| - 1].regs
  }

  lemma AllRegsSnoc(runs: seq<MergedRead>, m: MergedRead)
    ensures AllRegs(runs + [m]) == AllRegs(runs) + m.regs
  {
    assert (runs + [m])[..|runs|] == runs;
  }

  ghost predicate Grouped(runs: seq<MergedRead>, sorted: seq<Register>) {
    MaximalRuns(runs) && AllRegs(runs) == sorted
  }

  function SetAsFirst(reg: Register): MergedRead {
    MergedRead([reg], Unit(reg.index, reg.sizeOf / 2))
  }

  /** The finished runs and the one that is still growing. */
  ghost predicate Growing(out: seq<MergedRead>, merge: MergedRead, sorted: seq<Register>, i: nat) {
    && i <= |sorted| && MaximalRuns(out) && IsRun(merge)
    && (out != [] ==> Apart(out[|out| - 1], merge))
    && AllRegs(out) + merge.regs == sorted[..i]
  }

  method MergeSorted(sorted: seq<Register>) returns (out: seq<MergedRead>)
    ensures Grouped(out, sorted)
  {
    out := [];
    if |sorted| == 0 {
      return;
    }
    var merge := SetAsFirst(sorted[0]);
    FirstRun(sorted);
    for i := 1 to |sorted|
      invariant Growing(out, merge, sorted, i)
    {
      var reg := sorted[i];
      var last := merge.regs[|merge.regs| - 1];
      if reg.index == last.index + last.sizeOf / 2 {
        RunGrows(out, merge, sorted, i);
        merge := MergedRead(merge.regs + [reg], merge.unit.(count := merge.unit.count + reg.sizeOf / 2));
      } else {
        RunStarts(out, merge, sorted, i);
        out := out + [merge];
        merge := SetAsFirst(reg);
      }
    }
    RunsDone(out, merge, sorted);
    out := out + [merge];
  }

  lemma FirstRun(sorted: seq<Register>)
    requires sorted != []
    ensures Growing([], SetAsFirst(sorted[0]), sorted, 1)
  {
    assert [] + [sorted[0]] == sorted[..1];
  }

  lemma RunGrows(out: seq<MergedRead>, merge: MergedRead, sorted: seq<Register>, i: nat)
    requires Growing(out, merge, sorted, i) && i < |sorted| && sorted[i].index == End(Last(merge.regs))
    ensures
      var unit := merge.unit.(count := merge.unit.count + Words(sorted[i]));
      Growing(out, MergedRead(merge.regs + [sorted[i]], unit), sorted, i + 1)
  {
    var next := merge.regs + [sorted[i]];
    forall k | 0 <= k < |next| - 1 ensures next[k + 1].index == End(next[k]) {
      if k < |merge.regs| - 1 {
        assert merge.regs[k + 1].index == End(merge.regs[k]);
      }
    }
    assert sorted[..i + 1] == AllRegs(out) + merge.regs + [sorted[i]] == AllRegs(out) + next;
  }

  lemma RunEnds(out: seq<MergedRead>, merge: MergedRead, sorted: seq<Register>, i: nat)
    requires Growing(out, merge, sorted, i)
    ensures Grouped(out + [merge], sorted[..i])
  {
    AllRegsSnoc(out, merge);
  }

  lemma RunStarts(out: seq<MergedRead>, merge: MergedRead, sorted: seq<Register>, i: nat)
    requires Growing(out, merge, sorted, i) && i < |sorted| && sorted[i].index != End(Last(merge.regs))
    ensures Growing(out + [merge], SetAsFirst(sorted[i]), sorted, i + 1)
  {
    RunEnds(out, merge, sorted, i);
    assert (out + [merge])[|out|] == merge;
    assert sorted[..i + 1] == sorted[..i] + [sorted[i]];
  }

  lemma RunsDone(out: seq<MergedRead>, merge: MergedRead, sorted: seq<Register>)
    requires Growing(out, merge, sorted, |sorted|)
    ensures Grouped(out + [merge], sorted)
  {
    RunEnds(out, merge, sorted, |sorted|);
    assert sorted[..|sorted|] == sorted;
  }

  /** The registers of a type grouped into requests, or the reason why they cannot be polled. */
  datatype Reads = Reads(runs: seq<MergedRead>) | NoReads(why: Refusal)

  method MergeSingle(settings: map<string, Setting>) returns (polls: Reads)
    ensures polls.NoReads? ==> PlanOf(Refused(polls.why), AllWanted(settings, false))
    ensures polls.Reads? ==>
      PlanOf(Planned(AllRegs(polls.runs)), AllWanted(settings, false)) && Grouped(polls.runs, AllRegs(polls.runs))
  {
    var plan := PrepareReadableSorted(settings, false);
    match plan {
      case Planned(regs) =>
        var runs := MergeSorted(regs);
        polls := Reads(runs);
      case Refused(why) =>
        polls := NoReads(why);
    }
  }

  /** The grouping is unique: there is one way to cut the registers into maximal runs. */
  lemma {:induction false} GroupingUnique(a: seq<MergedRead>, b: seq<MergedRead>, sorted: seq<Register>)
    requires Grouped(a, sorted) && Grouped(b, sorted)
    ensures a == b
    decreases |a|
  {
    NoRegsNoRuns(a);
    NoRegsNoRuns(b);
    if a != [] {
      LastRunSame(a, b, sorted);
      GroupingUnique(a[..|a| - 1], b[..|b| - 1], AllRegs(a[..|a| - 1]));
      assert a == a[..|a| - 1] + [a[|a| - 1]] && b == b[..|b| - 1] + [b[|b| - 1]];
    }
  }

  /** The last runs are the same, and the others group the registers before. */
  lemma LastRunSame(a: seq<MergedRead>, b: seq<MergedRead>, sorted: seq<Register>)
    requires Grouped(a, sorted) && Grouped(b, sorted) && a != [] && b != []
    ensures a[|a| - 1] == b[|b| - 1]
    ensures Grouped(a[..|a| - 1], AllRegs(a[..|a| - 1])) && Grouped(b[..|b| - 1], AllRegs(a[..|a| - 1]))
  {
    LastRunNotShorter(a, b, sorted);
    LastRunNotShorter(b, a, sorted);
    SameLastRun(a, b, sorted);
    FrontIsGrouped(a);
    FrontIsGrouped(b);
  }

  lemma FrontIsGrouped(a: seq<MergedRead>)
    requires MaximalRuns(a) && a != []
    ensures Grouped(a[..|a| - 1], AllRegs(a[..|a| - 1]))
  {
    var front := a[..|a| - 1];
    forall k | 0 <= k < |front| - 1 ensures Apart(front[k], front[k + 1]) {
      assert Apart(a[k], a[k + 1]);
    }
  }

  lemma NoRegsNoRuns(runs: seq<MergedRead>)
    requires MaximalRuns(runs)
    ensures AllRegs(runs) == [] <==> runs == []
  {
    if runs != [] {
      assert IsRun(runs[|runs| - 1]);
    }
  }

  lemma SameLastRun(a: seq<MergedRead>, b: seq<MergedRead>, sorted: seq<Register>)
    requires Grouped(a, sorted) && Grouped(b, sorted) && a != [] && b != []
    requires |a[|a| - 1].regs| == |b[|b| - 1].regs|
    ensures a[|a| - 1] == b[|b| - 1] && AllRegs(a[..|a| - 1]) == AllRegs(b[..|b| - 1])
  {
    var x, y := a[|a| - 1], b[|b| - 1];
    var p := |sorted| - |x.regs|;
    assert IsRun(x) && IsRun(y);
    assert x.regs == sorted[p..] && y.regs == sorted[p..];
    assert AllRegs(a[..|a| - 1]) == sorted[..p] && AllRegs(b[..|b| - 1]) == sorted[..p];
  }

  lemma LastRunNotShorter(a: seq<MergedRead>, b: seq<MergedRead>, sorted: seq<Register>)
    requires Grouped(a, sorted) && Grouped(b, sorted) && a != [] && b != []
    ensures |a[|a| - 1].regs| >= |b[|b| - 1].regs|
  {
    var p := |sorted| - |a[|a| - 1].regs|;
    if 0 < p < |sorted| {
      BeforeLastRun(a, p);
      InsideLastRun(b, p);
    } else {
      assert IsRun(a[|a| - 1]);
    }
  }

  /** Within a run each register begins where the one before it ends. */
  lemma InsideLastRun(b: seq<MergedRead>, p: nat)
    requires MaximalRuns(b) && b != [] && 0 < p < |AllRegs(b)|
    ensures p > |AllRegs(b)| - |b[|b| - 1].regs| ==> AllRegs(b)[p].index == End(AllRegs(b)[p - 1])
  {
    var y, n := b[|b| - 1], |AllRegs(b)| - |b[|b| - 1].regs|;
    assert IsRun(y);
    if p > n {
      assert AllRegs(b)[p] == y.regs[p - n] && AllRegs(b)[p - 1] == y.regs[p - n - 1];
      assert y.regs[(p - n - 1) + 1].index == End(y.regs[p - n - 1]);
    }
  }

  lemma BeforeLastRun(a: seq<MergedRead>, p: nat)
    requires MaximalRuns(a) && a != [] && p > 0 && p == |AllRegs(a)| - |a[|a| - 1].regs|
    ensures p < |AllRegs(a)| && AllRegs(a)[p].index != End(AllRegs(a)[p - 1])
  {
    var front := a[..|a| - 1];
    assert front != [];
    assert Apart(a[|a| - 2], a[|a| - 2 + 1]);
    assert AllRegs(front) == AllRegs(front[..|front| - 1]) + front[|front| - 1].regs;
    assert front[|front| - 1] == a[|a| - 2];
  }

  // -- what a request covers

  /** Every word of every register of a run is inside its request. */
  lemma {:induction false} PollInside(m: MergedRead, i: nat)
    requires IsRun(m) && AllRegisters(m.regs) && i < |m.regs|
    ensures m.unit.start <= m.regs[i].index && End(m.regs[i]) <= m.unit.start + m.unit.count
  {
    RunOrdered(m.regs, 0, i);
    RunOrdered(m.regs, i, |m.regs| - 1);
  }

  lemma {:induction false} RunOrdered(regs: seq<Register>, i: nat, j: nat)
    requires Adjacent(regs) && AllRegisters(regs) && i <= j < |regs|
    ensures regs[i].index <= regs[j].index && End(regs[i]) <= End(regs[j])
    ensures i < j ==> End(regs[i]) <= regs[j].index
    decreases j - i
  {
    if i < j {
      RunOrdered(regs, i, j - 1);
      assert regs[(j - 1) + 1].index == End(regs[j - 1]);
    }
  }

  /** The register that holds an address of the request. */
  lemma {:induction false} TileAt(regs: seq<Register>, address: int, n: nat) returns (i: nat)
    requires Adjacent(regs) && n < |regs| && regs[0].index <= address < End(regs[n])
    ensures i <= n && Covers(regs[i], address)
  {
    if regs[n].index <= address || n == 0 {
      i := n;
    } else {
      assert regs[(n - 1) + 1].index == End(regs[n - 1]);
      i := TileAt(regs, address, n - 1);
    }
  }

  /** The registers of a run tile its request: every address asked for belongs to exactly one register,
      and no register has a word outside. */
  lemma RunTilesExactly(m: MergedRead, address: int)
    requires IsRun(m) && AllRegisters(m.regs)
    ensures (exists i :: 0 <= i < |m.regs| && Covers(m.regs[i], address)) <==>
            m.unit.start <= address < m.unit.start + m.unit.count
    ensures forall i, j ::
      0 <= i < j < |m.regs| ==> !(Covers(m.regs[i], address) && Covers(m.regs[j], address))
  {
    if m.unit.start <= address < m.unit.start + m.unit.count {
      var i := TileAt(m.regs, address, |m.regs| - 1);
    }
    forall i | 0 <= i < |m.regs| && Covers(m.regs[i], address)
      ensures m.unit.start <= address < m.unit.start + m.unit.count
    {
      PollInside(m, i);
    }
    forall i, j | 0 <= i < j < |m.regs|
      ensures !(Covers(m.regs[i], address) && Covers(m.regs[j], address))
    {
      RunOrdered(m.regs, i, j);
    }
  }

  // ---------------------------------------------------------------- manual queries

  const TWO_32: int := 0x1_0000_0000

  /** An unsigned 32-bit value as int sees it. */
  function AsInt(u: int): int
    requires 0 <= u < TWO_32
  {
    if u < 0x8000_0000 then u else u - TWO_32
  }

  datatype ManualQuery = ManualQuery(index: int, count: int)

  predicate IsQuery(q: ManualQuery) {
    0 <= q.index < TWO_32 && 0 <= q.count < TWO_32
  }

  function QueryEnd(q: ManualQuery): int
    requires IsQuery(q)
  {
    AsInt((q.index + q.count) % TWO_32)
  }

  predicate StartsIn(q: ManualQuery, r: Register)
    requires IsQuery(q)
  {
    AsInt(q.index) <= r.index < QueryEnd(q)
  }

  /** The end as prepareSingleManual counts it: in bytes from the index, not in words. */
  function EndInBytes(r: Register): int {
    r.index + r.sizeOf
  }

  datatype Manual = Accepted(read: MergedRead) | WouldSplit(key: string)

  /** The registers that start in the window of a query. */
  ghost function Starting(q: ManualQuery, regs: seq<Register>): seq<Register>
    requires IsQuery(q)
  {
    if regs == [] then []
    else
      var front, last := Starting(q, regs[..|regs| - 1]), Last(regs);
      if StartsIn(q, last) then front + [last] else front
  }

  ghost predicate ManualOf(m: Manual, q: ManualQuery, regs: seq<Register>)
    requires IsQuery(q)
  {
    match m
    case Accepted(read) =>
      && read == MergedRead(Starting(q, regs), Unit(AsInt(q.index), q.count))
      && forall i :: 0 <= i < |regs| && StartsIn(q, regs[i]) ==> EndInBytes(regs[i]) <= QueryEnd(q)
    case WouldSplit(key) =>
      exists i :: 0 <= i < |regs| && StartsIn(q, regs[i]) && EndInBytes(regs[i]) > QueryEnd(q) && regs[i].key == key
  }

  method PrepareSingleManual(q: ManualQuery, regs: seq<Register>) returns (m: Manual)
    requires IsQuery(q) && ByIndex(regs)
    ensures ManualOf(m, q, regs)
  {
    var kept: seq<Register> := [];
    var end := (q.index + q.count) % TWO_32;
    var i := 0;
    while i < |regs|
      invariant KeptUpTo(q, regs, i, kept)
    {
      var r := regs[i];
      var regEnd := r.index + r.sizeOf;
      ManualStep(q, regs, i, kept);
      if r.index >= AsInt(q.index) && r.index < AsInt(end) {
        if regEnd > AsInt(end) {
          return WouldSplit(r.key);
        }
        kept := kept + [r];
      } else if r.index >= AsInt(end) {
        break;
      }
      i := i + 1;
    }
    ManualDone(q, regs, i, kept);
    m := Accepted(MergedRead(kept, Unit(AsInt(q.index), q.count)));
  }

  /** The registers before the `i`-th that were kept, with no reason to refuse among them. */
  ghost predicate KeptUpTo(q: ManualQuery, regs: seq<Register>, i: nat, kept: seq<Register>)
    requires IsQuery(q)
  {
    i <= |regs| && ManualOf(Accepted(MergedRead(kept, Unit(AsInt(q.index), q.count))), q, regs[..i])
  }

  /** One register more: kept, skipped, or the reason to refuse. */
  lemma ManualStep(q: ManualQuery, regs: seq<Register>, i: nat, kept: seq<Register>)
    requires IsQuery(q) && i < |regs| && KeptUpTo(q, regs, i, kept)
    ensures !StartsIn(q, regs[i]) ==> KeptUpTo(q, regs, i + 1, kept)
    ensures StartsIn(q, regs[i]) && EndInBytes(regs[i]) <= QueryEnd(q) ==> KeptUpTo(q, regs, i + 1, kept + [regs[i]])
    ensures StartsIn(q, regs[i]) && EndInBytes(regs[i]) > QueryEnd(q) ==> ManualOf(WouldSplit(regs[i].key), q, regs)
  {
    assert regs[..i + 1][..i] == regs[..i];
  }

  lemma ManualDone(q: ManualQuery, regs: seq<Register>, i: nat, kept: seq<Register>)
    requires IsQuery(q) && ByIndex(regs) && KeptUpTo(q, regs, i, kept)
    requires i < |regs| ==> regs[i].index >= QueryEnd(q)
    ensures ManualOf(Accepted(MergedRead(kept, Unit(AsInt(q.index), q.count))), q, regs)
  {
    if i == |regs| {
      assert regs[..i] == regs;
    } else {
      NoneStartsLater(q, regs, i);
      forall j | 0 <= j < |regs| && StartsIn(q, regs[j]) ensures EndInBytes(regs[j]) <= QueryEnd(q) {
        assert regs[..i][j] == regs[j];
      }
    }
  }

  /** The registers are in order, so leaving the loop early loses none. */
  lemma {:induction false} NoneStartsLater(q: ManualQuery, regs: seq<Register>, i: nat)
    requires IsQuery(q) && ByIndex(regs) && i < |regs| && regs[i].index >= QueryEnd(q)
    ensures Starting(q, regs) == Starting(q, regs[..i])
    ensures forall j :: i <= j < |regs| ==> !StartsIn(q, regs[j])
    decreases |regs|
  {
    var front := regs[..|regs| - 1];
    if i < |front| {
      NoneStartsLater(q, front, i);
      assert front[..i] == regs[..i];
    }
  }

  lemma {:induction false} StartingAt(q: ManualQuery, regs: seq<Register>, k: nat) returns (i: nat)
    requires IsQuery(q) && k < |Starting(q, regs)|
    ensures i < |regs| && regs[i] == Starting(q, regs)[k] && StartsIn(q, regs[i])
    decreases |regs|
  {
    var front := regs[..|regs| - 1];
    if k < |Starting(q, front)| {
      i := StartingAt(q, front, k);
    } else {
      i := |regs| - 1;
    }
  }

  /** No register of an accepted query has a word outside its request, whatever the 32-bit sums do. */
  lemma ManualInside(q: ManualQuery, regs: seq<Register>, m: Manual, k: nat)
    requires IsQuery(q) && AllRegisters(regs) && m.Accepted? && ManualOf(m, q, regs) && k < |m.read.regs|
    ensures m.read.unit.start <= m.read.regs[k].index
    ensures End(m.read.regs[k]) <= m.read.unit.start + m.read.unit.count
  {
    var i := StartingAt(q, regs, k);
    EndNotBeyond(q);
  }

  lemma EndNotBeyond(q: ManualQuery)
    requires IsQuery(q)
    ensures QueryEnd(q) <= AsInt(q.index) + q.count
  {
    var sum := q.index + q.count;
    assert sum % TWO_32 == if sum < TWO_32 then sum else sum - TWO_32;
  }

  /** A query is accepted exactly when no register that starts in it ends, counted in bytes, behind it. */
  lemma AcceptedIff(q: ManualQuery, regs: seq<Register>, m: Manual)
    requires IsQuery(q) && ManualOf(m, q, regs)
    ensures m.Accepted? <==> forall i :: 0 <= i < |regs| && StartsIn(q, regs[i]) ==> EndInBytes(regs[i]) <= QueryEnd(q)
  {
  }

  lemma {:induction false} LastStarting(q: ManualQuery, regs: seq<Register>) returns (n: nat)
    requires IsQuery(q) && Starting(q, regs) != []
    ensures n < |regs| && StartsIn(q, regs[n]) && regs[n] == Last(Starting(q, regs))
    ensures forall i :: n < i < |regs| ==> !StartsIn(q, regs[i])
    decreases |regs|
  {
    n := |regs| - 1;
    if !StartsIn(q, regs[n]) {
      n := LastStarting(q, regs[..|regs| - 1]);
    }
  }

  lemma {:induction false} NoneStarting(q: ManualQuery, regs: seq<Register>)
    requires IsQuery(q) && Starting(q, regs) == []
    ensures forall i :: 0 <= i < |regs| ==> !StartsIn(q, regs[i])
    decreases |regs|
  {
    if regs != [] {
      NoneStarting(q, regs[..|regs| - 1]);
    }
  }

  /** A register two or more places further on ends no earlier, counted in bytes; one that directly follows
      does so unless the two overlap. */
  lemma LaterEndsLater(a: Register, b: Register)
    requires IsRegister(a) && IsRegister(b) && (a.index + 2 <= b.index || End(a) <= b.index)
    ensures EndInBytes(a) <= EndInBytes(b)
  {
  }

  /** The register ends behind the query, counted in bytes: fewer words are free behind it than it takes. */
  predicate LacksRoom(q: ManualQuery, r: Register)
    requires IsQuery(q)
  {
    QueryEnd(q) - End(r) < Words(r)
  }

  lemma LacksRoomIs(q: ManualQuery, r: Register)
    requires IsQuery(q) && IsRegister(r)
    ensures LacksRoom(q, r) <==> EndInBytes(r) > QueryEnd(q)
  {
  }

  /** One of the last two registers that start in the query lacks room. */
  ghost predicate LastTwoLackRoom(q: ManualQuery, started: seq<Register>)
    requires IsQuery(q)
  {
    var n := |started|;
    (n > 0 && LacksRoom(q, started[n - 1])) || (n > 1 && LacksRoom(q, started[n - 2]))
  }

  lemma {:induction false} StartingKeepsOrder(q: ManualQuery, regs: seq<Register>)
    requires IsQuery(q) && AllRegisters(regs) && ByIndex(regs)
    ensures AllRegisters(Starting(q, regs)) && ByIndex(Starting(q, regs))
    ensures regs != [] && Starting(q, regs) != [] ==> Last(Starting(q, regs)).index <= Last(regs).index
    ensures Disjoint(regs) ==> Disjoint(Starting(q, regs))
    decreases |regs|
  {
    if regs != [] {
      var front := regs[..|regs| - 1];
      StartingKeepsOrder(q, front);
      StartingOf(q, front);
    }
  }

  /** The registers that start in a query are registers of the list. */
  lemma {:induction false} StartingOf(q: ManualQuery, regs: seq<Register>)
    requires IsQuery(q)
    ensures forall k :: 0 <= k < |Starting(q, regs)| ==> Starting(q, regs)[k] in regs
    ensures forall i :: 0 <= i < |regs| && StartsIn(q, regs[i]) ==> regs[i] in Starting(q, regs)
    decreases |regs|
  {
    if regs != [] {
      StartingOf(q, regs[..|regs| - 1]);
    }
  }

  ghost predicate SomeLacksRoom(q: ManualQuery, started: seq<Register>)
    requires IsQuery(q)
  {
    exists k :: 0 <= k < |started| && LacksRoom(q, started[k])
  }

  lemma RefusedBySome(q: ManualQuery, regs: seq<Register>, m: Manual)
    requires IsQuery(q) && AllRegisters(regs) && ManualOf(m, q, regs)
    ensures m.WouldSplit? <==> SomeLacksRoom(q, Starting(q, regs))
  {
    var started := Starting(q, regs);
    AcceptedIff(q, regs, m);
    StartingOf(q, regs);
    if k :| 0 <= k < |started| && LacksRoom(q, started[k]) {
      var i := StartingAt(q, regs, k);
      LacksRoomIs(q, regs[i]);
    }
    if i :| 0 <= i < |regs| && StartsIn(q, regs[i]) && EndInBytes(regs[i]) > QueryEnd(q) {
      var k :| 0 <= k < |started| && started[k] == regs[i];
      LacksRoomIs(q, regs[i]);
    }
  }

  lemma LastTwoDecide(q: ManualQuery, started: seq<Register>)
    requires IsQuery(q) && AllRegisters(started) && ByIndex(started)
    ensures SomeLacksRoom(q, started) <==> LastTwoLackRoom(q, started)
    ensures Disjoint(started) ==> (SomeLacksRoom(q, started) <==> started != [] && LacksRoom(q, Last(started)))
  {
    var n := |started|;
    if k :| 0 <= k < n && LacksRoom(q, started[k]) {
      if k < n - 2 {
        assert started[k].index < started[k + 1].index < started[n - 1].index;
        LaterEndsLater(started[k], started[n - 1]);
      } else if k == n - 2 && Disjoint(started) {
        assert started[k].index < started[n - 1].index && !RunsInto(started[k], started[n - 1]);
        LaterEndsLater(started[k], started[n - 1]);
      }
    }
  }

  /** The end counted in bytes refuses a query exactly if one of the last two registers that start in it leaves
      fewer free words behind it than it takes itself: the last one, or the one before it, if they overlap. */
  lemma RefusedIff(q: ManualQuery, regs: seq<Register>, m: Manual)
    requires IsQuery(q) && AllRegisters(regs) && ByIndex(regs) && ManualOf(m, q, regs)
    ensures m.WouldSplit? <==> LastTwoLackRoom(q, Starting(q, regs))
    ensures Disjoint(regs) ==>
      (m.WouldSplit? <==> Starting(q, regs) != [] && LacksRoom(q, Last(Starting(q, regs))))
  {
    RefusedBySome(q, regs, m);
    StartingKeepsOrder(q, regs);
    LastTwoDecide(q, Starting(q, regs));
  }

  /** Counting in bytes refuses queries that fit: one word asked for, one register of one word there. */
  lemma FittingQueryRefused(key: string, packing: Packing, m: Manual)
    requires ManualOf(m, ManualQuery(0, 1), [Register(key, UInt16, packing, 0, 2)])
    ensures m == WouldSplit(key) && End(Register(key, UInt16, packing, 0, 2)) == 1
  {
    var regs := [Register(key, UInt16, packing, 0, 2)];
    assert StartsIn(ManualQuery(0, 1), regs[0]);
  }

  // ---------------------------------------------------------------- the slave's ranges

  /** The addresses a slave serves for the registers of a type; the count is cut to 16 bits. */
  function SlaveRange(sorted: seq<Register>): Unit
    requires sorted != []
  {
    var lo := sorted[0].index;
    var hi := Last(sorted).index + Last(sorted).sizeOf / 2;
    Unit(lo, (hi - lo) % 0x1_0000)
  }

  ghost predicate Serves(unit: Unit, regs: seq<Register>) {
    forall i :: 0 <= i < |regs| ==> unit.start <= regs[i].index && End(regs[i]) <= unit.start + unit.count
  }

  /** From the first register to the end of the last one is enough for all of them, overlapping or not,
      unless the range does not fit 16 bits. */
  lemma SlaveServesIff(sorted: seq<Register>)
    requires sorted != [] && ByIndex(sorted) && AllRegisters(sorted)
    ensures Serves(SlaveRange(sorted), sorted) <==> End(Last(sorted)) - sorted[0].index < 0x1_0000
  {
    var n := |sorted| - 1;
    assert sorted[0].index <= sorted[n].index;
    if End(Last(sorted)) - sorted[0].index < 0x1_0000 {
      forall i | 0 <= i < |sorted|
        ensures sorted[0].index <= sorted[i].index && End(sorted[i]) <= End(Last(sorted))
      {
        assert i == n || sorted[i].index < sorted[n].index;
      }
    }
  }
}
