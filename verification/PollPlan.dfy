/** Which registers a Modbus worker polls, in which order, and in which requests. */
module PollPlan {
  import opened Variants
  import opened KeyOrder

  // ---------------------------------------------------------------- registers

  datatype ValueType = DefaultType | UInt16 | UInt32 | Float32 | Bit

  datatype Mode = DefaultMode | Read | ReadWrite | Write

  datatype ByteOrder = Big | Little

  datatype Packing = Packing(byte: ByteOrder, word: ByteOrder)

  datatype Setting = Setting(index: int, packing: Packing, kind: ValueType, mode: Mode)

  /** A prepared register: its size is in bytes, two for each 16-bit word. */
  datatype Register = Register(key: string, kind: ValueType, packing: Packing, index: int, sizeOf: nat)

  function SizeOf(kind: ValueType): (bytes: nat)
    ensures bytes == 2 || bytes == 4
  {
    match kind
    case DefaultType | Bit | UInt16 => 2
    case UInt32 | Float32 => 4
  }

  function Words(r: Register): nat {
    r.sizeOf / 2
  }

  function End(r: Register): int {
    r.index + Words(r)
  }

  /** The address is one of the register's words. */
  predicate Covers(r: Register, address: int) {
    r.index <= address < End(r)
  }

  predicate IsRegister(r: Register) {
    r.sizeOf == SizeOf(r.kind)
  }

  ghost predicate AllRegisters(regs: seq<Register>) {
    forall i :: 0 <= i < |regs| ==> IsRegister(regs[i])
  }

  /** By index, no two at the same one. */
  ghost predicate ByIndex(regs: seq<Register>) {
    forall i, j :: 0 <= i < j < |regs| ==> regs[i].index < regs[j].index
  }

  predicate Skipped(s: Setting, includeWriteOnly: bool) {
    s.mode == Write && !includeWriteOnly
  }

  function Prepared(key: string, s: Setting): Register {
    Register(key, s.kind, s.packing, s.index, SizeOf(s.kind))
  }

  /** The registers asked for among the first `n` names, in that order. */
  ghost function Wanted(settings: map<string, Setting>, keys: seq<string>, n: nat, all: bool): (regs: seq<Register>)
    requires n <= |keys| && AllKnown(settings, keys)
    ensures AllRegisters(regs)
  {
    if n == 0 then []
    else
      var k, before := keys[n - 1], Wanted(settings, keys, n - 1, all);
      if Skipped(settings[k], all) then before else before + [Prepared(k, settings[k])]
  }

  ghost predicate AllKnown(settings: map<string, Setting>, keys: seq<string>) {
    forall i :: 0 <= i < |keys| ==> keys[i] in settings
  }

  lemma KeysKnown(settings: map<string, Setting>, keys: seq<string>)
    requires keys == SortedKeys(settings.Keys)
    ensures AllKnown(settings, keys)
  {
    assert forall i :: 0 <= i < |keys| ==> keys[i] in keys;
  }

  ghost function AllWanted(settings: map<string, Setting>, all: bool): seq<Register> {
    var keys := SortedKeys(settings.Keys);
    KeysKnown(settings, keys);
    Wanted(settings, keys, |keys|, all)
  }

  // ---------------------------------------------------------------- sorted insertion

  /** `b`'s words begin at or run over the index of `a`. */
  predicate RunsInto(b: Register, a: Register) {
    b.index <= a.index < End(b)
  }

  /** No register runs into one named before it. */
  ghost predicate NoneRunsIntoEarlier(regs: seq<Register>) {
    forall i, j :: 0 <= i < j < |regs| ==> !RunsInto(regs[j], regs[i])
  }

  ghost predicate SplitsAt(regs: seq<Register>, index: int, p: nat) {
    && p <= |regs|
    && (forall i :: 0 <= i < p ==> regs[i].index < index)
    && forall i :: p <= i < |regs| ==> index <= regs[i].index
  }

  /** std::lower_bound by index. */
  method LowerBound(regs: seq<Register>, index: int) returns (p: nat)
    requires ByIndex(regs)
    ensures SplitsAt(regs, index, p)
  {
    p := 0;
    var count := |regs|;
    while count > 0
      invariant 0 <= count && p + count <= |regs|
      invariant forall i :: 0 <= i < p ==> regs[i].index < index
      invariant forall i :: p + count <= i < |regs| ==> index <= regs[i].index
    {
      var step := count / 2;
      if regs[p + step].index < index {
        p := p + step + 1;
        count := count - step - 1;
      } else {
        count := step;
      }
    }
  }

  /** A refused register and the one it collides with (same index) or overlaps. */
  datatype Refusal = Collision(other: string, key: string) | Overlap(key: string, other: string)

  datatype Plan = Planned(regs: seq<Register>) | Refused(why: Refusal)

  function Inserted(regs: seq<Register>, p: nat, r: Register): seq<Register>
    requires p <= |regs|
  {
    regs[..p] + [r] + regs[p..]
  }

  lemma InsertKeepsOrder(regs: seq<Register>, p: nat, r: Register)
    requires ByIndex(regs) && SplitsAt(regs, r.index, p) && (p < |regs| ==> regs[p].index != r.index)
    ensures ByIndex(Inserted(regs, p, r)) && multiset(Inserted(regs, p, r)) == multiset(regs) + multiset{r}
  {
    assert regs == regs[..p] + regs[p..];
  }

  /** Only the register right after the place can be run into, so the one check there is enough. */
  lemma SuccessorDecides(regs: seq<Register>, p: nat, r: Register, all: seq<Register>)
    requires ByIndex(regs) && SplitsAt(regs, r.index, p) && multiset(regs) == multiset(all)
    ensures (exists i :: 0 <= i < |all| && RunsInto(r, all[i])) <==> p < |regs| && regs[p].index < End(r)
  {
    if p < |regs| && regs[p].index < End(r) {
      assert regs[p] in multiset(regs);
      var i :| 0 <= i < |all| && all[i] == regs[p];
      assert RunsInto(r, all[i]);
    }
    if i :| 0 <= i < |all| && RunsInto(r, all[i]) {
      assert all[i] in multiset(all);
      var j :| 0 <= j < |regs| && regs[j] == all[i];
      assert p <= j;
    }
  }

  /** What the refusal of `r` says about the registers before it. */
  ghost predicate RefusalTrue(why: Refusal, all: seq<Register>, r: Register) {
    exists i :: 0 <= i < |all| && RunsInto(r, all[i]) &&
      why == if all[i].index == r.index then Collision(all[i].key, r.key) else Overlap(r.key, all[i].key)
  }

  ghost predicate PlanOf(plan: Plan, all: seq<Register>) {
    match plan
    case Planned(regs) => NoneRunsIntoEarlier(all) && ByIndex(regs) && multiset(regs) == multiset(all)
    case Refused(why) => exists j :: 0 <= j < |all| && RefusalTrue(why, all[..j], all[j])
  }

  /** One turn of the loop over the registers. */
  method AddSorted(sorted: seq<Register>, meta: Register, ghost all: seq<Register>) returns (plan: Plan)
    requires PlanOf(Planned(sorted), all) && IsRegister(meta)
    ensures plan.Planned? ==> PlanOf(plan, all + [meta])
    ensures plan.Refused? ==> RefusalTrue(plan.why, all, meta)
  {
    var it := LowerBound(sorted, meta.index);
    SuccessorDecides(sorted, it, meta, all);
    if it == |sorted| {
      assert Inserted(sorted, it, meta) == sorted + [meta];
      plan := Planned(sorted + [meta]);
    } else if sorted[it].index == meta.index {
      RefusalFound(sorted, it, meta, all);
      return Refused(Collision(sorted[it].key, meta.key));
    } else if meta.index + meta.sizeOf / 2 > sorted[it].index {
      RefusalFound(sorted, it, meta, all);
      return Refused(Overlap(meta.key, sorted[it].key));
    } else {
      plan := Planned(Inserted(sorted, it, meta));
    }
    InsertKeepsOrder(sorted, it, meta);
    NoneRunsStep(all, meta);
  }

  lemma RefusalFound(sorted: seq<Register>, it: nat, meta: Register, all: seq<Register>)
    requires it < |sorted| && multiset(sorted) == multiset(all) && RunsInto(meta, sorted[it])
    ensures RefusalTrue(if sorted[it].index == meta.index then Collision(sorted[it].key, meta.key)
                        else Overlap(meta.key, sorted[it].key), all, meta)
  {
    assert sorted[it] in multiset(sorted);
    var i :| 0 <= i < |all| && all[i] == sorted[it];
    assert RunsInto(meta, all[i]);
  }

  lemma NoneRunsStep(all: seq<Register>, meta: Register)
    requires NoneRunsIntoEarlier(all) && !(exists i :: 0 <= i < |all| && RunsInto(meta, all[i]))
    ensures NoneRunsIntoEarlier(all + [meta]) && multiset(all + [meta]) == multiset(all) + multiset{meta}
  {
    var next := all + [meta];
    forall i, j | 0 <= i < j < |next| ensures !RunsInto(next[j], next[i]) {
      if j == |all| {
        assert !RunsInto(meta, all[i]);
      }
    }
  }

  /** One turn of the loop over the names. */
  method AddWanted(settings: map<string, Setting>, keys: seq<string>, i: nat, includeWriteOnly: bool,
                   sorted: seq<Register>)
    returns (plan: Plan)
    requires i < |keys| && AllKnown(settings, keys)
    requires PlanOf(Planned(sorted), Wanted(settings, keys, i, includeWriteOnly))
    ensures PlanOf(plan, if plan.Planned? then Wanted(settings, keys, i + 1, includeWriteOnly)
                         else Wanted(settings, keys, |keys|, includeWriteOnly))
  {
    var k := keys[i];
    if settings[k].mode == Write && !includeWriteOnly {
      return Planned(sorted);
    }
    ghost var before, r := Wanted(settings, keys, i, includeWriteOnly), Prepared(k, settings[k]);
    plan := AddSorted(sorted, Prepared(k, settings[k]), before);
    if plan.Refused? {
      WantedPrefix(settings, keys, i + 1, includeWriteOnly);
      RefusedAt(before, r, Wanted(settings, keys, |keys|, includeWriteOnly), plan.why);
    }
  }

  method PrepareReadableSorted(settings: map<string, Setting>, includeWriteOnly: bool) returns (plan: Plan)
    ensures PlanOf(plan, AllWanted(settings, includeWriteOnly))
  {
    var keys := KeysInOrder(settings.Keys);
    KeysKnown(settings, keys);
    plan := Planned([]);
    for i := 0 to |keys|
      invariant plan.Planned? && PlanOf(plan, Wanted(settings, keys, i, includeWriteOnly))
    {
      plan := AddWanted(settings, keys, i, includeWriteOnly, plan.regs);
      if plan.Refused? {
        return;
      }
    }
  }

  lemma RefusedAt(before: seq<Register>, r: Register, wanted: seq<Register>, why: Refusal)
    requires before + [r] <= wanted && RefusalTrue(why, before, r)
    ensures PlanOf(Refused(why), wanted)
  {
    var j := |before|;
    assert wanted[..j] == before && wanted[j] == r;
  }

  lemma {:induction false} WantedPrefix(settings: map<string, Setting>, keys: seq<string>, n: nat, all: bool)
    requires n <= |keys| && AllKnown(settings, keys)
    ensures Wanted(settings, keys, n, all) <= Wanted(settings, keys, |keys|, all)
    decreases |keys| - n
  {
    if n < |keys| {
      WantedPrefix(settings, keys, n + 1, all);
    }
  }

  // ---------------------------------------------------------------- what a plan promises

  /** A plan is made exactly when no register runs into one named before it. */
  lemma PlannedIff(plan: Plan, all: seq<Register>)
    requires PlanOf(plan, all)
    ensures plan.Planned? <==> NoneRunsIntoEarlier(all)
  {
    if plan.Refused? {
      var j :| 0 <= j < |all| && RefusalTrue(plan.why, all[..j], all[j]);
      var i :| 0 <= i < |all[..j]| && RunsInto(all[j], all[..j][i]);
      assert RunsInto(all[j], all[i]);
    }
  }

  /** There is only one plan for the same registers. */
  lemma {:induction false} PlanUnique(a: seq<Register>, b: seq<Register>)
    requires ByIndex(a) && ByIndex(b) && multiset(a) == multiset(b)
    ensures a == b
    decreases |a|
  {
    assert |a| == |multiset(a)| && |b| == |multiset(b)|;
    if a != [] {
      FirstSame(a, b);
      SameRest(a, b);
      PlanUnique(a[1..], b[1..]);
      assert a == [a[0]] + a[1..] && b == [b[0]] + b[1..];
    }
  }

  lemma SameRest(a: seq<Register>, b: seq<Register>)
    requires a != [] && b != [] && a[0] == b[0] && multiset(a) == multiset(b)
    ensures multiset(a[1..]) == multiset(b[1..])
  {
    assert a == [a[0]] + a[1..] && b == [b[0]] + b[1..];
    assert multiset(a[1..]) == multiset(a) - multiset{a[0]} && multiset(b[1..]) == multiset(b) - multiset{b[0]};
  }

  lemma FirstNotAfter(a: seq<Register>, b: seq<Register>)
    requires ByIndex(b) && multiset(a) == multiset(b) && a != [] && b != []
    ensures b[0].index <= a[0].index
  {
    assert a[0] in multiset(b);
    var i :| 0 <= i < |b| && b[i] == a[0];
    assert i == 0 || b[0].index < b[i].index;
  }

  lemma SamePlace(a: seq<Register>, i: nat, j: nat)
    requires ByIndex(a) && i < |a| && j < |a| && a[i].index == a[j].index
    ensures i == j
  {
  }

  lemma FirstSame(a: seq<Register>, b: seq<Register>)
    requires ByIndex(a) && ByIndex(b) && multiset(a) == multiset(b) && a != [] && b != []
    ensures a[0] == b[0]
  {
    FirstNotAfter(a, b);
    FirstNotAfter(b, a);
    assert a[0] in multiset(b);
    var i :| 0 <= i < |b| && b[i] == a[0];
    SamePlace(b, 0, i);
  }

  ghost predicate Disjoint(regs: seq<Register>) {
    forall i, j :: 0 <= i < |regs| && 0 <= j < |regs| && i != j ==> !RunsInto(regs[i], regs[j])
  }

  ghost predicate NoneRunsIntoLater(regs: seq<Register>) {
    forall i, j :: 0 <= i < j < |regs| ==> !RunsInto(regs[i], regs[j])
  }

  /** The check looks one way only: a planned list is free of overlaps exactly when no register runs into
      one named after it either. */
  lemma PlanDisjointIff(regs: seq<Register>, all: seq<Register>)
    requires PlanOf(Planned(regs), all)
    ensures Disjoint(regs) <==> NoneRunsIntoLater(all)
  {
    if Disjoint(regs) {
      forall i, j | 0 <= i < j < |all| ensures !RunsInto(all[i], all[j]) {
        if RunsInto(all[i], all[j]) {
          RunsIntoElsewhere(all, regs, i, j);
        }
      }
    } else {
      var i, j :| 0 <= i < |regs| && 0 <= j < |regs| && i != j && RunsInto(regs[i], regs[j]);
      RunsIntoElsewhere(regs, all, i, j);
    }
  }

  lemma RunsIntoElsewhere(a: seq<Register>, b: seq<Register>, i: nat, j: nat)
    requires multiset(a) == multiset(b) && i < |a| && j < |a| && i != j && RunsInto(a[i], a[j])
    requires ByIndex(a) || ByIndex(b)
    ensures exists x, y :: 0 <= x < |b| && 0 <= y < |b| && x != y && RunsInto(b[x], b[y])
  {
    TwoPlaces(a, i, j);
    assert multiset{a[i], a[j]} <= multiset(b);
    assert a[i] in multiset(b) && a[j] in multiset(b);
    var x :| 0 <= x < |b| && b[x] == a[i];
    var y :| 0 <= y < |b| && b[y] == a[j];
    if x == y {
      // the same register twice cannot be in a list ordered by index
      assert multiset(b)[a[i]] >= 2;
      OnceOnly(if ByIndex(a) then a else b, a[i]);
    }
    assert RunsInto(b[x], b[y]);
  }

  lemma TwoPlaces(a: seq<Register>, i: nat, j: nat)
    requires i < |a| && j < |a| && i != j
    ensures multiset{a[i], a[j]} <= multiset(a)
  {
    var lo, hi := if i < j then i else j, if i < j then j else i;
    assert a == a[..lo] + [a[lo]] + a[lo + 1..hi] + [a[hi]] + a[hi + 1..];
  }

  lemma {:induction false} OnceOnly(a: seq<Register>, r: Register)
    requires ByIndex(a)
    ensures multiset(a)[r] <= 1
    decreases |a|
  {
    if a != [] {
      OnceOnly(a[1..], r);
      assert a == [a[0]] + a[1..];
      forall i | 0 <= i < |a[1..]| ensures a[1..][i] != a[0] {
        assert a[0].index < a[i + 1].index;
      }
    }
  }

  /** Whether the same two overlapping registers are refused depends on their names. */
  lemma OverlapDependsOnNames(wide: string, narrow: string, packing: Packing)
    ensures
      var w, n := Register(wide, UInt32, packing, 0, 4), Register(narrow, UInt16, packing, 1, 2);
      && RunsInto(w, n)
      && PlanOf(Planned([w, n]), [w, n])
      && forall plan :: PlanOf(plan, [n, w]) ==> plan.Refused?
  {
    var w, n := Register(wide, UInt32, packing, 0, 4), Register(narrow, UInt16, packing, 1, 2);
    forall plan | PlanOf(plan, [n, w]) ensures plan.Refused? {
      PlannedIff(plan, [n, w]);
      assert RunsInto([n, w][1], [n, w][0]);
    }
  }
}
