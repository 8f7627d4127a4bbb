/** Which writes of a script are never noticed: those that replace no container a view was taken of, or above one. */
module LazyWrites {
  import opened Variants
  import opened LuaTables
  import opened LazyViews
  import opened LazyRefinement
  import opened LazyScripts
  import opened PathAccess
  import opened ViewPaths

  // ---------------------------------------------------------------- the slot that is written

  type Place = (TableId, Key)

  /** A write to the slot leaves the links on the way to position `q` alone. */
  predicate Spares(slot: Place, q: seq<Key>) {
    slot.0.Msg? ==> !(slot.0.path + [slot.1] <= q)
  }

  lemma LinkIsSpared(slot: Place, q: seq<Key>, n: nat)
    requires Spares(slot, q) && n < |q|
    ensures slot != (Msg(q[..n]), q[n])
  {
    assert q[..n] + [q[n]] <= q;
  }

  lemma StoreSparesChain(h: Heap, id: TableId, k: Key, v: Val, q: seq<Key>)
    requires ChainInPlace(h, q) && Spares((id, k), q)
    ensures ChainInPlace(Store(h, id, k, v), q)
  {
    forall n | 0 <= n < |q| ensures LinkInPlace(Store(h, id, k, v), q, n) {
      assert LinkInPlace(h, q, n);
      LinkIsSpared((id, k), q, n);
    }
  }

  /** A table that set() just made holds nothing, or itself. */
  ghost predicate OnlyItself(h: Heap, id: TableId) {
    forall k :: Slot(h, id, k) == Nil || Slot(h, id, k) == Table(id)
  }

  lemma {:induction false} SetInNewTable(h: Heap, next: nat, id: TableId, keys: seq<Key>, v: Val, p: seq<Key>, k: Key)
    requires keys != [] && id.User? && OnlyItself(h, id)
    ensures Slot(SetAt(h, next, id, keys, v).0, Msg(p), k) == Slot(h, Msg(p), k)
    decreases |keys|
  {
    if |keys| > 1 {
      if Slot(h, id, keys[0]).Table? {
        SetInNewTable(h, next, id, keys[1..], v, p, k);
      } else {
        SetInNewTable(Made(h, next, id, keys[0]), next + 1, User(next), keys[1..], v, p, k);
      }
    }
  }

  /** Of the tables of the message set() changes one slot at most. */
  lemma {:induction false} SetKeepsSlot(h: Heap, next: nat, id: TableId, keys: seq<Key>, v: Val, p: seq<Key>, k: Key)
    requires keys != [] && (Msg(p), k) != Attach(h, id, keys)
    ensures Slot(SetAt(h, next, id, keys, v).0, Msg(p), k) == Slot(h, Msg(p), k)
    decreases |keys|
  {
    if |keys| > 1 {
      var cur := Slot(h, id, keys[0]);
      if cur.Table? {
        SetKeepsSlot(h, next, cur.id, keys[1..], v, p, k);
      } else {
        SetInNewTable(Made(h, next, id, keys[0]), next + 1, User(next), keys[1..], v, p, k);
      }
    }
  }

  lemma SetSparesChain(h: Heap, next: nat, id: TableId, keys: seq<Key>, v: Val, q: seq<Key>)
    requires keys != [] && ChainInPlace(h, q) && Spares(Attach(h, id, keys), q)
    ensures ChainInPlace(SetAt(h, next, id, keys, v).0, q)
  {
    forall n | 0 <= n < |q| ensures LinkInPlace(SetAt(h, next, id, keys, v).0, q, n) {
      assert LinkInPlace(h, q, n);
      LinkIsSpared(Attach(h, id, keys), q, n);
      SetKeepsSlot(h, next, id, keys, v, q[..n], q[n]);
    }
  }

  // ---------------------------------------------------------------- one write, and the views that are held

  /** The links of every held view are in place. */
  ghost predicate HeldChains(c: LazyWorld)
    requires Linked(c.s.views)
  {
    forall i :: i in c.regs && c.regs[i].View? && c.regs[i].v < |c.s.views| ==>
      ChainInPlace(Eager(c.s), PathOf(c.s.views, c.regs[i].v))
  }

  ghost predicate SparesHeld(c: LazyWorld, slot: Place)
    requires Linked(c.s.views)
  {
    forall i :: i in c.regs && c.regs[i].View? && c.regs[i].v < |c.s.views| ==>
      Spares(slot, PathOf(c.s.views, c.regs[i].v))
  }

  lemma HeldStand(c: LazyWorld, fuel: nat)
    requires Coherent(c.s) && fuel > 0 && HeldChains(c)
    ensures AllStand(c, fuel)
  {
    forall i | i in c.regs ensures StandsIn(c.s, c.regs[i], fuel) {
      if c.regs[i].View? && c.regs[i].v < |c.s.views| {
        WalkChain(Eager(c.s), c.s.views, PathOf(c.s.views, c.regs[i].v), fuel - 1);
      }
    }
  }

  /** A write through a register as one store in the eager tables. */
  lemma AssignedEager(c: LazyWorld, p: PlainWorld, obj: nat, k: Key, src: nat, fuel: nat)
    requires Related(c, p) && fuel > 0 && StandsIn(c.s, Reg(c.regs, obj), fuel)
    ensures
      var c1, x := LazyStep(c, Assign(obj, k, src), fuel).0, Reg(c.regs, obj);
      && c1.regs == c.regs && c1.s.views == c.s.views && (x.View? ==> x.v < |c.s.views|)
      && Eager(c1.s) ==
         if x.View? || x.Table? then Store(Eager(c.s), PutBase(c.s, x), k, Reg(c.regs, src)) else Eager(c.s)
  {
    var x, v := Reg(c.regs, obj), Reg(c.regs, src);
    assert Same(c.s.views, x, Reg(p.regs, obj));
    if x.View? {
      ViewAssignedEager(c.s, x.v, k, v, fuel);
    } else if x.Table? {
      TableStoreEager(c.s, x.id, k, v);
    }
  }

  lemma ViewAssignedEager(s: State, w: nat, k: Key, v: Val, fuel: nat)
    requires Coherent(s) && fuel > 0 && w < |s.views| && Stands(Eager(s), s.views, w, fuel - 1)
    ensures
      var s1 := AssignView(s, w, k, v, fuel).0;
      s1.views == s.views && Eager(s1) == Store(Eager(s), Msg(PathOf(s.views, w)), k, v)
  {
    AssignedStanding(s, w, k, v, fuel);
  }

  /** At any moment, with the links of all held views in place: a write to an entry that lies on the way to no
      held view is never noticed, whatever is stored, and leaves those links in place. */
  lemma UnheldEntryReplaced(c: LazyWorld, p: PlainWorld, obj: nat, k: Key, src: nat, fuel: nat)
    requires Related(c, p) && fuel > 0 && HeldChains(c)
    requires SparesHeld(c, (PutBase(c.s, Reg(c.regs, obj)), k))
    ensures NeverNoticed(c, p, [Assign(obj, k, src)], fuel)
    ensures
      var c1 := LazyStep(c, Assign(obj, k, src), fuel).0;
      Coherent(c1.s) && HeldChains(c1)
  {
    var op := Assign(obj, k, src);
    HeldStand(c, fuel);
    StepCoherent(c, op, fuel);
    var c1 := LazyStep(c, op, fuel).0;
    AssignKeepsHeld(c, p, obj, k, src, fuel);
    HeldStand(c1, fuel);
    OneStanding(c, op, fuel);
    NeverNoticedIff(c, p, [op], fuel);
  }

  lemma AssignKeepsHeld(c: LazyWorld, p: PlainWorld, obj: nat, k: Key, src: nat, fuel: nat)
    requires Related(c, p) && fuel > 0 && HeldChains(c) && StandsIn(c.s, Reg(c.regs, obj), fuel)
    requires SparesHeld(c, (PutBase(c.s, Reg(c.regs, obj)), k))
    ensures
      var c1 := LazyStep(c, Assign(obj, k, src), fuel).0;
      Linked(c1.s.views) && HeldChains(c1)
  {
    AssignedEager(c, p, obj, k, src, fuel);
    forall i | i in c.regs && c.regs[i].View? && c.regs[i].v < |c.s.views|
      ensures ChainInPlace(Eager(LazyStep(c, Assign(obj, k, src), fuel).0.s), PathOf(c.s.views, c.regs[i].v))
    {
      StoreSparesChain(Eager(c.s), PutBase(c.s, Reg(c.regs, obj)), k, Reg(c.regs, src), PathOf(c.s.views, c.regs[i].v));
    }
  }

  lemma OneStanding(c: LazyWorld, op: Op, fuel: nat)
    requires Coherent(c.s) && fuel > 0 && AllStand(c, fuel) && Ordinary(c, op, fuel)
    requires Coherent(LazyStep(c, op, fuel).0.s) && AllStand(LazyStep(c, op, fuel).0, fuel)
    ensures StandingRun(c, [op], fuel) && OrdinaryRun(c, [op], fuel)
  {
    var c1 := LazyStep(c, op, fuel).0;
    assert [op][1..] == [];
    assert StandingRun(c1, [], fuel) && OrdinaryRun(c1, [], fuel);
  }

  // ---------------------------------------------------------------- whole scripts, and the views that were taken

  /** The links of every view that was ever taken are in place. */
  ghost predicate ChainsHold(s: State)
    requires Linked(s.views)
  {
    forall w: nat :: w < |s.views| ==> ChainInPlace(Eager(s), PathOf(s.views, w))
  }

  ghost predicate SparesViews(s: State, slot: Place)
    requires Linked(s.views)
  {
    forall w: nat :: w < |s.views| ==> Spares(slot, PathOf(s.views, w))
  }

  /** The operation writes no entry on the way to a view that was taken. */
  ghost predicate WritesBeside(c: LazyWorld, op: Op)
    requires Linked(c.s.views)
  {
    match op
    case Assign(obj, k, _) =>
      var x := Reg(c.regs, obj);
      (x.View? ==> x.v < |c.s.views|) ==> SparesViews(c.s, (PutBase(c.s, x), k))
    case Put(obj, keys, _) =>
      var x := Reg(c.regs, obj);
      keys != [] && (x.View? ==> x.v < |c.s.views|) ==> SparesViews(c.s, Attach(Eager(c.s), PutBase(c.s, x), keys))
    case _ => true
  }

  lemma PristineChains(s: State)
    requires Coherent(s) && !s.materialized
    ensures ChainsHold(s)
  {
    forall w: nat | w < |s.views| ensures ChainInPlace(Eager(s), PathOf(s.views, w)) {
      PristineChain(s, w);
    }
  }

  lemma ChainsStand(c: LazyWorld, fuel: nat)
    requires Coherent(c.s) && fuel > 0 && ChainsHold(c.s)
    ensures AllStand(c, fuel) && forall x :: StandsIn(c.s, x, fuel)
  {
    forall x ensures StandsIn(c.s, x, fuel) {
      if x.View? && x.v < |c.s.views| {
        WalkChain(Eager(c.s), c.s.views, PathOf(c.s.views, x.v), fuel - 1);
      }
    }
  }

  /** Reading, or making tables: the message stays as it is or is still pristine. */
  lemma ReadKeepsChains(c: LazyWorld, op: Op, fuel: nat)
    requires Coherent(c.s) && fuel > 0 && ChainsHold(c.s) && (op.Fetch? || op.Seek? || op.Literal? || op.Length?)
    ensures
      var s' := LazyStep(c, op, fuel).0.s;
      Coherent(s') && ChainsHold(s')
  {
    StepCoherent(c, op, fuel);
    var s' := LazyStep(c, op, fuel).0.s;
    if c.s.materialized {
      assert s' == c.s;
    } else {
      ReadStaysPristine(c, op, fuel);
      PristineChains(s');
    }
  }

  lemma ReadStaysPristine(c: LazyWorld, op: Op, fuel: nat)
    requires Coherent(c.s) && fuel > 0 && !c.s.materialized && (op.Fetch? || op.Seek? || op.Literal? || op.Length?)
    ensures !LazyStep(c, op, fuel).0.s.materialized
  {
    if op.Seek? && op.sep != "" {
      var x := Reg(c.regs, op.obj);
      if x.View? && x.v < |c.s.views| {
        SeekLeads(c.s, x.v, ViewKeys(op.path, op.sep));
      }
    }
  }

  lemma FreshKeepsChains(c: LazyWorld, dst: nat, fuel: nat)
    requires Coherent(c.s) && fuel > 0 && ChainsHold(c.s)
    ensures
      var s' := LazyStep(c, Fresh(dst), fuel).0.s;
      Coherent(s') && ChainsHold(s')
  {
    FreshCommutes(c.s, User(c.next));
    var s' := LazyStep(c, Fresh(dst), fuel).0.s;
    forall w: nat | w < |s'.views| ensures ChainInPlace(Eager(s'), PathOf(s'.views, w)) {
      var q := PathOf(c.s.views, w);
      forall n | 0 <= n < |q| ensures LinkInPlace(Eager(s'), q, n) {
        assert LinkInPlace(Eager(c.s), q, n);
      }
    }
  }

  lemma WholeKeepsChains(c: LazyWorld, dst: nat, obj: nat, fuel: nat)
    requires Coherent(c.s) && fuel > 0 && ChainsHold(c.s)
    ensures
      var s' := LazyStep(c, Whole(dst, obj), fuel).0.s;
      Coherent(s') && ChainsHold(s')
  {
    var x := Reg(c.regs, obj);
    if x.View? && x.v < |c.s.views| {
      MaterializeUnobservable(c.s, x.v, fuel);
    }
  }

  lemma AssignKeepsChains(c: LazyWorld, p: PlainWorld, obj: nat, k: Key, src: nat, fuel: nat)
    requires Related(c, p) && fuel > 0 && ChainsHold(c.s) && WritesBeside(c, Assign(obj, k, src))
    ensures
      var s' := LazyStep(c, Assign(obj, k, src), fuel).0.s;
      Linked(s'.views) && ChainsHold(s')
  {
    ChainsStand(c, fuel);
    AssignedEager(c, p, obj, k, src, fuel);
    var s' := LazyStep(c, Assign(obj, k, src), fuel).0.s;
    forall w: nat | w < |c.s.views| ensures ChainInPlace(Eager(s'), PathOf(c.s.views, w)) {
      StoreSparesChain(Eager(c.s), PutBase(c.s, Reg(c.regs, obj)), k, Reg(c.regs, src), PathOf(c.s.views, w));
    }
  }

  /** set() through a register as set() in the eager tables. */
  lemma PutEagerly(c: LazyWorld, p: PlainWorld, obj: nat, keys: seq<Key>, src: nat, fuel: nat)
    requires Related(c, p) && fuel > 0 && StandsIn(c.s, Reg(c.regs, obj), fuel)
    ensures
      var c1, x := LazyStep(c, Put(obj, keys, src), fuel).0, Reg(c.regs, obj);
      && c1.s.views == c.s.views && (x.View? ==> x.v < |c.s.views|)
      && Eager(c1.s) == if x.View? || x.Table? then PutAt(Eager(c.s), c.next, PutBase(c.s, x), keys, Reg(c.regs, src)).0
                        else Eager(c.s)
  {
    var x, v := Reg(c.regs, obj), Reg(c.regs, src);
    assert Same(c.s.views, x, Reg(p.regs, obj));
    if x.View? {
      WholeStanding(c.s, x.v, fuel);
    } else if x.Table? {
      PutEager(c.s, c.next, x.id, keys, v);
    }
  }

  lemma PutKeepsChains(c: LazyWorld, p: PlainWorld, obj: nat, keys: seq<Key>, src: nat, fuel: nat)
    requires Related(c, p) && fuel > 0 && ChainsHold(c.s) && WritesBeside(c, Put(obj, keys, src))
    ensures
      var s' := LazyStep(c, Put(obj, keys, src), fuel).0.s;
      Linked(s'.views) && ChainsHold(s')
  {
    ChainsStand(c, fuel);
    PutEagerly(c, p, obj, keys, src, fuel);
    var s' := LazyStep(c, Put(obj, keys, src), fuel).0.s;
    if keys != [] {
      forall w: nat | w < |c.s.views| ensures ChainInPlace(Eager(s'), PathOf(c.s.views, w)) {
        SetSparesChain(Eager(c.s), c.next, PutBase(c.s, Reg(c.regs, obj)), keys, Reg(c.regs, src),
                       PathOf(c.s.views, w));
      }
    }
  }

  lemma StepKeepsChains(c: LazyWorld, p: PlainWorld, op: Op, fuel: nat)
    requires Related(c, p) && fuel > 0 && ChainsHold(c.s) && WritesBeside(c, op)
    ensures
      var s' := LazyStep(c, op, fuel).0.s;
      Linked(s'.views) && ChainsHold(s')
  {
    match op
    case Fresh(dst) => FreshKeepsChains(c, dst, fuel);
    case Whole(dst, obj) => WholeKeepsChains(c, dst, obj, fuel);
    case Assign(obj, k, src) => AssignKeepsChains(c, p, obj, k, src, fuel);
    case Put(obj, keys, src) => PutKeepsChains(c, p, obj, keys, src, fuel);
    case _ => ReadKeepsChains(c, op, fuel);
  }

  /** Ordinary operations that write no entry on the way to a view taken before. */
  ghost predicate CarefulRun(c: LazyWorld, ops: seq<Op>, fuel: nat)
    requires Coherent(c.s) && fuel > 0
    decreases |ops|
  {
    ops == [] ||
      (StepCoherent(c, ops[0], fuel);
       && Ordinary(c, ops[0], fuel) && WritesBeside(c, ops[0])
       && CarefulRun(LazyStep(c, ops[0], fuel).0, ops[1..], fuel))
  }

  lemma {:induction false} CarefulStands(c: LazyWorld, p: PlainWorld, ops: seq<Op>, fuel: nat)
    requires Related(c, p) && fuel > 0 && ChainsHold(c.s) && CarefulRun(c, ops, fuel)
    ensures OrdinaryRun(c, ops, fuel) && StandingRun(c, ops, fuel)
    decreases |ops|
  {
    ChainsStand(c, fuel);
    if ops != [] {
      StepCoherent(c, ops[0], fuel);
      StepSimulates(c, p, ops[0], fuel);
      StepKeepsChains(c, p, ops[0], fuel);
      CarefulStands(LazyStep(c, ops[0], fuel).0, PlainStep(p, ops[0]).0, ops[1..], fuel);
    }
  }

  /** A script that replaces no container a view was taken of, or above one, is never noticed: no read before,
      between or after its operations tells the lazy message from the plain table. */
  lemma CarefulNeverNoticed(c: LazyWorld, p: PlainWorld, ops: seq<Op>, fuel: nat)
    requires Related(c, p) && fuel > 0 && ChainsHold(c.s) && CarefulRun(c, ops, fuel)
    ensures NeverNoticed(c, p, ops, fuel)
  {
    CarefulStands(c, p, ops, fuel);
    NeverNoticedIff(c, p, ops, fuel);
  }

  /** From the arrival of any message on, with any tables in the script. */
  lemma CarefulFromArrival(tree: QVar, tables: Heap, next: nat, ops: seq<Op>, fuel: nat)
    requires IsContainer(tree) && next > 0 && PlainTables(tables, next) && fuel > 0
    requires
      var c := LazyWorld(State(tree, [Root(tree)], false, tables), map[0 := View(0)], next);
      Coherent(c.s) && CarefulRun(c, ops, fuel)
    ensures
      var c := LazyWorld(State(tree, [Root(tree)], false, tables), map[0 := View(0)], next);
      var p := PlainWorld(tables + Tables(tree), map[0 := Table(Msg([]))], next);
      NeverNoticed(c, p, ops, fuel)
  {
    ArrivalRelated(tree, tables, next);
    var c := LazyWorld(State(tree, [Root(tree)], false, tables), map[0 := View(0)], next);
    PristineChains(c.s);
    CarefulNeverNoticed(c, PlainWorld(tables + Tables(tree), map[0 := Table(Msg([]))], next), ops, fuel);
  }
}
