/**
 What a script can tell about laziness: nothing, as long as each view it uses still stands for its position;
 and by reading once, as soon as a view it holds does not.
 */
module LazyScripts {
  import opened Variants
  import opened LuaTables
  import opened LazyViews
  import opened LazyRefinement
  import opened PathAccess
  import opened PathAnswers
  import opened ViewPaths

  /** What a script may do with the values it holds in its variables (registers). */
  datatype Op =
    | Literal(dst: nat, x: Scalar)
    | Fresh(dst: nat)
    | Fetch(dst: nat, obj: nat, k: Key)
    | Assign(obj: nat, k: Key, src: nat)
    | Whole(dst: nat, obj: nat)
    | Length(dst: nat, obj: nat, n: nat)          // #obj, and the answer is n
    | Put(obj: nat, keys: seq<Key>, src: nat)     // set(obj, path, src)
    | Seek(dst: nat, obj: nat, path: string, sep: string)   // get(obj, path, sep)

  type Regs = map<nat, Val>

  function Reg(regs: Regs, i: nat): Val {
    if i in regs then regs[i] else Nil
  }

  /** The script next to the lazy message, and next to a message that was a table all along. */
  datatype LazyWorld = LazyWorld(s: State, regs: Regs, next: nat)
  datatype PlainWorld = PlainWorld(heap: Heap, regs: Regs, next: nat)

  function SetReg(regs: Regs, dst: nat, r: Outcome): Regs {
    if r.Value? then regs[dst := r.v] else regs
  }

  /** The answers to #x next to the lazy message, and next to the plain table. */
  ghost predicate LazyLength(s: State, x: Val, n: nat, fuel: nat)
    requires Linked(s.views)
  {
    if x.View? && x.v < |s.views| && !s.materialized then n == PristineLength(s.views[x.v].value)
    else MayBeLength(s.heap, s.views, x, n, fuel)
  }

  ghost predicate PlainLength(h: Heap, x: Val, n: nat) {
    match x
    case Table(id) => IsBorder(if id in h then h[id] else map[], n)
    case Prim(Text(s)) => n == |s|
    case _ => false
  }

  /** set() at a table; the empty path changes nothing. */
  function PutAt(h: Heap, next: nat, id: TableId, keys: seq<Key>, v: Val): (Heap, nat) {
    if keys == [] then (h, next) else SetAt(h, next, id, keys, v)
  }

  ghost function LazyPut(c: LazyWorld, x: Val, keys: seq<Key>, v: Val, fuel: nat): (LazyWorld, Outcome)
    requires Coherent(c.s)
  {
    var (s, r) := if x.View? && x.v < |c.s.views| then WholeView(c.s, x.v, fuel) else (c.s, Value(x));
    if r.Value? && r.v.Table? then
      var (h, next) := PutAt(s.heap, c.next, r.v.id, keys, v);
      (LazyWorld(s.(heap := h), c.regs, next), r)
    else (c.(s := s), Raised)
  }

  /** An answer of get(); one that Lua does not define, or that never comes, is taken for an error here. */
  function Told(r: PathResult): Outcome {
    match r
    case Gives(Got(v)) => Value(v)
    case _ => Raised
  }

  ghost function LazySeek(s: State, x: Val, path: string, sep: string, fuel: nat): (State, Outcome)
    requires Linked(s.views)
  {
    if sep == "" then (s, Raised)
    else if x.View? && x.v < |s.views| then
      if s.materialized then (s, Told(GetRounds(s.heap, s.views, x.v, path, sep, fuel, |s.views|)))
      else var (s', v) := SeekViews(s, x.v, ViewKeys(path, sep)); (s', Value(v))
    else (s, PlainSeek(s.heap, x, path, sep))
  }

  function PlainSeek(h: Heap, x: Val, path: string, sep: string): Outcome {
    if sep != "" && x.Table? then Told(Gives(GetAt(h, x.id, path, sep))) else Raised
  }

  ghost function LazyStep(c: LazyWorld, op: Op, fuel: nat): (LazyWorld, Outcome)
    requires Coherent(c.s)
  {
    match op
    case Literal(dst, x) => (c.(regs := c.regs[dst := Prim(x)]), Value(Prim(x)))
    case Fresh(dst) =>
      var x := Table(User(c.next));
      (LazyWorld(c.s.(heap := c.s.heap[User(c.next) := map[]]), c.regs[dst := x], c.next + 1), Value(x))
    case Fetch(dst, obj, k) =>
      var x := Reg(c.regs, obj);
      var (s, r) := if x.View? && x.v < |c.s.views| then IndexView(c.s, x.v, k, fuel)
                    else (c.s, GetTable(c.s.heap, c.s.views, x, k, fuel));
      (LazyWorld(s, SetReg(c.regs, dst, r), c.next), r)
    case Assign(obj, k, src) =>
      var x, v := Reg(c.regs, obj), Reg(c.regs, src);
      if x.View? && x.v < |c.s.views| then
        var (s, r) := AssignView(c.s, x.v, k, v, fuel);
        (c.(s := s), r)
      else if x.Table? then (c.(s := c.s.(heap := Store(c.s.heap, x.id, k, v))), Value(Nil))
      else (c, Raised)
    case Whole(dst, obj) =>
      var x := Reg(c.regs, obj);
      var (s, r) := if x.View? && x.v < |c.s.views| then WholeView(c.s, x.v, fuel) else (c.s, Value(x));
      (LazyWorld(s, SetReg(c.regs, dst, r), c.next), r)
    case Length(dst, obj, n) =>
      var r := if LazyLength(c.s, Reg(c.regs, obj), n, fuel) then Value(Prim(Plain(n))) else Raised;
      (c.(regs := SetReg(c.regs, dst, r)), r)
    case Put(obj, keys, src) => LazyPut(c, Reg(c.regs, obj), keys, Reg(c.regs, src), fuel)
    case Seek(dst, obj, path, sep) =>
      var (s, r) := LazySeek(c.s, Reg(c.regs, obj), path, sep, fuel);
      (LazyWorld(s, SetReg(c.regs, dst, r), c.next), r)
  }

  ghost function PlainStep(p: PlainWorld, op: Op): (PlainWorld, Outcome) {
    match op
    case Literal(dst, x) => (p.(regs := p.regs[dst := Prim(x)]), Value(Prim(x)))
    case Fresh(dst) =>
      var x := Table(User(p.next));
      (PlainWorld(p.heap[User(p.next) := map[]], p.regs[dst := x], p.next + 1), Value(x))
    case Fetch(dst, obj, k) =>
      var x := Reg(p.regs, obj);
      var r := if x.Table? then Value(Slot(p.heap, x.id, k))
               else if x.Prim? && x.x.Text? then Value(Slot(p.heap, STRING_LIB, k))
               else Raised;
      (p.(regs := SetReg(p.regs, dst, r)), r)
    case Assign(obj, k, src) =>
      var x := Reg(p.regs, obj);
      if x.Table? then (p.(heap := Store(p.heap, x.id, k, Reg(p.regs, src))), Value(Nil)) else (p, Raised)
    case Whole(dst, obj) =>
      var x := Reg(p.regs, obj);
      (p.(regs := p.regs[dst := x]), Value(x))
    case Length(dst, obj, n) =>
      var r := if PlainLength(p.heap, Reg(p.regs, obj), n) then Value(Prim(Plain(n))) else Raised;
      (p.(regs := SetReg(p.regs, dst, r)), r)
    case Put(obj, keys, src) =>
      var x := Reg(p.regs, obj);
      if x.Table? then
        var (h, next) := PutAt(p.heap, p.next, x.id, keys, Reg(p.regs, src));
        (PlainWorld(h, p.regs, next), Value(x))
      else (p, Raised)
    case Seek(dst, obj, path, sep) =>
      var r := PlainSeek(p.heap, Reg(p.regs, obj), path, sep);
      (p.(regs := SetReg(p.regs, dst, r)), r)
  }

  /** The answer that is named is one Lua may give, or there is none and # raises. */
  ghost predicate LazyHappens(c: LazyWorld, op: Op, fuel: nat)
    requires Coherent(c.s)
  {
    op.Length? ==>
      var x := Reg(c.regs, op.obj);
      LazyLength(c.s, x, op.n, fuel) || forall m: nat :: !LazyLength(c.s, x, m, fuel)
  }

  ghost predicate PlainHappens(p: PlainWorld, op: Op) {
    op.Length? ==>
      PlainLength(p.heap, Reg(p.regs, op.obj), op.n) || forall m: nat :: !PlainLength(p.heap, Reg(p.regs, op.obj), m)
  }

  // ---------------------------------------------------------------- the two worlds compared

  /** The same Lua value, or a view where the plain script holds the table of that position. */
  ghost predicate Same(views: seq<ViewRec>, x: Val, y: Val)
    requires Linked(views)
  {
    if x.View? then x.v < |views| && y == Table(Msg(PathOf(views, x.v))) else y == x
  }

  ghost predicate SameOutcome(views: seq<ViewRec>, r: Outcome, r': Outcome)
    requires Linked(views)
  {
    if r.Value? then r'.Value? && Same(views, r.v, r'.v) else r' == Raised
  }

  ghost predicate SameSlots(views: seq<ViewRec>, a: Slots, b: Slots)
    requires Linked(views)
  {
    a.Keys == b.Keys && forall k :: k in a ==> Same(views, a[k], b[k])
  }

  ghost predicate SameHeap(views: seq<ViewRec>, g: Heap, h: Heap)
    requires Linked(views)
  {
    g.Keys == h.Keys && forall id :: id in g ==> SameSlots(views, g[id], h[id])
  }

  ghost predicate SameRegs(views: seq<ViewRec>, a: Regs, b: Regs)
    requires Linked(views)
  {
    a.Keys == b.Keys && forall i :: i in a ==> Same(views, a[i], b[i])
  }

  ghost predicate IsMessageTable(v: Val) {
    v.Table? && v.id.Msg?
  }

  /** Before the message is a table nobody can hold one of its tables. */
  ghost predicate NoMessageTables(h: Heap, regs: Regs) {
    && (forall id, k :: id in h && k in h[id] ==> !IsMessageTable(h[id][k]))
    && (forall i :: i in regs ==> !IsMessageTable(regs[i]))
  }

  ghost predicate Related(c: LazyWorld, p: PlainWorld) {
    && Coherent(c.s)
    && SameHeap(c.s.views, Eager(c.s), p.heap)
    && SameRegs(c.s.views, c.regs, p.regs)
    && c.next == p.next > 0
    && (forall n :: n >= c.next ==> User(n) !in c.s.heap)
    && (!c.s.materialized ==> NoMessageTables(c.s.heap, c.regs))
  }

  // ---------------------------------------------------------------- what a script has to respect

  /** The value is no view, or one that stands for its position. */
  ghost predicate StandsIn(s: State, x: Val, fuel: nat)
    requires Coherent(s) && fuel > 0
  {
    x.View? && x.v < |s.views| ==> Stands(Eager(s), s.views, x.v, fuel - 1)
  }

  /** The path of a set() goes on through a stored view, which set() replaces by a table. */
  ghost predicate ViewMidway(h: Heap, id: TableId, keys: seq<Key>)
    decreases |keys|
  {
    |keys| > 1 &&
      var v := Slot(h, id, keys[0]);
      v.View? || (v.Table? && ViewMidway(h, v.id, keys[1..]))
  }

  /** Where set() starts. */
  ghost function PutBase(s: State, x: Val): TableId
    requires Linked(s.views) && (x.View? ==> x.v < |s.views|)
  {
    if x.Table? then x.id else if x.View? then Msg(PathOf(s.views, x.v)) else STRING_LIB
  }

  /** get() stays among tables, and before the first write it takes a path on which views and tables agree. */
  ghost predicate SeekDefined(s: State, x: Val, path: string, sep: string)
    requires Linked(s.views) && sep != ""
  {
    x.Table? || (x.View? && x.v < |s.views|) ==>
      && GetAt(Eager(s), PutBase(s, x), path, sep) != Undefined
      && (x.View? && !s.materialized ==> AlwaysAgree(path, sep))
  }

  /** Apart from standing views: the reserved key is not asked for, no list that ends in a null is measured
      before the first write, no set() or get() goes through a stored view, and no get() below a scalar or by a
      path on which views and tables differ. */
  ghost predicate Ordinary(c: LazyWorld, op: Op, fuel: nat)
    requires Coherent(c.s) && fuel > 0
  {
    && LazyHappens(c, op, fuel)
    && match op
       case Fetch(_, obj, k) => Reg(c.regs, obj).View? ==> k != MATERIALIZE
       case Length(_, obj, _) =>
         var x := Reg(c.regs, obj);
         x.View? && x.v < |c.s.views| && !c.s.materialized ==> NoNullAtEnd(c.s.views[x.v].value)
       case Put(obj, keys, _) =>
         var x := Reg(c.regs, obj);
         (x.View? ==> x.v < |c.s.views|) ==> !ViewMidway(Eager(c.s), PutBase(c.s, x), keys)
       case Seek(_, obj, path, sep) => sep != "" ==> SeekDefined(c.s, Reg(c.regs, obj), path, sep)
       case _ => true
  }

  predicate NoNullAtEnd(t: QVar) {
    t.List? && t.l != [] ==> t.l[|t.l| - 1] != Null
  }

  /** The operation is ordinary, and the view it is applied to stands for its position. */
  ghost predicate Respectful(c: LazyWorld, op: Op, fuel: nat)
    requires Coherent(c.s) && fuel > 0
  {
    && Ordinary(c, op, fuel)
    && (op.Literal? || op.Fresh? || StandsIn(c.s, Reg(c.regs, op.obj), fuel))
  }

  // -- lemmas about the relation

  lemma {:induction false} PathOfPrefix(views: seq<ViewRec>, more: seq<ViewRec>, v: nat)
    requires Linked(views) && Linked(more) && views <= more && v < |views|
    ensures PathOf(more, v) == PathOf(views, v)
    decreases v
  {
    if views[v].Below? {
      PathOfPrefix(views, more, views[v].parent);
    }
  }

  lemma SameGrows(views: seq<ViewRec>, more: seq<ViewRec>, x: Val, y: Val)
    requires Linked(views) && Linked(more) && views <= more && Same(views, x, y)
    ensures Same(more, x, y)
  {
    if x.View? {
      PathOfPrefix(views, more, x.v);
    }
  }

  lemma SameHeapGrows(views: seq<ViewRec>, more: seq<ViewRec>, g: Heap, h: Heap)
    requires Linked(views) && Linked(more) && views <= more && SameHeap(views, g, h)
    ensures SameHeap(more, g, h)
  {
    forall id, k | id in g && k in g[id] ensures Same(more, g[id][k], h[id][k]) {
      assert SameSlots(views, g[id], h[id]);
      SameGrows(views, more, g[id][k], h[id][k]);
    }
  }

  lemma SameRegsGrows(views: seq<ViewRec>, more: seq<ViewRec>, a: Regs, b: Regs)
    requires Linked(views) && Linked(more) && views <= more && SameRegs(views, a, b)
    ensures SameRegs(more, a, b)
  {
    forall i | i in a ensures Same(more, a[i], b[i]) {
      SameGrows(views, more, a[i], b[i]);
    }
  }

  lemma SameSlot(views: seq<ViewRec>, g: Heap, h: Heap, id: TableId, k: Key)
    requires Linked(views) && SameHeap(views, g, h)
    ensures Same(views, Slot(g, id, k), Slot(h, id, k))
  {
    if id in g {
      assert SameSlots(views, g[id], h[id]);
    }
  }

  lemma SameStore(views: seq<ViewRec>, g: Heap, h: Heap, id: TableId, k: Key, x: Val, y: Val)
    requires Linked(views) && SameHeap(views, g, h) && Same(views, x, y)
    ensures SameHeap(views, Store(g, id, k, x), Store(h, id, k, y))
  {
    if id in g {
      assert SameSlots(views, g[id], h[id]);
      assert SameSlots(views, Store(g, id, k, x)[id], Store(h, id, k, y)[id]);
    }
  }

  /** Every view has a position in the message, and in the eager heap a table at it. */
  lemma ViewPosition(s: State, w: nat)
    requires Coherent(s) && w < |s.views|
    ensures PathOf(s.views, w) in Paths(s.retained) && Msg(PathOf(s.views, w)) in Eager(s)
  {
    var p := PathOf(s.views, w);
    ViewHoldsItsSubtree(s, w);
    TablesContents(s.retained, p);
    assert Msg(p) in Ids(s.retained, []) by { assert [] + p == p; }
  }

  // ---------------------------------------------------------------- one step of the script

  /** A step that only adds views, or makes the message a table, and stores its result. */
  lemma ResultStored(c: LazyWorld, p: PlainWorld, s': State, dst: nat, r: Outcome, r': Outcome)
    requires Related(c, p) && Coherent(s')
    requires s'.retained == c.s.retained && Eager(s') == Eager(c.s)
    requires c.s.views <= s'.views
    requires s'.materialized || (s'.heap == c.s.heap && !c.s.materialized)
    requires forall n :: n >= c.next ==> User(n) !in s'.heap
    requires SameOutcome(s'.views, r, r')
    requires !s'.materialized && r.Value? ==> !IsMessageTable(r.v)
    ensures Related(LazyWorld(s', SetReg(c.regs, dst, r), c.next), p.(regs := SetReg(p.regs, dst, r')))
  {
    SameHeapGrows(c.s.views, s'.views, Eager(c.s), p.heap);
    SameRegsGrows(c.s.views, s'.views, c.regs, p.regs);
    SameSetReg(s'.views, c.regs, p.regs, dst, r, r');
    var c' := LazyWorld(s', SetReg(c.regs, dst, r), c.next);
    assert !s'.materialized ==> NoMessageTables(c'.s.heap, c'.regs);
  }

  lemma SameSetReg(views: seq<ViewRec>, a: Regs, b: Regs, dst: nat, r: Outcome, r': Outcome)
    requires Linked(views) && SameRegs(views, a, b) && SameOutcome(views, r, r')
    ensures SameRegs(views, SetReg(a, dst, r), SetReg(b, dst, r'))
  {
  }

  lemma FetchThroughView(c: LazyWorld, p: PlainWorld, dst: nat, obj: nat, k: Key, fuel: nat)
    requires Related(c, p) && fuel > 0 && Reg(c.regs, obj).View? && k != MATERIALIZE
    requires StandsIn(c.s, Reg(c.regs, obj), fuel)
    ensures
      var (c', r) := LazyStep(c, Fetch(dst, obj, k), fuel);
      var (p', r') := PlainStep(p, Fetch(dst, obj, k));
      Related(c', p') && SameOutcome(c'.s.views, r, r')
  {
    var w := Reg(c.regs, obj).v;
    var path := PathOf(c.s.views, w);
    var (s', r) := IndexView(c.s, w, k, fuel);
    var r' := Value(Slot(p.heap, Msg(path), k));
    FetchedSame(c, p, w, k, fuel);
    ResultStored(c, p, s', dst, r, r');
  }

  lemma FetchedSame(c: LazyWorld, p: PlainWorld, w: nat, k: Key, fuel: nat)
    requires Related(c, p) && fuel > 0 && w < |c.s.views| && k != MATERIALIZE
    requires Stands(Eager(c.s), c.s.views, w, fuel - 1)
    ensures
      var (s', r) := IndexView(c.s, w, k, fuel);
      && Coherent(s') && Eager(s') == Eager(c.s)
      && (s' == c.s || (!c.s.materialized && s' == c.s.(views := s'.views)
                        && |s'.views| == |c.s.views| + 1 && s'.views[..|c.s.views|] == c.s.views))
      && SameOutcome(s'.views, r, Value(Slot(p.heap, Msg(PathOf(c.s.views, w)), k)))
      && (!c.s.materialized && r.Value? ==> !IsMessageTable(r.v))
  {
    var path := PathOf(c.s.views, w);
    var (s', r) := IndexView(c.s, w, k, fuel);
    IndexAgrees(c.s, w, k, fuel);
    EagerSlot(c.s, p.heap, w, k, fuel);
    if !c.s.materialized {
      PristineIndexGivesNoTable(c.s, w, k, fuel);
    }
  }

  lemma PristineIndexGivesNoTable(s: State, w: nat, k: Key, fuel: nat)
    requires Linked(s.views) && w < |s.views| && !s.materialized
    ensures var r := IndexView(s, w, k, fuel).1; r.Value? ==> !IsMessageTable(r.v)
  {
  }

  /** The two eager heaps hold the same at the position of a view. */
  lemma EagerSlot(s: State, h: Heap, w: nat, k: Key, fuel: nat)
    requires Coherent(s) && SameHeap(s.views, Eager(s), h) && fuel > 0 && w < |s.views| && k != MATERIALIZE
    requires Stands(Eager(s), s.views, w, fuel - 1)
    ensures
      var x := Slot(Eager(s), Msg(PathOf(s.views, w)), k);
      && GetTable(Eager(s), s.views, View(w), k, fuel) == Value(x)
      && Same(s.views, x, Slot(h, Msg(PathOf(s.views, w)), k))
  {
    GetThroughView(Eager(s), s.views, w, Msg(PathOf(s.views, w)), k, fuel);
    SameSlot(s.views, Eager(s), h, Msg(PathOf(s.views, w)), k);
  }

  lemma AssignedStanding(s: State, w: nat, k: Key, v: Val, fuel: nat)
    requires Coherent(s) && fuel > 0 && w < |s.views| && Stands(Eager(s), s.views, w, fuel - 1)
    ensures AssignView(s, w, k, v, fuel)
      == (State(s.retained, s.views, true, Store(Eager(s), Msg(PathOf(s.views, w)), k, v)), Value(Nil))
    ensures Coherent(AssignView(s, w, k, v, fuel).0)
  {
    AssignAgrees(s, w, k, v, fuel);
    SetThroughView(Eager(s), s.views, w, Msg(PathOf(s.views, w)), k, v, fuel);
  }

  lemma AssignSimulates(c: LazyWorld, p: PlainWorld, obj: nat, k: Key, src: nat, fuel: nat)
    requires Related(c, p) && fuel > 0 && StandsIn(c.s, Reg(c.regs, obj), fuel)
    ensures
      var (c', r) := LazyStep(c, Assign(obj, k, src), fuel);
      var (p', r') := PlainStep(p, Assign(obj, k, src));
      Related(c', p') && SameOutcome(c'.s.views, r, r')
  {
    var x, v, v' := Reg(c.regs, obj), Reg(c.regs, src), Reg(p.regs, src);
    if x.View? {
      AssignedStanding(c.s, x.v, k, v, fuel);
      ViewPosition(c.s, x.v);
      SameStore(c.s.views, Eager(c.s), p.heap, Msg(PathOf(c.s.views, x.v)), k, v, v');
    } else if x.Table? {
      AssignTableSimulates(c, p, obj, k, src, fuel);
    }
  }

  lemma AssignTableSimulates(c: LazyWorld, p: PlainWorld, obj: nat, k: Key, src: nat, fuel: nat)
    requires Related(c, p) && Reg(c.regs, obj).Table?
    ensures
      var (c', r) := LazyStep(c, Assign(obj, k, src), fuel);
      var (p', r') := PlainStep(p, Assign(obj, k, src));
      Related(c', p') && SameOutcome(c'.s.views, r, r')
  {
    var x, v, v' := Reg(c.regs, obj), Reg(c.regs, src), Reg(p.regs, src);
    assert !c.s.materialized ==> x.id.User? && !IsMessageTable(v);
    TableStored(c, p, x.id, k, v, v');
  }

  lemma TableStored(c: LazyWorld, p: PlainWorld, id: TableId, k: Key, v: Val, v': Val)
    requires Related(c, p) && Same(c.s.views, v, v') && (!c.s.materialized ==> id.User? && !IsMessageTable(v))
    ensures Related(c.(s := c.s.(heap := Store(c.s.heap, id, k, v))), p.(heap := Store(p.heap, id, k, v')))
  {
    SameStore(c.s.views, Eager(c.s), p.heap, id, k, v, v');
    TableStoreEager(c.s, id, k, v);
    if !c.s.materialized {
      StoreKeepsNone(c.s.heap, id, k, v);
    }
    HeapsStored(c, p, c.s.(heap := Store(c.s.heap, id, k, v)), Store(p.heap, id, k, v'));
  }

  lemma TableStoreEager(s: State, id: TableId, k: Key, v: Val)
    requires Coherent(s) && (!s.materialized ==> id.User?)
    ensures
      var s' := s.(heap := Store(s.heap, id, k, v));
      Coherent(s') && Eager(s') == Store(Eager(s), id, k, v)
  {
    TableStoreCoherent(s, id, k, v);
    if id.User? {
      StoreCommutes(s, id, k, v);
    }
  }

  lemma StoreKeepsNone(h: Heap, id: TableId, k: Key, v: Val)
    requires NoneStored(h) && !IsMessageTable(v)
    ensures NoneStored(Store(h, id, k, v))
  {
  }

  /** Writing a table of the script before or after the message is built makes no difference. */
  lemma StoreCommutes(s: State, id: TableId, k: Key, v: Val)
    requires Coherent(s) && id.User?
    ensures Eager(s.(heap := Store(s.heap, id, k, v))) == Store(Eager(s), id, k, v)
  {
    TablesDomain(s.retained, id);
  }

  lemma TableStoreCoherent(s: State, id: TableId, k: Key, v: Val)
    requires Coherent(s)
    ensures Coherent(s.(heap := Store(s.heap, id, k, v)))
  {
  }

  /** A step that leaves the registers of the lazy world and the views as they are, and the same in both heaps. */
  lemma HeapsStored(c: LazyWorld, p: PlainWorld, s': State, h': Heap)
    requires Related(c, p) && Coherent(s') && s'.views == c.s.views && SameHeap(s'.views, Eager(s'), h')
    requires forall n :: n >= c.next ==> User(n) !in s'.heap
    requires !s'.materialized ==> !c.s.materialized && NoneStored(s'.heap)
    ensures Related(c.(s := s'), p.(heap := h'))
  {
  }

  lemma FreshSimulates(c: LazyWorld, p: PlainWorld, dst: nat, fuel: nat)
    requires Related(c, p)
    ensures
      var (c', r) := LazyStep(c, Fresh(dst), fuel);
      var (p', r') := PlainStep(p, Fresh(dst));
      Related(c', p') && SameOutcome(c'.s.views, r, r')
  {
    var id := User(c.next);
    var s' := c.s.(heap := c.s.heap[id := map[]]);
    FreshCommutes(c.s, id);
    SameFresh(c.s.views, Eager(c.s), p.heap, id);
    FreshStored(c, p, s', p.heap[id := map[]], dst);
  }

  lemma FreshStored(c: LazyWorld, p: PlainWorld, s': State, h': Heap, dst: nat)
    requires Related(c, p) && Coherent(s') && s' == c.s.(heap := c.s.heap[User(c.next) := map[]])
    requires SameHeap(s'.views, Eager(s'), h')
    ensures
      var x := Table(User(c.next));
      Related(LazyWorld(s', c.regs[dst := x], c.next + 1), PlainWorld(h', p.regs[dst := x], p.next + 1))
  {
    assert c.s.materialized || NoneStored(s'.heap);
  }

  lemma FreshCommutes(s: State, id: TableId)
    requires Coherent(s) && id.User?
    ensures Coherent(s.(heap := s.heap[id := map[]]))
    ensures Eager(s.(heap := s.heap[id := map[]])) == Eager(s)[id := map[]]
  {
    FreshCoherent(s, id);
    TablesDomain(s.retained, id);
  }

  lemma FreshCoherent(s: State, id: TableId)
    requires Coherent(s) && id.User?
    ensures Coherent(s.(heap := s.heap[id := map[]]))
  {
    var s' := s.(heap := s.heap[id := map[]]);
    forall v | 0 < v < |s'.views| ensures IsChildView(s'.views, v) {
      assert IsChildView(s.views, v);
    }
  }

  lemma SameFresh(views: seq<ViewRec>, g: Heap, h: Heap, id: TableId)
    requires Linked(views) && SameHeap(views, g, h)
    ensures SameHeap(views, g[id := map[]], h[id := map[]])
  {
    assert SameSlots(views, g[id := map[]][id], h[id := map[]][id]);
  }

  lemma WholeStanding(s: State, w: nat, fuel: nat)
    requires Coherent(s) && fuel > 0 && w < |s.views| && Stands(Eager(s), s.views, w, fuel - 1)
    ensures WholeView(s, w, fuel) == (Materialized(s), Value(Table(Msg(PathOf(s.views, w)))))
    ensures Coherent(Materialized(s)) && Eager(Materialized(s)) == Eager(s)
  {
    MaterializeUnobservable(s, w, fuel);
    StandsMoreFuel(Eager(s), s.views, w, fuel - 1, fuel);
  }

  lemma StandsMoreFuel(h: Heap, views: seq<ViewRec>, w: nat, fuel: nat, more: nat)
    requires Linked(views) && w < |views| && fuel <= more && Stands(h, views, w, fuel)
    ensures Stands(h, views, w, more)
  {
    WalkMoreFuel(h, views, Table(Msg([])), PathOf(views, w), fuel, more);
  }

  lemma WholeSimulates(c: LazyWorld, p: PlainWorld, dst: nat, obj: nat, fuel: nat)
    requires Related(c, p) && fuel > 0 && StandsIn(c.s, Reg(c.regs, obj), fuel)
    ensures
      var (c', r) := LazyStep(c, Whole(dst, obj), fuel);
      var (p', r') := PlainStep(p, Whole(dst, obj));
      Related(c', p') && SameOutcome(c'.s.views, r, r')
  {
    var x := Reg(c.regs, obj);
    if x.View? {
      WholeStanding(c.s, x.v, fuel);
      TablesOfViews(c.s);
      ResultStored(c, p, Materialized(c.s), dst, Value(Table(Msg(PathOf(c.s.views, x.v)))),
                   Value(Table(Msg(PathOf(c.s.views, x.v)))));
    }
  }

  lemma TablesOfViews(s: State)
    ensures forall n :: User(n) in Materialized(s).heap <==> User(n) in s.heap
  {
    forall n ensures User(n) in Materialized(s).heap <==> User(n) in s.heap {
      TablesDomain(s.retained, User(n));
    }
  }

  // -- lengths

  lemma SameBorders(views: seq<ViewRec>, g: Heap, h: Heap, id: TableId, n: nat)
    requires Linked(views) && SameHeap(views, g, h)
    ensures IsBorder(if id in g then g[id] else map[], n) <==> IsBorder(if id in h then h[id] else map[], n)
  {
    if id in g {
      assert SameSlots(views, g[id], h[id]);
    }
  }

  /** A standing view of a message that is tables has the lengths of the plain table. */
  lemma TableViewLength(c: LazyWorld, p: PlainWorld, w: nat, n: nat, fuel: nat)
    requires Related(c, p) && fuel > 0 && w < |c.s.views| && Stands(Eager(c.s), c.s.views, w, fuel - 1)
    ensures MayBeLength(Eager(c.s), c.s.views, View(w), n, fuel)
       <==> PlainLength(p.heap, Table(Msg(PathOf(c.s.views, w))), n)
  {
    var id := Msg(PathOf(c.s.views, w));
    ViewPosition(c.s, w);
    LengthThroughView(Eager(c.s), c.s.views, w, id, n, fuel);
    SameBorders(c.s.views, Eager(c.s), p.heap, id, n);
  }

  /** A standing view, measured lazily and as the plain table: the same answers once the message is a table, and
      before that the one answer of the view is among them. */
  lemma ViewLength(c: LazyWorld, p: PlainWorld, w: nat, n: nat, fuel: nat)
    requires Related(c, p) && fuel > 0 && w < |c.s.views| && Stands(Eager(c.s), c.s.views, w, fuel - 1)
    ensures
      var id := Msg(PathOf(c.s.views, w));
      && (c.s.materialized ==> (LazyLength(c.s, View(w), n, fuel) <==> PlainLength(p.heap, Table(id), n)))
      && (!c.s.materialized && NoNullAtEnd(c.s.views[w].value) && LazyLength(c.s, View(w), n, fuel)
          ==> PlainLength(p.heap, Table(id), n))
  {
    TableViewLength(c, p, w, n, fuel);
    if !c.s.materialized {
      LengthAgreesIff(c.s, w, fuel);
    }
  }

  lemma OtherLength(c: LazyWorld, p: PlainWorld, obj: nat, n: nat, fuel: nat)
    requires Related(c, p) && !Reg(c.regs, obj).View?
    ensures LazyLength(c.s, Reg(c.regs, obj), n, fuel) <==> PlainLength(p.heap, Reg(p.regs, obj), n)
  {
    var x := Reg(c.regs, obj);
    if x.Table? {
      assert x.id.Msg? ==> c.s.materialized;
      SameBorders(c.s.views, Eager(c.s), p.heap, x.id, n);
      TablesDomain(c.s.retained, x.id);
    }
  }

  lemma LengthSimulates(c: LazyWorld, p: PlainWorld, dst: nat, obj: nat, n: nat, fuel: nat)
    requires Related(c, p) && fuel > 0 && Respectful(c, Length(dst, obj, n), fuel)
    ensures PlainHappens(p, Length(dst, obj, n))
    ensures
      var (c', r) := LazyStep(c, Length(dst, obj, n), fuel);
      var (p', r') := PlainStep(p, Length(dst, obj, n));
      Related(c', p') && SameOutcome(c'.s.views, r, r')
  {
    LengthAnswers(c, p, dst, obj, n, fuel);
    var r := if LazyLength(c.s, Reg(c.regs, obj), n, fuel) then Value(Prim(Plain(n))) else Raised;
    ResultStored(c, p, c.s, dst, r, r);
  }

  lemma LengthAnswers(c: LazyWorld, p: PlainWorld, dst: nat, obj: nat, n: nat, fuel: nat)
    requires Related(c, p) && fuel > 0 && Respectful(c, Length(dst, obj, n), fuel)
    ensures PlainHappens(p, Length(dst, obj, n))
    ensures LazyLength(c.s, Reg(c.regs, obj), n, fuel) <==> PlainLength(p.heap, Reg(p.regs, obj), n)
  {
    var x := Reg(c.regs, obj);
    forall m: nat
      ensures LazyLength(c.s, x, m, fuel) ==> PlainLength(p.heap, Reg(p.regs, obj), m)
      ensures (x.View? ==> c.s.materialized) && PlainLength(p.heap, Reg(p.regs, obj), m) ==> LazyLength(c.s, x, m, fuel)
    {
      if x.View? {
        ViewLength(c, p, x.v, m, fuel);
      } else {
        OtherLength(c, p, obj, m, fuel);
      }
    }
    if x.View? && !c.s.materialized {
      assert LazyLength(c.s, x, PristineLength(c.s.views[x.v].value), fuel);
    }
  }

  // -- set

  lemma {:induction false} SetGrows(h: Heap, next: nat, id: TableId, keys: seq<Key>, v: Val)
    requires keys != []
    ensures
      var (h', next') := SetAt(h, next, id, keys, v);
      next <= next' && forall i :: i in h' <==> i in h || (i.User? && next <= i.n < next')
    decreases |keys|
  {
    if |keys| > 1 {
      var cur := Slot(h, id, keys[0]);
      if cur.Table? {
        SetGrows(h, next, cur.id, keys[1..], v);
      } else {
        SetGrows(Made(h, next, id, keys[0]), next + 1, User(next), keys[1..], v);
      }
    }
  }

  lemma {:induction false} NoViewInNew(h: Heap, id: TableId, keys: seq<Key>)
    requires forall k :: Slot(h, id, k) == Nil || Slot(h, id, k) == Table(id)
    ensures !ViewMidway(h, id, keys)
    decreases |keys|
  {
    if |keys| > 1 {
      NoViewInNew(h, id, keys[1..]);
    }
  }

  /** set() does the same to both heaps when no stored view is on the path. */
  lemma {:induction false} SameSet(views: seq<ViewRec>, g: Heap, h: Heap, next: nat, id: TableId, keys: seq<Key>,
                                   x: Val, y: Val)
    requires Linked(views) && SameHeap(views, g, h) && Same(views, x, y) && keys != [] && !ViewMidway(g, id, keys)
    ensures
      var (g', n) := SetAt(g, next, id, keys, x);
      var (h', m) := SetAt(h, next, id, keys, y);
      n == m && SameHeap(views, g', h')
    decreases |keys|
  {
    SameSlot(views, g, h, id, keys[0]);
    if |keys| == 1 {
      SameStore(views, g, h, id, keys[0], x, y);
    } else {
      var cur := Slot(g, id, keys[0]);
      if cur.Table? {
        SameSet(views, g, h, next, cur.id, keys[1..], x, y);
      } else {
        SameMade(views, g, h, next, id, keys[0]);
        NoViewInNew(Made(g, next, id, keys[0]), User(next), keys[1..]);
        SameSet(views, Made(g, next, id, keys[0]), Made(h, next, id, keys[0]), next + 1, User(next), keys[1..], x, y);
      }
    }
  }

  /** The slot that set() found a view in holds a new table in one heap and something else in the other. */
  lemma ViewReplaced(views: seq<ViewRec>, g: Heap, h: Heap, next: nat, id: TableId, keys: seq<Key>, x: Val, y: Val)
    requires Linked(views) && SameHeap(views, g, h) && Closed(g, next) && Closed(h, next) && id in g
    requires |keys| > 1 && Slot(g, id, keys[0]).View? && y != Table(User(next))
    ensures !SameHeap(views, SetAt(g, next, id, keys, x).0, SetAt(h, next, id, keys, y).0)
  {
    var g', h', k := SetAt(g, next, id, keys, x).0, SetAt(h, next, id, keys, y).0, keys[0];
    var made := Made(g, next, id, k);
    MadeClosed(g, next, id, k);
    assert Attach(made, User(next), keys[1..]) == (User(next), keys[1]);
    SetChangesOneSlot(made, next + 1, User(next), keys[1..], x, id, k);
    assert Slot(g', id, k) == Table(User(next));
    SameSlot(views, g, h, id, k);
    if Attach(h, id, keys) == (id, k) {
      SetAtTableSlot(h, next, id, keys, y);
    } else {
      SetChangesOneSlot(h, next, id, keys, y, id, k);
    }
    if SameHeap(views, g', h') {
      SameSlot(views, g', h', id, k);
    }
  }

  lemma {:induction false} ViewMidwayShows(views: seq<ViewRec>, g: Heap, h: Heap, next: nat, id: TableId,
                                           keys: seq<Key>, x: Val, y: Val)
    requires Linked(views) && SameHeap(views, g, h) && Closed(g, next) && Closed(h, next) && id in g
    requires ViewMidway(g, id, keys) && y != Table(User(next))
    ensures !SameHeap(views, SetAt(g, next, id, keys, x).0, SetAt(h, next, id, keys, y).0)
    decreases |keys|
  {
    var cur := Slot(g, id, keys[0]);
    if cur.View? {
      ViewReplaced(views, g, h, next, id, keys, x, y);
    } else {
      SameSlot(views, g, h, id, keys[0]);
      ViewMidwayShows(views, g, h, next, cur.id, keys[1..], x, y);
    }
  }

  /** set() leaves the same behind next to the lazy message and next to the plain table if and only if its path
      does not go on through a stored view. */
  lemma SameSetIff(views: seq<ViewRec>, g: Heap, h: Heap, next: nat, id: TableId, keys: seq<Key>, x: Val, y: Val)
    requires Linked(views) && SameHeap(views, g, h) && Closed(g, next) && Closed(h, next) && id in g
    requires Same(views, x, y) && keys != [] && y != Table(User(next))
    ensures SameHeap(views, SetAt(g, next, id, keys, x).0, SetAt(h, next, id, keys, y).0) <==> !ViewMidway(g, id, keys)
  {
    if ViewMidway(g, id, keys) {
      ViewMidwayShows(views, g, h, next, id, keys, x, y);
    } else {
      SameSet(views, g, h, next, id, keys, x, y);
    }
  }

  lemma SameMade(views: seq<ViewRec>, g: Heap, h: Heap, next: nat, id: TableId, k: Key)
    requires Linked(views) && SameHeap(views, g, h)
    ensures SameHeap(views, Made(g, next, id, k), Made(h, next, id, k))
  {
    SameFresh(views, g, h, User(next));
    SameStore(views, g[User(next) := map[]], h[User(next) := map[]], id, k, Table(User(next)), Table(User(next)));
  }

  ghost predicate NoneStored(h: Heap) {
    forall id, k :: id in h && k in h[id] ==> !IsMessageTable(h[id][k])
  }

  /** Before the message is a table set() moves among the tables of the script only. */
  lemma {:induction false} SetCommutes(h: Heap, t: Heap, next: nat, id: TableId, keys: seq<Key>, v: Val)
    requires keys != [] && id.User? && NoneStored(h) && (forall i :: i in t ==> i.Msg?) && !IsMessageTable(v)
    ensures
      var (h', n) := SetAt(h, next, id, keys, v);
      SetAt(h + t, next, id, keys, v) == (h' + t, n) && NoneStored(h')
    decreases |keys|
  {
    assert Slot(h + t, id, keys[0]) == Slot(h, id, keys[0]);
    if |keys| == 1 {
      StoreBeside(h, t, id, keys[0], v);
    } else {
      var cur := Slot(h, id, keys[0]);
      if cur.Table? {
        SetCommutes(h, t, next, cur.id, keys[1..], v);
      } else {
        MadeBeside(h, t, next, id, keys[0]);
        SetCommutes(Made(h, next, id, keys[0]), t, next + 1, User(next), keys[1..], v);
      }
    }
  }

  lemma StoreBeside(h: Heap, t: Heap, id: TableId, k: Key, v: Val)
    requires id.User? && NoneStored(h) && (forall i :: i in t ==> i.Msg?) && !IsMessageTable(v)
    ensures Store(h + t, id, k, v) == Store(h, id, k, v) + t && NoneStored(Store(h, id, k, v))
  {
  }

  lemma MadeBeside(h: Heap, t: Heap, next: nat, id: TableId, k: Key)
    requires id.User? && NoneStored(h) && (forall i :: i in t ==> i.Msg?)
    ensures Made(h + t, next, id, k) == Made(h, next, id, k) + t && NoneStored(Made(h, next, id, k))
  {
    var g := h[User(next) := map[]];
    assert (h + t)[User(next) := map[]] == g + t;
    StoreBeside(g, t, id, k, Table(User(next)));
  }

  lemma PutGrows(h: Heap, next: nat, id: TableId, keys: seq<Key>, v: Val)
    ensures
      var (h', next') := PutAt(h, next, id, keys, v);
      next <= next' && forall i :: i in h' <==> i in h || (i.User? && next <= i.n < next')
  {
    if keys != [] {
      SetGrows(h, next, id, keys, v);
    }
  }

  lemma PutCoherent(s: State, next: nat, id: TableId, keys: seq<Key>, v: Val)
    requires Coherent(s)
    ensures GrowsTo(s, s.(heap := PutAt(s.heap, next, id, keys, v).0))
  {
    PutGrows(s.heap, next, id, keys, v);
    var s' := s.(heap := PutAt(s.heap, next, id, keys, v).0);
    forall w | 0 < w < |s'.views| ensures IsChildView(s'.views, w) {
      assert IsChildView(s.views, w);
    }
  }

  lemma PutEager(s: State, next: nat, id: TableId, keys: seq<Key>, v: Val)
    requires Coherent(s) && (!s.materialized ==> id.User? && NoneStored(s.heap) && !IsMessageTable(v))
    ensures
      var (h, n) := PutAt(s.heap, next, id, keys, v);
      && PutAt(Eager(s), next, id, keys, v) == (Eager(s.(heap := h)), n)
      && (!s.materialized ==> NoneStored(h))
  {
    if !s.materialized && keys != [] {
      forall i | i in Tables(s.retained) ensures i.Msg? {
        TablesDomain(s.retained, i);
      }
      SetCommutes(s.heap, Tables(s.retained), next, id, keys, v);
    }
  }

  /** set() from the same table in both worlds. */
  lemma PutFromTable(c: LazyWorld, p: PlainWorld, s: State, id: TableId, keys: seq<Key>, v: Val, v': Val)
    requires Related(c, p) && Coherent(s) && Eager(s) == Eager(c.s)
    requires s.views == c.s.views && s.retained == c.s.retained
    requires s.materialized || s == c.s
    requires forall n :: User(n) in s.heap <==> User(n) in c.s.heap
    requires Same(c.s.views, v, v') && !ViewMidway(Eager(c.s), id, keys)
    requires !s.materialized ==> id.User? && !IsMessageTable(v)
    ensures
      var (h, n) := PutAt(s.heap, c.next, id, keys, v);
      var (h', m) := PutAt(p.heap, p.next, id, keys, v');
      Related(LazyWorld(s.(heap := h), c.regs, n), PlainWorld(h', p.regs, m))
  {
    PutEager(s, c.next, id, keys, v);
    PutCoherent(s, c.next, id, keys, v);
    PutGrows(s.heap, c.next, id, keys, v);
    if keys != [] {
      SameSet(c.s.views, Eager(c.s), p.heap, c.next, id, keys, v, v');
    }
  }

  lemma PutSimulates(c: LazyWorld, p: PlainWorld, obj: nat, keys: seq<Key>, src: nat, fuel: nat)
    requires Related(c, p) && fuel > 0 && Respectful(c, Put(obj, keys, src), fuel)
    ensures
      var (c', r) := LazyStep(c, Put(obj, keys, src), fuel);
      var (p', r') := PlainStep(p, Put(obj, keys, src));
      Related(c', p') && SameOutcome(c'.s.views, r, r')
  {
    var x, v, v' := Reg(c.regs, obj), Reg(c.regs, src), Reg(p.regs, src);
    if x.View? {
      WholeStanding(c.s, x.v, fuel);
      TablesOfViews(c.s);
      PutFromTable(c, p, Materialized(c.s), Msg(PathOf(c.s.views, x.v)), keys, v, v');
    } else if x.Table? {
      PutFromTable(c, p, c.s, x.id, keys, v, v');
    }
  }

  // -- get

  /** get() finds the same in both heaps where it finds anything Lua defines. */
  lemma {:induction false} SameFollow(views: seq<ViewRec>, g: Heap, h: Heap, id: TableId, keys: seq<Key>)
    requires Linked(views) && SameHeap(views, g, h) && keys != [] && Follow(g, Table(id), keys) != Undefined
    ensures Follow(h, Table(id), keys).Got? && Same(views, Follow(g, Table(id), keys).v, Follow(h, Table(id), keys).v)
    decreases |keys|
  {
    SameSlot(views, g, h, id, keys[0]);
    var v := Slot(g, id, keys[0]);
    if !v.Nil? && |keys| > 1 {
      SameFollow(views, g, h, v.id, keys[1..]);
    }
  }

  lemma SameGet(views: seq<ViewRec>, g: Heap, h: Heap, id: TableId, path: string, sep: string)
    requires Linked(views) && SameHeap(views, g, h) && sep != "" && GetAt(g, id, path, sep) != Undefined
    ensures GetAt(h, id, path, sep).Got? && Same(views, GetAt(g, id, path, sep).v, GetAt(h, id, path, sep).v)
  {
    if !IsWhole(path, sep) {
      SameFollow(views, g, h, id, KeysAt(path, sep, 0));
    }
  }

  /** Before the message is a table get() moves among the tables of the script only. */
  lemma {:induction false} FollowBeside(h: Heap, t: Heap, id: TableId, keys: seq<Key>)
    requires keys != [] && id.User? && NoneStored(h) && forall i :: i in t ==> i.Msg?
    ensures Follow(h + t, Table(id), keys) == Follow(h, Table(id), keys)
    decreases |keys|
  {
    var v := Slot(h, id, keys[0]);
    assert Slot(h + t, id, keys[0]) == v;
    if v.Table? && |keys| > 1 {
      FollowBeside(h, t, v.id, keys[1..]);
    }
  }

  lemma OwnGet(s: State, id: TableId, path: string, sep: string)
    requires Coherent(s) && sep != "" && (!s.materialized ==> id.User? && NoneStored(s.heap))
    ensures GetAt(s.heap, id, path, sep) == GetAt(Eager(s), id, path, sep)
  {
    if !s.materialized && !IsWhole(path, sep) {
      forall i | i in Tables(s.retained) ensures i.Msg? {
        TablesDomain(s.retained, i);
      }
      FollowBeside(s.heap, Tables(s.retained), id, KeysAt(path, sep, 0));
    }
  }

  lemma SeekPristine(c: LazyWorld, p: PlainWorld, w: nat, path: string, sep: string)
    requires Related(c, p) && !c.s.materialized && w < |c.s.views| && sep != "" && AlwaysAgree(path, sep)
    requires GetAt(Eager(c.s), Msg(PathOf(c.s.views, w)), path, sep) != Undefined
    ensures
      var (s', v) := SeekViews(c.s, w, ViewKeys(path, sep));
      var y := GetAt(p.heap, Msg(PathOf(c.s.views, w)), path, sep);
      && Coherent(s') && c.s.views <= s'.views && s' == c.s.(views := s'.views)
      && y.Got? && Same(s'.views, v, y.v) && !IsMessageTable(v)
  {
    var id := Msg(PathOf(c.s.views, w));
    SeekLeads(c.s, w, ViewKeys(path, sep));
    var (s', v) := SeekViews(c.s, w, ViewKeys(path, sep));
    assert Asked(c.s, w, path, sep, s', v);
    assert PathAnswers.Agrees(c.s, w, path, sep, s', v);
    SameGet(c.s.views, Eager(c.s), p.heap, id, path, sep);
    LeadsNoTable(s'.views, PathOf(c.s.views, w), c.s.views[w].value, ViewKeys(path, sep), v);
  }

  lemma LeadsNoTable(views: seq<ViewRec>, base: seq<Key>, t: QVar, keys: seq<Key>, r: Val)
    requires Linked(views) && Leads(views, base, t, keys, r)
    ensures !IsMessageTable(r)
  {
  }

  lemma SeekStanding(s: State, w: nat, path: string, sep: string, fuel: nat)
    requires Coherent(s) && s.materialized && fuel > 0 && w < |s.views| && sep != ""
    requires Stands(Eager(s), s.views, w, fuel - 1)
    ensures GetRounds(s.heap, s.views, w, path, sep, fuel, |s.views|)
      == Gives(GetAt(s.heap, Msg(PathOf(s.views, w)), path, sep))
  {
    StandsMoreFuel(Eager(s), s.views, w, fuel - 1, fuel);
  }

  lemma SeekSimulates(c: LazyWorld, p: PlainWorld, dst: nat, obj: nat, path: string, sep: string, fuel: nat)
    requires Related(c, p) && fuel > 0 && Respectful(c, Seek(dst, obj, path, sep), fuel)
    ensures
      var (c', r) := LazyStep(c, Seek(dst, obj, path, sep), fuel);
      var (p', r') := PlainStep(p, Seek(dst, obj, path, sep));
      Related(c', p') && SameOutcome(c'.s.views, r, r')
  {
    var x := Reg(c.regs, obj);
    var (s', r) := LazySeek(c.s, x, path, sep, fuel);
    SeekAnswers(c, p, x, Reg(p.regs, obj), path, sep, fuel);
    ResultStored(c, p, s', dst, r, PlainSeek(p.heap, Reg(p.regs, obj), path, sep));
  }

  lemma SeekAnswers(c: LazyWorld, p: PlainWorld, x: Val, y: Val, path: string, sep: string, fuel: nat)
    requires Related(c, p) && fuel > 0 && Same(c.s.views, x, y) && StandsIn(c.s, x, fuel)
    requires sep != "" ==> SeekDefined(c.s, x, path, sep)
    requires !c.s.materialized ==> !IsMessageTable(x)
    ensures
      var (s', r) := LazySeek(c.s, x, path, sep, fuel);
      && Coherent(s') && c.s.views <= s'.views && s' == c.s.(views := s'.views)
      && (s'.views != c.s.views ==> !c.s.materialized)
      && SameOutcome(s'.views, r, PlainSeek(p.heap, y, path, sep))
      && (!c.s.materialized && r.Value? ==> !IsMessageTable(r.v))
  {
    if sep != "" && x.View? {
      if c.s.materialized {
        SeekStanding(c.s, x.v, path, sep, fuel);
        SameGet(c.s.views, Eager(c.s), p.heap, Msg(PathOf(c.s.views, x.v)), path, sep);
      } else {
        SeekPristine(c, p, x.v, path, sep);
      }
    } else if sep != "" && x.Table? {
      OwnGet(c.s, x.id, path, sep);
      SameGet(c.s.views, Eager(c.s), p.heap, x.id, path, sep);
      GetNoTable(c.s, x.id, path, sep);
    }
  }

  /** Before the message is a table no table of the script holds one of its tables. */
  lemma GetNoTable(s: State, id: TableId, path: string, sep: string)
    requires sep != ""
    ensures !s.materialized && NoneStored(s.heap) && id.User? && GetAt(s.heap, id, path, sep).Got? ==>
      !IsMessageTable(GetAt(s.heap, id, path, sep).v)
  {
    if !IsWhole(path, sep) && NoneStored(s.heap) {
      FollowNoTable(s.heap, id, KeysAt(path, sep, 0));
    }
  }

  lemma {:induction false} FollowNoTable(h: Heap, id: TableId, keys: seq<Key>)
    requires keys != [] && NoneStored(h)
    ensures Follow(h, Table(id), keys).Got? ==> !IsMessageTable(Follow(h, Table(id), keys).v)
    decreases |keys|
  {
    var v := Slot(h, id, keys[0]);
    if v.Table? && |keys| > 1 {
      FollowNoTable(h, v.id, keys[1..]);
    }
  }

  // -- every operation

  /** One respectful operation of a script, next to a lazy message and next to a plain table. */
  lemma StepSimulates(c: LazyWorld, p: PlainWorld, op: Op, fuel: nat)
    requires Related(c, p) && fuel > 0 && Respectful(c, op, fuel)
    ensures PlainHappens(p, op)
    ensures
      var (c', r) := LazyStep(c, op, fuel);
      var (p', r') := PlainStep(p, op);
      Related(c', p') && SameOutcome(c'.s.views, r, r')
  {
    match op
    case Literal(dst, x) =>
    case Fresh(dst) => FreshSimulates(c, p, dst, fuel);
    case Fetch(dst, obj, k) =>
      if Reg(c.regs, obj).View? {
        FetchThroughView(c, p, dst, obj, k, fuel);
      } else {
        FetchFromTable(c, p, dst, obj, k, fuel);
      }
    case Assign(obj, k, src) => AssignSimulates(c, p, obj, k, src, fuel);
    case Whole(dst, obj) => WholeSimulates(c, p, dst, obj, fuel);
    case Length(dst, obj, n) => LengthSimulates(c, p, dst, obj, n, fuel);
    case Put(obj, keys, src) => PutSimulates(c, p, obj, keys, src, fuel);
    case Seek(dst, obj, path, sep) => SeekSimulates(c, p, dst, obj, path, sep, fuel);
  }

  lemma FetchFromTable(c: LazyWorld, p: PlainWorld, dst: nat, obj: nat, k: Key, fuel: nat)
    requires Related(c, p) && !Reg(c.regs, obj).View?
    ensures
      var (c', r) := LazyStep(c, Fetch(dst, obj, k), fuel);
      var (p', r') := PlainStep(p, Fetch(dst, obj, k));
      Related(c', p') && SameOutcome(c'.s.views, r, r')
  {
    var x := Reg(c.regs, obj);
    var (r, r') := (LazyStep(c, Fetch(dst, obj, k), fuel).1, PlainStep(p, Fetch(dst, obj, k)).1);
    FetchedFromTable(c, p, obj, k, fuel);
    ResultStored(c, p, c.s, dst, r, r');
  }

  lemma FetchedFromTable(c: LazyWorld, p: PlainWorld, obj: nat, k: Key, fuel: nat)
    requires Related(c, p) && !Reg(c.regs, obj).View?
    ensures
      var x := Reg(c.regs, obj);
      var r := GetTable(c.s.heap, c.s.views, x, k, fuel);
      && SameOutcome(c.s.views, r, PlainStep(p, Fetch(0, obj, k)).1)
      && (!c.s.materialized && r.Value? ==> !IsMessageTable(r.v))
  {
    var x := Reg(c.regs, obj);
    if x.Table? || (x.Prim? && x.x.Text?) {
      var id := if x.Table? then x.id else STRING_LIB;
      assert id.Msg? ==> c.s.materialized;
      SameOwnSlot(c, p, id, k);
    }
  }

  lemma SameOwnSlot(c: LazyWorld, p: PlainWorld, id: TableId, k: Key)
    requires Related(c, p) && (id.Msg? ==> c.s.materialized)
    ensures Same(c.s.views, Slot(c.s.heap, id, k), Slot(p.heap, id, k))
  {
    OwnTableSlot(c.s, id, k);
    SameSlot(c.s.views, Eager(c.s), p.heap, id, k);
  }

  /** Until the message is materialized its tables are not among those of the script. */
  lemma OwnTableSlot(s: State, id: TableId, k: Key)
    requires id.Msg? ==> s.materialized
    ensures Slot(s.heap, id, k) == Slot(Eager(s), id, k)
  {
    TablesDomain(s.retained, id);
  }

  // ---------------------------------------------------------------- whole runs

  /** Views stay linked to the retained tree at their key chain, the tree and the views never change, and a
      materialized message stays materialized. */
  ghost predicate GrowsTo(s: State, s': State) {
    && Coherent(s')
    && s'.retained == s.retained && s.views <= s'.views
    && (s.materialized ==> s'.materialized && s'.heap.Keys >= s.heap.Keys)
  }

  /** Whatever a script does, the message only grows. */
  lemma StepCoherent(c: LazyWorld, op: Op, fuel: nat)
    requires Coherent(c.s) && fuel > 0
    ensures GrowsTo(c.s, LazyStep(c, op, fuel).0.s)
  {
    match op
    case Fetch(dst, obj, k) => FetchGrows(c, dst, obj, k, fuel);
    case Assign(obj, k, src) => AssignGrows(c, obj, k, src, fuel);
    case Whole(dst, obj) =>
      var x := Reg(c.regs, obj);
      if x.View? && x.v < |c.s.views| {
        MaterializeUnobservable(c.s, x.v, fuel);
      }
    case Fresh(dst) => FreshCommutes(c.s, User(c.next));
    case Literal(_, _) =>
    case Length(_, _, _) =>
    case Put(obj, keys, src) => LazyPutGrows(c, Reg(c.regs, obj), keys, Reg(c.regs, src), fuel);
    case Seek(dst, obj, path, sep) => LazySeekGrows(c.s, Reg(c.regs, obj), path, sep, fuel);
  }

  lemma LazyPutGrows(c: LazyWorld, x: Val, keys: seq<Key>, v: Val, fuel: nat)
    requires Coherent(c.s)
    ensures GrowsTo(c.s, LazyPut(c, x, keys, v, fuel).0.s)
  {
    var (s, r) := if x.View? && x.v < |c.s.views| then WholeView(c.s, x.v, fuel) else (c.s, Value(x));
    if x.View? && x.v < |c.s.views| {
      MaterializeUnobservable(c.s, x.v, fuel);
    }
    if r.Value? && r.v.Table? {
      PutCoherent(s, c.next, r.v.id, keys, v);
    }
  }

  lemma LazySeekGrows(s: State, x: Val, path: string, sep: string, fuel: nat)
    requires Coherent(s)
    ensures GrowsTo(s, LazySeek(s, x, path, sep, fuel).0)
  {
    if sep != "" && x.View? && x.v < |s.views| && !s.materialized {
      SeekLeads(s, x.v, ViewKeys(path, sep));
    }
  }

  lemma FetchGrows(c: LazyWorld, dst: nat, obj: nat, k: Key, fuel: nat)
    requires Coherent(c.s) && fuel > 0
    ensures GrowsTo(c.s, LazyStep(c, Fetch(dst, obj, k), fuel).0.s)
  {
    var x := Reg(c.regs, obj);
    if x.View? && x.v < |c.s.views| && k != MATERIALIZE {
      IndexAgrees(c.s, x.v, k, fuel);
    }
  }

  lemma AssignGrows(c: LazyWorld, obj: nat, k: Key, src: nat, fuel: nat)
    requires Coherent(c.s) && fuel > 0
    ensures GrowsTo(c.s, LazyStep(c, Assign(obj, k, src), fuel).0.s)
  {
    var x := Reg(c.regs, obj);
    if x.View? && x.v < |c.s.views| {
      AssignAgrees(c.s, x.v, k, Reg(c.regs, src), fuel);
      StoreKeepsIds(Materialized(c.s).heap, c.s.views, x, k, Reg(c.regs, src), fuel);
    } else if x.Table? {
      TableStoreCoherent(c.s, x.id, k, Reg(c.regs, src));
    }
  }

  /** What each operation of a script gives, next to a lazy message and next to a plain table. */
  ghost function LazyRun(c: LazyWorld, ops: seq<Op>, fuel: nat): (LazyWorld, seq<Outcome>)
    requires Coherent(c.s) && fuel > 0
    ensures Coherent(LazyRun(c, ops, fuel).0.s) && |LazyRun(c, ops, fuel).1| == |ops|
    decreases |ops|
  {
    if ops == [] then (c, [])
    else
      StepCoherent(c, ops[0], fuel);
      var (c1, r) := LazyStep(c, ops[0], fuel);
      var (c2, rest) := LazyRun(c1, ops[1..], fuel);
      (c2, [r] + rest)
  }

  ghost function PlainRun(p: PlainWorld, ops: seq<Op>): (result: (PlainWorld, seq<Outcome>))
    ensures |result.1| == |ops|
    decreases |ops|
  {
    if ops == [] then (p, [])
    else
      var (p1, r) := PlainStep(p, ops[0]);
      var (p2, rest) := PlainRun(p1, ops[1..]);
      (p2, [r] + rest)
  }

  ghost predicate RespectfulRun(c: LazyWorld, ops: seq<Op>, fuel: nat)
    requires Coherent(c.s) && fuel > 0
    decreases |ops|
  {
    ops == [] ||
      (StepCoherent(c, ops[0], fuel);
       Respectful(c, ops[0], fuel) && RespectfulRun(LazyStep(c, ops[0], fuel).0, ops[1..], fuel))
  }

  ghost predicate PlainRunHappens(p: PlainWorld, ops: seq<Op>)
    decreases |ops|
  {
    ops == [] || (PlainHappens(p, ops[0]) && PlainRunHappens(PlainStep(p, ops[0]).0, ops[1..]))
  }

  lemma {:induction false} SameKept(c: LazyWorld, ops: seq<Op>, fuel: nat, r: Outcome, r': Outcome)
    requires Coherent(c.s) && fuel > 0 && SameOutcome(c.s.views, r, r')
    ensures SameOutcome(LazyRun(c, ops, fuel).0.s.views, r, r')
    decreases |ops|
  {
    if ops != [] {
      StepCoherent(c, ops[0], fuel);
      var c1 := LazyStep(c, ops[0], fuel).0;
      if r.Value? && r.v.View? {
        PathOfPrefix(c.s.views, c1.s.views, r.v.v);
      }
      SameKept(c1, ops[1..], fuel, r, r');
    }
  }

  /** A script that uses only standing views cannot tell the lazy message from a plain table: whatever it reads,
      writes, measures and sets, in any order, every operation gives the same value or raises in both worlds,
      and every length it is told is one the table may give. */
  lemma {:induction false} LazinessUnobservable(c: LazyWorld, p: PlainWorld, ops: seq<Op>, fuel: nat)
    requires Related(c, p) && fuel > 0 && RespectfulRun(c, ops, fuel)
    ensures PlainRunHappens(p, ops)
    ensures
      var (c', lazily) := LazyRun(c, ops, fuel);
      var (p', plainly) := PlainRun(p, ops);
      && Related(c', p')
      && forall i :: 0 <= i < |ops| ==> SameOutcome(c'.s.views, lazily[i], plainly[i])
    decreases |ops|
  {
    if ops != [] {
      StepCoherent(c, ops[0], fuel);
      StepSimulates(c, p, ops[0], fuel);
      var (c1, r) := LazyStep(c, ops[0], fuel);
      var (p1, r') := PlainStep(p, ops[0]);
      LazinessUnobservable(c1, p1, ops[1..], fuel);
      SameKept(c1, ops[1..], fuel, r, r');
    }
  }

  ghost predicate PlainTables(h: Heap, next: nat) {
    && (forall id :: id in h ==> id.User? && id.n < next)
    && (forall id, k :: id in h && k in h[id] ==> !h[id][k].View? && !IsMessageTable(h[id][k]))
  }

  /** The message arrives: a root view in one world, a table in the other. */
  lemma ArrivalRelated(tree: QVar, tables: Heap, next: nat)
    requires IsContainer(tree) && next > 0 && PlainTables(tables, next)
    ensures
      var s := State(tree, [Root(tree)], false, tables);
      Related(LazyWorld(s, map[0 := View(0)], next),
              PlainWorld(tables + Tables(tree), map[0 := Table(Msg([]))], next))
  {
    var s := State(tree, [Root(tree)], false, tables);
    assert Eager(s) == tables + Tables(tree);
    forall id | id in Eager(s) ensures SameSlots(s.views, Eager(s)[id], Eager(s)[id]) {
      TablesDomain(tree, id);
      if id.Msg? {
        TablesContents(tree, id.path);
      }
    }
  }

  // ---------------------------------------------------------------- when laziness shows

  /** The value is held in a register and every such view stands. */
  ghost predicate AllStand(c: LazyWorld, fuel: nat)
    requires Coherent(c.s) && fuel > 0
  {
    forall i :: i in c.regs ==> StandsIn(c.s, c.regs[i], fuel)
  }

  /** Operations that only read: indexing, and asking for the table. */
  predicate IsRead(op: Op) {
    op.Whole? || (op.Fetch? && op.k != MATERIALIZE)
  }

  ghost predicate Agrees(c: LazyWorld, p: PlainWorld, op: Op, fuel: nat)
    requires Coherent(c.s) && fuel > 0
  {
    StepCoherent(c, op, fuel);
    SameOutcome(LazyStep(c, op, fuel).0.s.views, LazyStep(c, op, fuel).1, PlainStep(p, op).1)
  }

  ghost predicate ReadsAgree(c: LazyWorld, p: PlainWorld, fuel: nat)
    requires Coherent(c.s) && fuel > 0
  {
    forall op :: IsRead(op) ==> Agrees(c, p, op, fuel)
  }

  /** A view that leads back to a view of its own position raises when it is indexed. */
  lemma {:induction false} LoopRaises(h: Heap, views: seq<ViewRec>, w: nat, u: nat, j: Key, fuel: nat, more: nat)
    requires Linked(views) && w < |views| && u < |views| && PathOf(views, w) == PathOf(views, u) && j != MATERIALIZE
    requires fuel <= more + 1 && Resolve(h, views, u, more) == Value(View(u))
    ensures GetTable(h, views, View(w), j, fuel) == Raised
    decreases fuel
  {
    if fuel > 0 && Resolve(h, views, w, fuel - 1).Value? {
      WalkMoreFuel(h, views, Table(Msg([])), PathOf(views, w), fuel - 1, more);
      LoopRaises(h, views, u, u, j, fuel - 1, more);
    }
  }

  /** A view in a register that does not stand is found out by one read. */
  lemma FallenViewShows(c: LazyWorld, p: PlainWorld, i: nat, fuel: nat) returns (op: Op)
    requires Related(c, p) && fuel > 0 && i in c.regs && !StandsIn(c.s, c.regs[i], fuel)
    ensures IsRead(op) && !Agrees(c, p, op, fuel)
  {
    var w := c.regs[i].v;
    assert Same(c.s.views, c.regs[i], p.regs[i]);
    FallenIsMaterialized(c.s, w, fuel);
    var r := Resolve(c.s.heap, c.s.views, w, fuel - 1);
    if r.Raised? || SamePosition(c.s.views, r.v, w) {
      op := Fetch(i, i, Num(0));
      IndexShows(c, p, i, Num(0), fuel);
    } else {
      op := Whole(i, i);
      WholeShows(c, p, i, fuel);
    }
  }

  lemma FallenIsMaterialized(s: State, w: nat, fuel: nat)
    requires Coherent(s) && fuel > 0 && w < |s.views| && !Stands(Eager(s), s.views, w, fuel - 1)
    ensures s.materialized && Eager(s) == s.heap
  {
    if !s.materialized {
      PristineStands(s, w, fuel - 1);
    }
  }

  lemma IndexShows(c: LazyWorld, p: PlainWorld, i: nat, j: Key, fuel: nat)
    requires Related(c, p) && fuel > 0 && i in c.regs && c.regs[i].View? && c.s.materialized && j != MATERIALIZE
    requires
      var w := c.regs[i].v;
      && w < |c.s.views|
      && var r := Resolve(c.s.heap, c.s.views, w, fuel - 1); r.Raised? || SamePosition(c.s.views, r.v, w)
    ensures !Agrees(c, p, Fetch(i, i, j), fuel)
  {
    assert Same(c.s.views, c.regs[i], p.regs[i]);
    FallenIndexRaises(c.s.heap, c.s.views, c.regs[i].v, j, fuel);
  }

  lemma WholeShows(c: LazyWorld, p: PlainWorld, i: nat, fuel: nat)
    requires Related(c, p) && fuel > 0 && i in c.regs && c.regs[i].View? && c.s.materialized
    requires
      var w := c.regs[i].v;
      && w < |c.s.views| && !Stands(c.s.heap, c.s.views, w, fuel - 1)
      && var r := Resolve(c.s.heap, c.s.views, w, fuel - 1); r.Value? && !SamePosition(c.s.views, r.v, w)
    ensures !Agrees(c, p, Whole(i, i), fuel)
  {
    var w := c.regs[i].v;
    assert Same(c.s.views, c.regs[i], p.regs[i]);
    WalkMoreFuel(c.s.heap, c.s.views, Table(Msg([])), PathOf(c.s.views, w), fuel - 1, fuel);
    assert WholeView(c.s, w, fuel) == (c.s, Resolve(c.s.heap, c.s.views, w, fuel));
  }

  /** A view of the same position as `w`. */
  ghost predicate SamePosition(views: seq<ViewRec>, x: Val, w: nat)
    requires Linked(views) && w < |views|
  {
    x.View? && x.v < |views| && PathOf(views, x.v) == PathOf(views, w)
  }

  lemma FallenIndexRaises(h: Heap, views: seq<ViewRec>, w: nat, j: Key, fuel: nat)
    requires Linked(views) && w < |views| && fuel > 0 && j != MATERIALIZE
    requires var r := Resolve(h, views, w, fuel - 1); r.Raised? || SamePosition(views, r.v, w)
    ensures GetTable(h, views, View(w), j, fuel) == Raised
  {
    var r := Resolve(h, views, w, fuel - 1);
    if r.Value? {
      LoopRaises(h, views, w, r.v.v, j, fuel, fuel - 1);
    }
  }

  /** At any moment: a script that only reads cannot tell the two worlds apart if and only if every view it
      holds stands for its position. */
  lemma ReadsAgreeIff(c: LazyWorld, p: PlainWorld, fuel: nat)
    requires Related(c, p) && fuel > 0
    ensures ReadsAgree(c, p, fuel) <==> AllStand(c, fuel)
  {
    if AllStand(c, fuel) {
      forall op | IsRead(op) ensures Agrees(c, p, op, fuel) {
        StepSimulates(c, p, op, fuel);
      }
    } else {
      var i :| i in c.regs && !StandsIn(c.s, c.regs[i], fuel);
      var op := FallenViewShows(c, p, i, fuel);
    }
  }

  ghost predicate OrdinaryRun(c: LazyWorld, ops: seq<Op>, fuel: nat)
    requires Coherent(c.s) && fuel > 0
    decreases |ops|
  {
    ops == [] ||
      (StepCoherent(c, ops[0], fuel);
       Ordinary(c, ops[0], fuel) && OrdinaryRun(LazyStep(c, ops[0], fuel).0, ops[1..], fuel))
  }

  /** The views held before each operation, and after the last, all stand. */
  ghost predicate StandingRun(c: LazyWorld, ops: seq<Op>, fuel: nat)
    requires Coherent(c.s) && fuel > 0
    decreases |ops|
  {
    && AllStand(c, fuel)
    && (ops == [] || (StepCoherent(c, ops[0], fuel); StandingRun(LazyStep(c, ops[0], fuel).0, ops[1..], fuel)))
  }

  /** Every operation of the script, and every read that could be put before, between or after them, gives the
      same in both worlds. */
  ghost predicate NeverNoticed(c: LazyWorld, p: PlainWorld, ops: seq<Op>, fuel: nat)
    requires Coherent(c.s) && fuel > 0
    decreases |ops|
  {
    && ReadsAgree(c, p, fuel)
    && (ops == [] ||
          (StepCoherent(c, ops[0], fuel);
           && Agrees(c, p, ops[0], fuel)
           && NeverNoticed(LazyStep(c, ops[0], fuel).0, PlainStep(p, ops[0]).0, ops[1..], fuel)))
  }

  /** Over whole scripts of ordinary operations: laziness is never noticed if and only if every view the script
      holds in a register stands for its position at every moment. */
  lemma {:induction false} NeverNoticedIff(c: LazyWorld, p: PlainWorld, ops: seq<Op>, fuel: nat)
    requires Related(c, p) && fuel > 0 && OrdinaryRun(c, ops, fuel)
    ensures NeverNoticed(c, p, ops, fuel) <==> StandingRun(c, ops, fuel)
    decreases |ops|
  {
    ReadsAgreeIff(c, p, fuel);
    if ops != [] && AllStand(c, fuel) {
      StepCoherent(c, ops[0], fuel);
      StepSimulates(c, p, ops[0], fuel);
      NeverNoticedIff(LazyStep(c, ops[0], fuel).0, PlainStep(p, ops[0]).0, ops[1..], fuel);
    }
  }

  lemma RootStands(h: Heap, views: seq<ViewRec>, w: nat, fuel: nat)
    requires Linked(views) && w < |views| && PathOf(views, w) == []
    ensures Stands(h, views, w, fuel)
  {
  }

  /** `obj[k] = view`, where the view was taken from obj[k]: the plain script goes on as if nothing
      happened, the lazy one raises on every later index through that view. */
  lemma SelfStoreShows(c: LazyWorld, p: PlainWorld, obj: nat, k: Key, src: nat, dst: nat, j: Key, fuel: nat)
    requires Related(c, p) && fuel > 0 && j != MATERIALIZE
    requires Reg(c.regs, obj).View? && Reg(c.regs, src).View?
    requires PathOf(c.s.views, Reg(c.regs, src).v) == PathOf(c.s.views, Reg(c.regs, obj).v) + [k]
    requires ChainInPlace(Eager(c.s), PathOf(c.s.views, Reg(c.regs, src).v))
    ensures PlainStep(p, Assign(obj, k, src)).0 == p
    ensures
      var c1 := LazyStep(c, Assign(obj, k, src), fuel).0;
      Coherent(c1.s) && LazyStep(c1, Fetch(dst, src, j), fuel).1 == Raised
      && PlainStep(p, Fetch(dst, src, j)).1.Value?
  {
    StepCoherent(c, Assign(obj, k, src), fuel);
    SelfStored(c.s, Reg(c.regs, obj).v, k, Reg(c.regs, src).v, j, fuel);
    SelfStorePlain(c, p, obj, k, src);
  }

  lemma SelfStorePlain(c: LazyWorld, p: PlainWorld, obj: nat, k: Key, src: nat)
    requires Related(c, p) && Reg(c.regs, obj).View? && Reg(c.regs, src).View?
    requires PathOf(c.s.views, Reg(c.regs, src).v) == PathOf(c.s.views, Reg(c.regs, obj).v) + [k]
    requires ChainInPlace(Eager(c.s), PathOf(c.s.views, Reg(c.regs, src).v))
    ensures PlainStep(p, Assign(obj, k, src)).0 == p && Reg(p.regs, src).Table?
  {
    PlainSelfStore(c, p, PathOf(c.s.views, Reg(c.regs, obj).v), k);
  }

  lemma SelfStored(s: State, w: nat, k: Key, v: nat, j: Key, fuel: nat)
    requires Coherent(s) && fuel > 0 && j != MATERIALIZE && w < |s.views| && v < |s.views|
    requires PathOf(s.views, v) == PathOf(s.views, w) + [k] && ChainInPlace(Eager(s), PathOf(s.views, v))
    ensures
      var s' := AssignView(s, w, k, View(v), fuel).0;
      s'.views == s.views && s'.materialized && GetTable(s'.heap, s.views, View(v), j, fuel) == Raised
  {
    ViewPosition(s, w);
    SelfStoredIn(Eager(s), s.views, w, k, v, j, fuel);
    AssignedStanding(s, w, k, View(v), fuel);
  }

  lemma SelfStoredIn(h: Heap, views: seq<ViewRec>, w: nat, k: Key, v: nat, j: Key, fuel: nat)
    requires Linked(views) && fuel > 0 && j != MATERIALIZE && w < |views| && v < |views| && Msg(PathOf(views, w)) in h
    requires PathOf(views, v) == PathOf(views, w) + [k] && ChainInPlace(h, PathOf(views, v))
    ensures Stands(h, views, w, fuel - 1)
    ensures GetTable(Store(h, Msg(PathOf(views, w)), k, View(v)), views, View(v), j, fuel) == Raised
  {
    ChainSnoc(h, PathOf(views, w), k);
    WalkChain(h, views, PathOf(views, w), fuel - 1);
    SelfStoredRaises(h, views, v, PathOf(views, w), k, j, fuel);
  }

  lemma PlainSelfStore(c: LazyWorld, p: PlainWorld, path: seq<Key>, k: Key)
    requires Related(c, p) && ChainInPlace(Eager(c.s), path + [k])
    ensures Store(p.heap, Msg(path), k, Table(Msg(path + [k]))) == p.heap
  {
    ChainSnoc(Eager(c.s), path, k);
    SameSlot(c.s.views, Eager(c.s), p.heap, Msg(path), k);
    StoreSame(p.heap, Msg(path), k);
  }

  lemma StoreSame(h: Heap, id: TableId, k: Key)
    requires !Slot(h, id, k).Nil?
    ensures Store(h, id, k, Slot(h, id, k)) == h
  {
    assert h[id][k := Slot(h, id, k)] == h[id];
  }

  function NestedTree(x: Scalar): QVar {
    Map(map["a" := Map(map["x" := Leaf(x)])])
  }

  /** A message that just arrived in register 0, for the lazy script and for the plain one. */
  function Arrived(tree: QVar): LazyWorld {
    LazyWorld(State(tree, [Root(tree)], false, map[]), map[0 := View(0)], 1)
  }

  ghost function PlainArrived(tree: QVar): PlainWorld {
    PlainWorld(map[] + Tables(tree), map[0 := Table(Msg([]))], 1)
  }

  const FETCH_A: Op := Fetch(1, 0, Str("a"))

  /** The shortest script that shows it: `local a = msg.a; msg.a = a; return a.x`. */
  lemma CopyingAViewOntoItselfShows(x: Scalar, fuel: nat)
    requires fuel > 0
    ensures
      var tree := NestedTree(x);
      var ops := [FETCH_A, Assign(0, Str("a"), 1), Fetch(2, 1, Str("x"))];
      && Coherent(Arrived(tree).s)
      && LazyRun(Arrived(tree), ops, fuel).1[2] == Raised
      && PlainRun(PlainArrived(tree), ops).1[2] == Value(Prim(x))
  {
    var c, p := Arrived(NestedTree(x)), PlainArrived(NestedTree(x));
    FetchedA(x, fuel);
    var c1, p1 := LazyStep(c, FETCH_A, fuel).0, PlainStep(p, FETCH_A).0;
    SelfStoreShows(c1, p1, 0, Str("a"), 1, 2, Str("x"), fuel);
    ThirdOutcome(c, p, FETCH_A, Assign(0, Str("a"), 1), Fetch(2, 1, Str("x")), fuel);
    PlainThird(x);
  }

  lemma FetchedA(x: Scalar, fuel: nat)
    requires fuel > 0
    ensures Coherent(Arrived(NestedTree(x)).s)
    ensures
      var c1 := LazyStep(Arrived(NestedTree(x)), FETCH_A, fuel).0;
      var p1 := PlainStep(PlainArrived(NestedTree(x)), FETCH_A).0;
      && Related(c1, p1) && Reg(c1.regs, 0) == View(0) && Reg(c1.regs, 1) == View(1)
      && PathOf(c1.s.views, 1) == PathOf(c1.s.views, 0) + [Str("a")] && ChainInPlace(Eager(c1.s), PathOf(c1.s.views, 1))
  {
    var tree := NestedTree(x);
    FetchedRelated(tree, fuel);
    FirstFetch(Arrived(tree), x, fuel);
    var s := LazyStep(Arrived(tree), FETCH_A, fuel).0.s;
    TwoPaths(s.views, Str("a"));
    PristineChain(s, 1);
  }

  lemma FetchedRelated(tree: QVar, fuel: nat)
    requires IsContainer(tree) && fuel > 0
    ensures Coherent(Arrived(tree).s)
    ensures Related(LazyStep(Arrived(tree), FETCH_A, fuel).0, PlainStep(PlainArrived(tree), FETCH_A).0)
  {
    ArrivedStands(tree, fuel);
    FetchThroughView(Arrived(tree), PlainArrived(tree), 1, 0, Str("a"), fuel);
  }

  lemma ArrivedStands(tree: QVar, fuel: nat)
    requires IsContainer(tree) && fuel > 0
    ensures Related(Arrived(tree), PlainArrived(tree)) && StandsIn(Arrived(tree).s, Reg(Arrived(tree).regs, 0), fuel)
  {
    ArrivalRelated(tree, map[], 1);
    RootStands(Eager(Arrived(tree).s), Arrived(tree).s.views, 0, fuel - 1);
  }

  lemma PristineChain(s: State, w: nat)
    requires Coherent(s) && !s.materialized && w < |s.views|
    ensures ChainInPlace(Eager(s), PathOf(s.views, w))
  {
    PristineInPlace(s);
    ViewHoldsItsSubtree(s, w);
    InPlaceChain(Eager(s), s.retained, PathOf(s.views, w));
  }

  lemma PlainThird(x: Scalar)
    ensures
      var p1 := PlainStep(PlainArrived(NestedTree(x)), FETCH_A).0;
      PlainStep(p1, Fetch(2, 1, Str("x"))).1 == Value(Prim(x))
  {
    NestedTables(x);
  }

  lemma ThirdOutcome(c: LazyWorld, p: PlainWorld, a: Op, b: Op, d: Op, fuel: nat)
    requires Coherent(c.s) && fuel > 0
    ensures Coherent(LazyStep(c, a, fuel).0.s) && Coherent(LazyStep(LazyStep(c, a, fuel).0, b, fuel).0.s)
    ensures LazyRun(c, [a, b, d], fuel).1[2] == LazyStep(LazyStep(LazyStep(c, a, fuel).0, b, fuel).0, d, fuel).1
    ensures PlainRun(p, [a, b, d]).1[2] == PlainStep(PlainStep(PlainStep(p, a).0, b).0, d).1
  {
    StepCoherent(c, a, fuel);
    var c1, p1 := LazyStep(c, a, fuel).0, PlainStep(p, a).0;
    StepCoherent(c1, b, fuel);
    var c2, p2 := LazyStep(c1, b, fuel).0, PlainStep(p1, b).0;
    assert [a, b, d][1..] == [b, d] && [b, d][1..] == [d];
    assert LazyRun(c2, [d], fuel).1[0] == LazyStep(c2, d, fuel).1;
    assert LazyRun(c1, [b, d], fuel).1[1] == LazyRun(c2, [d], fuel).1[0];
    assert PlainRun(p2, [d]).1[0] == PlainStep(p2, d).1;
    assert PlainRun(p1, [b, d]).1[1] == PlainRun(p2, [d]).1[0];
  }

  lemma FirstFetch(c: LazyWorld, x: Scalar, fuel: nat)
    requires c.regs == map[0 := View(0)] && !c.s.materialized
    requires c.s.retained == Map(map["a" := Map(map["x" := Leaf(x)])])
    requires c.s.views == [Root(c.s.retained)] && Coherent(c.s)
    ensures
      var c1 := LazyStep(c, Fetch(1, 0, Str("a")), fuel).0;
      && c1.regs == map[0 := View(0), 1 := View(1)] && !c1.s.materialized
      && |c1.s.views| == 2 && c1.s.views[0].Root? && c1.s.views[1].Below?
      && c1.s.views[1].parent == 0 && c1.s.views[1].key == Str("a")
  {
    assert Child(c.s.retained, Str("a")) == Some(Map(map["x" := Leaf(x)]));
  }

  lemma TwoPaths(views: seq<ViewRec>, k: Key)
    requires |views| == 2 && views[0].Root? && views[1].Below? && views[1].parent == 0 && views[1].key == k
    ensures Linked(views) && PathOf(views, 0) == [] && PathOf(views, 1) == [] + [k]
  {
  }

  lemma NestedTables(x: Scalar)
    ensures
      var h := Tables(Map(map["a" := Map(map["x" := Leaf(x)])]));
      && Slot(h, Msg([]), Str("a")) == Table(Msg([Str("a")]))
      && Slot(h, Msg([Str("a")]), Str("x")) == Prim(x)
  {
    var sub := Map(map["x" := Leaf(x)]);
    var tree := Map(map["a" := sub]);
    assert Child(tree, Str("a")) == Some(sub);
    assert Child(sub, Str("x")) == Some(Leaf(x));
    assert Subtree(tree, [Str("a")]) == Subtree(sub, [Str("a")][1..]);
    PathsAreContainers(tree, [Str("a")]);
    TablesContents(tree, []);
    TablesContents(tree, [Str("a")]);
    PristineSlot(tree, [], Str("a"));
    PristineSlot(sub, [Str("a")], Str("x"));
    assert [] + [Str("a")] == [Str("a")];
  }
}
