/** One operation through a view, next to the same operation on the message as an eager table. */
module LazyRefinement {
  import opened Variants
  import opened LuaTables
  import opened LazyViews

  // ---------------------------------------------------------------- positions of the message

  /** Every container of the message is still reached from its parent's table. */
  ghost predicate InPlace(h: Heap, t: QVar) {
    forall p, k {:trigger HoldsChild(h, p, k)} :: p + [k] in Paths(t) ==> HoldsChild(h, p, k)
  }

  ghost predicate HoldsChild(h: Heap, p: seq<Key>, k: Key) {
    Slot(h, Msg(p), k) == Table(Msg(p + [k]))
  }

  /** Every position, followed from the root the way a view does it, leads to its own table. */
  ghost predicate PositionsResolve(h: Heap, views: seq<ViewRec>, t: QVar, fuel: nat)
    requires Linked(views)
  {
    forall p :: p in Paths(t) ==> Walk(h, views, Table(Msg([])), p, fuel) == Value(Table(Msg(p)))
  }

  lemma {:induction false} WalkInPlace(h: Heap, views: seq<ViewRec>, t: QVar, p: seq<Key>, fuel: nat)
    requires Linked(views) && InPlace(h, t) && p in Paths(t)
    ensures Walk(h, views, Table(Msg([])), p, fuel) == Value(Table(Msg(p)))
    decreases |p|
  {
    if p != [] {
      var q, k := p[..|p| - 1], p[|p| - 1];
      assert p == q + [k];
      PathsPrefix(t, q, k);
      WalkInPlace(h, views, t, q, fuel);
      WalkSnoc(h, views, Table(Msg([])), q, k, fuel);
      assert HoldsChild(h, q, k);
    }
  }

  lemma InPlaceIffPositionsResolve(h: Heap, views: seq<ViewRec>, t: QVar, fuel: nat)
    requires Linked(views)
    ensures InPlace(h, t) <==> PositionsResolve(h, views, t, fuel)
  {
    if InPlace(h, t) {
      forall p | p in Paths(t) ensures Walk(h, views, Table(Msg([])), p, fuel) == Value(Table(Msg(p))) {
        WalkInPlace(h, views, t, p, fuel);
      }
    }
    if PositionsResolve(h, views, t, fuel) {
      forall p, k | p + [k] in Paths(t) ensures HoldsChild(h, p, k) {
        PathsPrefix(t, p, k);
        WalkSnoc(h, views, Table(Msg([])), p, k, fuel);
      }
    }
  }

  /** An unmaterialized view holds exactly the retained subtree at its key chain. */
  lemma {:induction false} ViewHoldsItsSubtree(s: State, w: nat)
    requires Coherent(s) && w < |s.views|
    ensures Subtree(s.retained, PathOf(s.views, w)) == Some(s.views[w].value)
    ensures PathOf(s.views, w) in Paths(s.retained)
    decreases w
  {
    if w > 0 {
      assert IsChildView(s.views, w);
      ViewHoldsItsSubtree(s, s.views[w].parent);
      SubtreeSnoc(s.retained, PathOf(s.views, s.views[w].parent), s.views[w].key);
    }
    PathsAreContainers(s.retained, PathOf(s.views, w));
  }

  lemma PristineInPlace(s: State)
    requires Coherent(s) && !s.materialized
    ensures InPlace(Eager(s), s.retained)
  {
    forall p, k | p + [k] in Paths(s.retained) ensures HoldsChild(Eager(s), p, k) {
      PathsPrefix(s.retained, p, k);
      TablesContents(s.retained, p);
      SubtreeSnoc(s.retained, p, k);
      PathsAreContainers(s.retained, p + [k]);
    }
  }

  // ---------------------------------------------------------------- one operation through a view

  lemma GetThroughView(h: Heap, views: seq<ViewRec>, w: nat, id: TableId, k: Key, fuel: nat)
    requires Linked(views) && w < |views| && fuel > 0 && k != MATERIALIZE
    requires Resolve(h, views, w, fuel - 1) == Value(Table(id))
    ensures GetTable(h, views, View(w), k, fuel) == Value(Slot(h, id, k))
  {
  }

  lemma LengthThroughView(h: Heap, views: seq<ViewRec>, w: nat, id: TableId, n: nat, fuel: nat)
    requires Linked(views) && w < |views| && fuel > 0 && id in h
    requires Resolve(h, views, w, fuel - 1) == Value(Table(id))
    ensures MayBeLength(h, views, View(w), n, fuel) <==> IsBorder(h[id], n)
  {
  }

  lemma SetThroughView(h: Heap, views: seq<ViewRec>, w: nat, id: TableId, k: Key, v: Val, fuel: nat)
    requires Linked(views) && w < |views| && fuel > 0
    requires Resolve(h, views, w, fuel - 1) == Value(Table(id))
    ensures SetTable(h, views, View(w), k, v, fuel) == Some(Store(h, id, k, v))
  {
  }

  lemma GetInPlace(h: Heap, views: seq<ViewRec>, t: QVar, w: nat, k: Key, fuel: nat)
    requires Linked(views) && w < |views| && InPlace(h, t) && PathOf(views, w) in Paths(t)
    requires fuel > 0 && k != MATERIALIZE
    ensures GetTable(h, views, View(w), k, fuel) == Value(Slot(h, Msg(PathOf(views, w)), k))
  {
    WalkInPlace(h, views, t, PathOf(views, w), fuel - 1);
    GetThroughView(h, views, w, Msg(PathOf(views, w)), k, fuel);
  }

  lemma LengthInPlace(h: Heap, views: seq<ViewRec>, t: QVar, w: nat, n: nat, fuel: nat)
    requires Linked(views) && w < |views| && InPlace(h, t) && PathOf(views, w) in Paths(t)
    requires fuel > 0 && Msg(PathOf(views, w)) in h
    ensures MayBeLength(h, views, View(w), n, fuel) <==> IsBorder(h[Msg(PathOf(views, w))], n)
  {
    WalkInPlace(h, views, t, PathOf(views, w), fuel - 1);
    LengthThroughView(h, views, w, Msg(PathOf(views, w)), n, fuel);
  }

  /** The table at the position of a view of a message nobody wrote to. */
  lemma PristineTable(s: State, w: nat)
    requires Coherent(s) && !s.materialized && w < |s.views|
    ensures Linked(s.views) && PathOf(s.views, w) in Paths(s.retained) && InPlace(Eager(s), s.retained)
    ensures Msg(PathOf(s.views, w)) in Eager(s)
    ensures Eager(s)[Msg(PathOf(s.views, w))] == SlotsOf(s.views[w].value, PathOf(s.views, w))
  {
    ViewHoldsItsSubtree(s, w);
    PristineInPlace(s);
    TablesContents(s.retained, PathOf(s.views, w));
  }

  lemma PristineSlot(t: QVar, p: seq<Key>, k: Key)
    ensures (if k in SlotsOf(t, p) then SlotsOf(t, p)[k] else Nil)
      == if Child(t, k).Some? then Lift(Child(t, k).value, p + [k]) else Nil
  {
  }

  lemma PristineGet(s: State, w: nat, k: Key, fuel: nat)
    requires Coherent(s) && !s.materialized && w < |s.views| && fuel > 0 && k != MATERIALIZE
    ensures GetTable(Eager(s), s.views, View(w), k, fuel)
      == Value(if Child(s.views[w].value, k).Some?
               then Lift(Child(s.views[w].value, k).value, PathOf(s.views, w) + [k]) else Nil)
  {
    PristineTable(s, w);
    GetInPlace(Eager(s), s.views, s.retained, w, k, fuel);
    PristineSlot(s.views[w].value, PathOf(s.views, w), k);
  }

  /** Indexing a view and indexing the table at its position of the eager message agree; a container
      found in a message nobody wrote to comes as a view of that same position. */
  lemma IndexAgrees(s: State, w: nat, k: Key, fuel: nat)
    requires Coherent(s) && w < |s.views| && k != MATERIALIZE && fuel > 0
    ensures
      var (s', r) := IndexView(s, w, k, fuel);
      var eager := GetTable(Eager(s), s.views, View(w), k, fuel);
      && Coherent(s') && Eager(s') == Eager(s)
      && ((r == eager && s' == s)
          || (!s.materialized && r == Value(View(|s.views|)) && |s'.views| == |s.views| + 1
              && s'.views[..|s.views|] == s.views
              && s' == s.(views := s'.views)
              && eager == Value(Table(Msg(PathOf(s'.views, |s.views|))))))
  {
    if !s.materialized {
      PristineGet(s, w, k, fuel);
      var child := Child(s.views[w].value, k);
      if child.Some? && IsContainer(child.value) {
        ChildViewCoherent(s, w, k);
        PathOfGrows(s.views, Below(w, k, child.value), w);
      }
    }
  }

  /** Turning the message into tables changes nothing in the eager heap, and a second time nothing
      at all. */
  lemma MaterializeUnobservable(s: State, w: nat, fuel: nat)
    requires Coherent(s) && w < |s.views|
    ensures
      var (m, r) := WholeView(s, w, fuel);
      && Coherent(m) && m.materialized && Eager(m) == Eager(s) && m.views == s.views
      && WholeView(m, w, fuel) == (m, r)
      && r == Resolve(Eager(s), s.views, w, fuel)
      && (!s.materialized ==> r == Value(Table(Msg(PathOf(s.views, w)))))
  {
    MaterializedCoherent(s);
    if !s.materialized {
      ViewHoldsItsSubtree(s, w);
      PristineInPlace(s);
      WalkInPlace(Eager(s), s.views, s.retained, PathOf(s.views, w), fuel);
    }
  }

  /** A write through a view is the write at its position of the eager message, or raises with the
      message unchanged. */
  lemma AssignAgrees(s: State, w: nat, k: Key, v: Val, fuel: nat)
    requires Coherent(s) && w < |s.views| && fuel > 0
    ensures
      var (s', r) := AssignView(s, w, k, v, fuel);
      var eager := SetTable(Eager(s), s.views, View(w), k, v, fuel);
      && Coherent(s') && s'.materialized && s'.views == s.views
      && (r == Raised <==> eager.None?)
      && Eager(s') == (if eager.None? then Eager(s) else eager.value)
  {
    MaterializedCoherent(s);
    StoreKeepsIds(Materialized(s).heap, s.views, View(w), k, v, fuel);
  }

  lemma {:induction false} StoreKeepsIds(h: Heap, views: seq<ViewRec>, x: Val, k: Key, v: Val, fuel: nat)
    requires Linked(views)
    ensures var r := SetTable(h, views, x, k, v, fuel);
      r.Some? ==> r.value.Keys == h.Keys && exists id :: r.value == Store(h, id, k, v)
    decreases fuel
  {
    if x.View? && fuel > 0 && x.v < |views| {
      match Resolve(h, views, x.v, fuel - 1)
      case Raised =>
      case Value(y) => StoreKeepsIds(h, views, y, k, v, fuel - 1);
    }
  }

  lemma PristineLengths(s: State, w: nat, n: nat, fuel: nat)
    requires Coherent(s) && !s.materialized && w < |s.views| && fuel > 0
    ensures MayBeLength(Eager(s), s.views, View(w), n, fuel)
      <==> IsBorder(SlotsOf(s.views[w].value, PathOf(s.views, w)), n)
  {
    PristineTable(s, w);
    LengthInPlace(Eager(s), s.views, s.retained, w, n, fuel);
  }

  /** The answer of # on a message nobody wrote to is one that Lua may give for the eager table,
      exactly when the list does not end in a null. */
  lemma LengthAgreesIff(s: State, w: nat, fuel: nat)
    requires Coherent(s) && !s.materialized && w < |s.views| && fuel > 0
    ensures
      var t := s.views[w].value;
      MayBeLength(Eager(s), s.views, View(w), PristineLength(t), fuel)
      <==> (t.List? && t.l != [] ==> t.l[|t.l| - 1] != Null)
  {
    PristineLengths(s, w, PristineLength(s.views[w].value), fuel);
    PristineBorderIff(s.views[w].value, PathOf(s.views, w));
  }

  lemma PristineBorderIff(t: QVar, p: seq<Key>)
    ensures IsBorder(SlotsOf(t, p), PristineLength(t)) <==> (t.List? && t.l != [] ==> t.l[|t.l| - 1] != Null)
  {
    var n := PristineLength(t);
    PristineSlot(t, p, Num(n));
    PristineSlot(t, p, Num(n + 1));
  }

  /** ... and the only one, when the list holds no null at all. */
  lemma LengthUnique(s: State, w: nat, n: nat, fuel: nat)
    requires Coherent(s) && !s.materialized && w < |s.views| && fuel > 0
    requires s.views[w].value.List? ==> Null !in s.views[w].value.l
    requires MayBeLength(Eager(s), s.views, View(w), n, fuel)
    ensures n == PristineLength(s.views[w].value)
  {
    PristineLengths(s, w, n, fuel);
    PristineBorderUnique(s.views[w].value, PathOf(s.views, w), n);
  }

  lemma PristineBorderUnique(t: QVar, p: seq<Key>, n: nat)
    requires t.List? ==> Null !in t.l
    requires IsBorder(SlotsOf(t, p), n)
    ensures n == PristineLength(t)
  {
    PristineSlot(t, p, Num(n));
    PristineSlot(t, p, Num(n + 1));
  }

  // ---------------------------------------------------------------- what a write leaves alone

  /** Whether looking up `k` in `x` reads the slot `kk` of the table `id`. */
  ghost predicate GetReads(h: Heap, views: seq<ViewRec>, x: Val, k: Key, fuel: nat, id: TableId, kk: Key)
    requires Linked(views)
    decreases fuel, 0, 0
  {
    match x
    case Table(i) => i == id && k == kk
    case Prim(p) => p.Text? && id == STRING_LIB && k == kk
    case View(w) =>
      && fuel > 0 && w < |views| && k != MATERIALIZE
      && (WalkReads(h, views, Table(Msg([])), PathOf(views, w), fuel - 1, id, kk)
          || (match Resolve(h, views, w, fuel - 1)
              case Raised => false
              case Value(y) => GetReads(h, views, y, k, fuel - 1, id, kk)))
    case _ => false
  }

  ghost predicate WalkReads(h: Heap, views: seq<ViewRec>, x: Val, path: seq<Key>, fuel: nat, id: TableId, kk: Key)
    requires Linked(views)
    decreases fuel, 1, |path|
  {
    && path != []
    && (GetReads(h, views, x, path[0], fuel, id, kk)
        || (match GetTable(h, views, x, path[0], fuel)
            case Raised => false
            case Value(y) => WalkReads(h, views, y, path[1..], fuel, id, kk)))
  }

  /** A write changes what a lookup finds only if the lookup reads the written slot. */
  lemma {:induction false} LookupFrame(h: Heap, views: seq<ViewRec>, x: Val, k: Key, fuel: nat,
                                       id: TableId, kk: Key, v: Val)
    requires Linked(views) && !GetReads(h, views, x, k, fuel, id, kk)
    ensures GetTable(Store(h, id, kk, v), views, x, k, fuel) == GetTable(h, views, x, k, fuel)
    decreases fuel, 0, 0
  {
    if x.View? && fuel > 0 && x.v < |views| && k != MATERIALIZE {
      PathFrame(h, views, Table(Msg([])), PathOf(views, x.v), fuel - 1, id, kk, v);
      match Resolve(h, views, x.v, fuel - 1)
      case Raised =>
      case Value(y) => LookupFrame(h, views, y, k, fuel - 1, id, kk, v);
    }
  }

  /** A write changes no position whose key chain does not go through the written slot. */
  lemma {:induction false} PathFrame(h: Heap, views: seq<ViewRec>, x: Val, path: seq<Key>, fuel: nat,
                                     id: TableId, kk: Key, v: Val)
    requires Linked(views) && !WalkReads(h, views, x, path, fuel, id, kk)
    ensures Walk(Store(h, id, kk, v), views, x, path, fuel) == Walk(h, views, x, path, fuel)
    decreases fuel, 1, |path|
  {
    if path != [] {
      LookupFrame(h, views, x, path[0], fuel, id, kk, v);
      match GetTable(h, views, x, path[0], fuel)
      case Raised =>
      case Value(y) => PathFrame(h, views, y, path[1..], fuel, id, kk, v);
    }
  }

  /** A write through one view is read back through every view that still stands for the same table. */
  lemma WriteSeenThroughEveryView(s: State, w: nat, k: Key, v: Val, fuel: nat, id: TableId, other: nat)
    requires Coherent(s) && w < |s.views| && other < |s.views| && fuel > 0 && k != MATERIALIZE
    requires Resolve(Eager(s), s.views, w, fuel - 1) == Value(Table(id)) && id in Eager(s)
    requires Resolve(Eager(s), s.views, other, fuel - 1) == Value(Table(id))
    requires !WalkReads(Eager(s), s.views, Table(Msg([])), PathOf(s.views, other), fuel - 1, id, k)
    ensures
      var (s', r) := AssignView(s, w, k, v, fuel);
      r == Value(Nil) && IndexView(s', other, k, fuel).1 == Value(v)
  {
    AssignAgrees(s, w, k, v, fuel);
    WriteReadBack(Eager(s), s.views, w, k, v, fuel, id, other);
  }

  lemma WriteReadBack(h: Heap, views: seq<ViewRec>, w: nat, k: Key, v: Val, fuel: nat, id: TableId, other: nat)
    requires Linked(views) && w < |views| && other < |views| && fuel > 0 && k != MATERIALIZE
    requires Resolve(h, views, w, fuel - 1) == Value(Table(id)) && id in h
    requires Resolve(h, views, other, fuel - 1) == Value(Table(id))
    requires !WalkReads(h, views, Table(Msg([])), PathOf(views, other), fuel - 1, id, k)
    ensures SetTable(h, views, View(w), k, v, fuel) == Some(Store(h, id, k, v))
    ensures GetTable(Store(h, id, k, v), views, View(other), k, fuel) == Value(v)
  {
    SetThroughView(h, views, w, id, k, v, fuel);
    PathFrame(h, views, Table(Msg([])), PathOf(views, other), fuel - 1, id, k, v);
    GetThroughView(Store(h, id, k, v), views, other, id, k, fuel);
  }

  // ---------------------------------------------------------------- when a view stands for its position

  /** The view leads to the table that the message had at its position. */
  ghost predicate Stands(h: Heap, views: seq<ViewRec>, w: nat, fuel: nat)
    requires Linked(views) && w < |views|
  {
    Resolve(h, views, w, fuel) == Value(Table(Msg(PathOf(views, w))))
  }

  lemma PristineStands(s: State, w: nat, fuel: nat)
    requires Coherent(s) && !s.materialized && w < |s.views|
    ensures Stands(Eager(s), s.views, w, fuel)
  {
    PristineTable(s, w);
    WalkInPlace(Eager(s), s.views, s.retained, PathOf(s.views, w), fuel);
  }

  /** A higher limit on nested calls changes no result, it only lets fewer lookups fail. */
  lemma {:induction false} GetMoreFuel(h: Heap, views: seq<ViewRec>, x: Val, k: Key, fuel: nat, more: nat)
    requires Linked(views) && fuel <= more && GetTable(h, views, x, k, fuel).Value?
    ensures GetTable(h, views, x, k, more) == GetTable(h, views, x, k, fuel)
    decreases fuel, 0, 0
  {
    if x.View? && k != MATERIALIZE {
      WalkMoreFuel(h, views, Table(Msg([])), PathOf(views, x.v), fuel - 1, more - 1);
      GetMoreFuel(h, views, Resolve(h, views, x.v, fuel - 1).v, k, fuel - 1, more - 1);
    }
  }

  lemma {:induction false} WalkMoreFuel(h: Heap, views: seq<ViewRec>, x: Val, path: seq<Key>, fuel: nat, more: nat)
    requires Linked(views) && fuel <= more && Walk(h, views, x, path, fuel).Value?
    ensures Walk(h, views, x, path, more) == Walk(h, views, x, path, fuel)
    decreases fuel, 1, |path|
  {
    if path != [] {
      GetMoreFuel(h, views, x, path[0], fuel, more);
      WalkMoreFuel(h, views, GetTable(h, views, x, path[0], fuel).v, path[1..], fuel, more);
    }
  }

  // -- chains of links

  /** Every container on the way to `p` is stored where the message had it. */
  ghost predicate ChainInPlace(h: Heap, p: seq<Key>) {
    forall n :: 0 <= n < |p| ==> LinkInPlace(h, p, n)
  }

  ghost predicate LinkInPlace(h: Heap, p: seq<Key>, n: nat)
    requires n < |p|
  {
    HoldsChild(h, p[..n], p[n])
  }

  lemma InPlaceChain(h: Heap, t: QVar, p: seq<Key>)
    requires InPlace(h, t) && p in Paths(t)
    ensures ChainInPlace(h, p)
    decreases |p|
  {
    if p != [] {
      var n := |p| - 1;
      assert p == p[..n] + [p[n]];
      PathsPrefix(t, p[..n], p[n]);
      InPlaceChain(h, t, p[..n]);
      ChainSnoc(h, p[..n], p[n]);
    }
  }

  lemma ChainSnoc(h: Heap, p: seq<Key>, k: Key)
    ensures ChainInPlace(h, p + [k]) <==> ChainInPlace(h, p) && HoldsChild(h, p, k)
  {
    var q := p + [k];
    assert q[..|p|] == p && q[|p|] == k;
    if ChainInPlace(h, q) {
      assert LinkInPlace(h, q, |p|);
      forall n | 0 <= n < |p| ensures LinkInPlace(h, p, n) {
        assert LinkInPlace(h, q, n);
        assert q[..n] == p[..n];
      }
    }
    if ChainInPlace(h, p) && HoldsChild(h, p, k) {
      forall n | 0 <= n < |q| ensures LinkInPlace(h, q, n) {
        if n < |p| {
          assert LinkInPlace(h, p, n);
          assert q[..n] == p[..n];
        }
      }
    }
  }

  lemma {:induction false} WalkChain(h: Heap, views: seq<ViewRec>, p: seq<Key>, fuel: nat)
    requires Linked(views) && ChainInPlace(h, p)
    ensures Walk(h, views, Table(Msg([])), p, fuel) == Value(Table(Msg(p)))
    decreases |p|
  {
    if p != [] {
      var q, k := p[..|p| - 1], p[|p| - 1];
      assert p == q + [k];
      ChainSnoc(h, q, k);
      WalkChain(h, views, q, fuel);
      WalkSnoc(h, views, Table(Msg([])), q, k, fuel);
    }
  }

  lemma {:induction false} WalkAppend(h: Heap, views: seq<ViewRec>, x: Val, a: seq<Key>, b: seq<Key>, fuel: nat)
    requires Linked(views)
    ensures Walk(h, views, x, a + b, fuel) ==
      match Walk(h, views, x, a, fuel)
      case Raised => Raised
      case Value(y) => Walk(h, views, y, b, fuel)
    decreases |a|
  {
    if a == [] {
      assert a + b == b;
    } else {
      assert (a + b)[1..] == a[1..] + b;
      match GetTable(h, views, x, a[0], fuel)
      case Raised =>
      case Value(y) => WalkAppend(h, views, y, a[1..], b, fuel);
    }
  }

  /** A write at the table of position `p` breaks no link above that table, and below it only the one it
      stores over. */
  lemma StoreKeepsChain(h: Heap, p: seq<Key>, k: Key, v: Val, q: seq<Key>)
    requires ChainInPlace(h, q) && !(p + [k] <= q)
    ensures ChainInPlace(Store(h, Msg(p), k, v), q)
  {
    forall n | 0 <= n < |q| ensures LinkInPlace(Store(h, Msg(p), k, v), q, n) {
      assert LinkInPlace(h, q, n);
      assert q[..n] + [q[n]] <= q;
    }
  }

  /** What a write at the table of position `p` does to a view whose links are in place: nothing when it
      stores over no link of the view; otherwise the view stands for its position exactly when the rest of
      its keys leads there from the stored value. */
  lemma StoreKeepsViewIff(h: Heap, views: seq<ViewRec>, w: nat, p: seq<Key>, k: Key, v: Val, fuel: nat)
    requires Linked(views) && w < |views| && ChainInPlace(h, PathOf(views, w)) && Msg(p) in h
    ensures
      var h', q := Store(h, Msg(p), k, v), PathOf(views, w);
      Stands(h', views, w, fuel) <==>
        (p + [k] <= q ==> Walk(h', views, v, q[|p| + 1..], fuel) == Value(Table(Msg(q))))
  {
    var h', q := Store(h, Msg(p), k, v), PathOf(views, w);
    if p + [k] <= q {
      ChainPrefix(h, p, q);
      StoreKeepsChain(h, p, k, v, p);
      WalkChain(h', views, p, fuel);
      WalkSnoc(h', views, Table(Msg([])), p, k, fuel);
      WalkAppend(h', views, Table(Msg([])), p + [k], q[|p| + 1..], fuel);
      assert q == p + [k] + q[|p| + 1..];
    } else {
      StoreKeepsChain(h, p, k, v, q);
      WalkChain(h', views, q, fuel);
    }
  }

  lemma ChainPrefix(h: Heap, p: seq<Key>, q: seq<Key>)
    requires p <= q && ChainInPlace(h, q)
    ensures ChainInPlace(h, p)
  {
    forall n | 0 <= n < |p| ensures LinkInPlace(h, p, n) {
      assert LinkInPlace(h, q, n);
      assert q[..n] == p[..n] && q[n] == p[n];
    }
  }

  /** Storing over the very position of a view: it stands for its position exactly when it gets its own
      table back. */
  lemma StoreOverViewIff(h: Heap, views: seq<ViewRec>, w: nat, p: seq<Key>, k: Key, v: Val, fuel: nat)
    requires Linked(views) && w < |views| && PathOf(views, w) == p + [k] && ChainInPlace(h, p + [k]) && Msg(p) in h
    ensures Stands(Store(h, Msg(p), k, v), views, w, fuel) <==> v == Table(Msg(p + [k]))
  {
    StoreKeepsViewIff(h, views, w, p, k, v, fuel);
    assert (p + [k])[|p| + 1..] == [];
  }

  /** A write keeps the message's containers in place exactly when it stores
      over none of them, or a container's own table. */
  lemma StoreKeepsPlaceIff(h: Heap, t: QVar, p: seq<Key>, k: Key, v: Val)
    requires InPlace(h, t) && Msg(p) in h
    ensures InPlace(Store(h, Msg(p), k, v), t) <==> (p + [k] in Paths(t) ==> v == Table(Msg(p + [k])))
  {
    var h' := Store(h, Msg(p), k, v);
    if InPlace(h', t) && p + [k] in Paths(t) {
      assert HoldsChild(h', p, k);
    }
    if p + [k] in Paths(t) ==> v == Table(Msg(p + [k])) {
      forall q, j | q + [j] in Paths(t) ensures HoldsChild(h', q, j) {
        assert HoldsChild(h, q, j);
        if q == p && j == k {
          assert v == Table(Msg(p + [k]));
        }
      }
    }
  }

  /** A view stored at the very position it was taken from: in a plain script `t[k] = t[k]`, here the
      end of that position. Every later index through it raises, whatever the limit on nested calls. */
  lemma {:induction false} SelfStoreRaises(h: Heap, views: seq<ViewRec>, w: nat, p: seq<Key>, k: Key, j: Key, fuel: nat)
    requires Linked(views) && w < |views| && PathOf(views, w) == p + [k]
    requires forall f: nat :: Walk(h, views, Table(Msg([])), p, f) == Value(Table(Msg(p)))
    requires Slot(h, Msg(p), k) == View(w) && j != MATERIALIZE
    ensures GetTable(h, views, View(w), j, fuel) == Raised
    decreases fuel
  {
    if fuel > 0 {
      WalkSnoc(h, views, Table(Msg([])), p, k, fuel - 1);
      SelfStoreRaises(h, views, w, p, k, j, fuel - 1);
    }
  }

  /** A view stored over its own position: every later index through it raises. */
  lemma SelfStoredRaises(h: Heap, views: seq<ViewRec>, w: nat, p: seq<Key>, k: Key, j: Key, fuel: nat)
    requires Linked(views) && w < |views| && PathOf(views, w) == p + [k]
    requires ChainInPlace(h, p + [k]) && Msg(p) in h && j != MATERIALIZE
    ensures GetTable(Store(h, Msg(p), k, View(w)), views, View(w), j, fuel) == Raised
  {
    var h' := Store(h, Msg(p), k, View(w));
    ChainSnoc(h, p, k);
    StoreKeepsChain(h, p, k, View(w), p);
    forall f: nat ensures Walk(h', views, Table(Msg([])), p, f) == Value(Table(Msg(p))) {
      WalkChain(h', views, p, f);
    }
    SelfStoreRaises(h', views, w, p, k, j, fuel);
  }
}
