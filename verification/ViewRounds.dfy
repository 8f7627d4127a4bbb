/** get() on the views of a message that is tables: when it ends, and what it gives after set(). */
module ViewRounds {
  import opened Variants
  import opened LuaTables
  import opened LazyViews
  import opened LazyRefinement
  import opened PathAccess
  import opened ViewPaths

  // ---------------------------------------------------------------- when the calls end

  /** The view that a view leads to, if it is one. */
  ghost function NextView(h: Heap, views: seq<ViewRec>, w: nat, fuel: nat): (u: Option<nat>)
    requires Linked(views) && w < |views|
    ensures u.Some? ==> u.value < |views|
  {
    match Resolve(h, views, w, fuel)
    case Value(View(u)) => if u < |views| then Some(u) else None
    case _ => None
  }

  /** The view asked after `n` turns. */
  ghost function After(h: Heap, views: seq<ViewRec>, w: nat, fuel: nat, n: nat): (u: Option<nat>)
    requires Linked(views) && w < |views|
    ensures u.Some? ==> u.value < |views|
  {
    if n == 0 then Some(w)
    else match After(h, views, w, fuel, n - 1)
      case None => None
      case Some(u) => NextView(h, views, u, fuel)
  }

  lemma {:induction false} AfterFirst(h: Heap, views: seq<ViewRec>, w: nat, fuel: nat, n: nat)
    requires Linked(views) && w < |views| && n > 0
    ensures After(h, views, w, fuel, n) ==
      match NextView(h, views, w, fuel)
      case None => None
      case Some(u) => After(h, views, u, fuel, n - 1)
    decreases n
  {
    assert After(h, views, w, fuel, 0) == Some(w);
    if n > 1 {
      AfterFirst(h, views, w, fuel, n - 1);
    }
  }

  lemma {:induction false} EndlessIsAfter(h: Heap, views: seq<ViewRec>, w: nat, path: string, sep: string, fuel: nat,
                                          n: nat)
    requires Linked(views) && w < |views| && sep != ""
    ensures GetRounds(h, views, w, path, sep, fuel, n) == Endless <==> After(h, views, w, fuel, n + 1).Some?
    decreases n
  {
    AfterFirst(h, views, w, fuel, n + 1);
    var u := NextView(h, views, w, fuel);
    if n == 0 {
      assert u.Some? ==> After(h, views, u.value, fuel, 0) == u;
    } else if u.Some? {
      EndlessIsAfter(h, views, u.value, path, sep, fuel, n - 1);
    }
  }

  lemma {:induction false} AfterEarlier(h: Heap, views: seq<ViewRec>, w: nat, fuel: nat, i: nat, n: nat)
    requires Linked(views) && w < |views| && i <= n && After(h, views, w, fuel, n).Some?
    ensures After(h, views, w, fuel, i).Some?
    decreases n
  {
    if i < n {
      AfterEarlier(h, views, w, fuel, i, n - 1);
    }
  }

  /** Two turns that ask the same view. */
  ghost predicate ComesRound(h: Heap, views: seq<ViewRec>, w: nat, fuel: nat, i: nat, j: nat)
    requires Linked(views) && w < |views|
  {
    i < j && After(h, views, w, fuel, i).Some? && After(h, views, w, fuel, i) == After(h, views, w, fuel, j)
  }

  lemma {:induction false} RoundRepeats(h: Heap, views: seq<ViewRec>, w: nat, fuel: nat, i: nat, j: nat, n: nat)
    requires Linked(views) && w < |views| && ComesRound(h, views, w, fuel, i, j) && n >= i
    ensures After(h, views, w, fuel, n).Some?
    ensures After(h, views, w, fuel, n + (j - i)) == After(h, views, w, fuel, n)
    decreases n
  {
    if n > i {
      RoundRepeats(h, views, w, fuel, i, j, n - 1);
      var m := n - 1 + (j - i);
      assert After(h, views, w, fuel, m + 1) == After(h, views, w, fuel, n);
      if n >= j {
        RoundRepeats(h, views, w, fuel, i, j, n - (j - i));
      } else {
        AfterEarlier(h, views, w, fuel, n, j);
      }
    }
  }

  lemma {:induction false} TwoAlike(s: seq<nat>, m: nat) returns (i: nat, j: nat)
    requires |s| > m && forall k :: 0 <= k < |s| ==> s[k] < m
    ensures i < j < |s| && s[i] == s[j]
    decreases m
  {
    var n := |s| - 1;
    if k :| 0 <= k < n && s[k] == s[n] {
      i, j := k, n;
    } else {
      // without the last element, and with m - 1 renamed to what is left free by it
      var t := seq(n, k requires 0 <= k < n => if s[k] == m - 1 then s[n] else s[k]);
      i, j := TwoAlike(t, m - 1);
    }
  }

  lemma SomeViewTwice(h: Heap, views: seq<ViewRec>, w: nat, fuel: nat) returns (i: nat, j: nat)
    requires Linked(views) && w < |views| && After(h, views, w, fuel, |views|).Some?
    ensures ComesRound(h, views, w, fuel, i, j) && j <= |views|
  {
    forall n | 0 <= n <= |views| ensures After(h, views, w, fuel, n).Some? {
      AfterEarlier(h, views, w, fuel, n, |views|);
    }
    var asked := seq(|views| + 1, n requires 0 <= n < |views| + 1 => After(h, views, w, fuel, n).value);
    i, j := TwoAlike(asked, |views|);
  }

  /** The calls go on for ever. */
  ghost predicate NeverEnds(h: Heap, views: seq<ViewRec>, w: nat, path: string, sep: string, fuel: nat)
    requires Linked(views) && w < |views| && sep != ""
  {
    forall n: nat :: GetRounds(h, views, w, path, sep, fuel, n) == Endless
  }

  /** get() on a view never returns exactly if it is still open after as many turns as there are views, and
      that is exactly if some view is asked twice. */
  lemma EndlessIff(h: Heap, views: seq<ViewRec>, w: nat, path: string, sep: string, fuel: nat)
    requires Linked(views) && w < |views| && sep != ""
    ensures GetRounds(h, views, w, path, sep, fuel, |views|) == Endless <==> NeverEnds(h, views, w, path, sep, fuel)
    ensures NeverEnds(h, views, w, path, sep, fuel) <==> exists i: nat, j: nat :: ComesRound(h, views, w, fuel, i, j)
  {
    EndlessIsAfter(h, views, w, path, sep, fuel, |views|);
    if GetRounds(h, views, w, path, sep, fuel, |views|) == Endless {
      AfterEarlier(h, views, w, fuel, |views|, |views| + 1);
      var i, j := SomeViewTwice(h, views, w, fuel);
    }
    if i: nat, j: nat :| ComesRound(h, views, w, fuel, i, j) {
      forall n: nat ensures GetRounds(h, views, w, path, sep, fuel, n) == Endless {
        RoundRepeats(h, views, w, fuel, i, j, i + n + 1);
        AfterEarlier(h, views, w, fuel, n + 1, i + n + 1);
        EndlessIsAfter(h, views, w, path, sep, fuel, n);
      }
    }
  }

  /** An answer that came is the answer, however many turns more are allowed. */
  lemma {:induction false} MoreTurnsSame(h: Heap, views: seq<ViewRec>, w: nat, path: string, sep: string, fuel: nat,
                                         n: nat, m: nat)
    requires Linked(views) && w < |views| && sep != "" && n <= m
    requires GetRounds(h, views, w, path, sep, fuel, n) != Endless
    ensures GetRounds(h, views, w, path, sep, fuel, m) == GetRounds(h, views, w, path, sep, fuel, n)
    decreases n
  {
    var u := NextView(h, views, w, fuel);
    if u.Some? {
      MoreTurnsSame(h, views, u.value, path, sep, fuel, n - 1, m - 1);
    }
  }

  // ---------------------------------------------------------------- a view stored over another

  /** After a view was stored over the position of another, get() on that one is get() on the stored view. */
  lemma StoredViewAsked(h: Heap, views: seq<ViewRec>, w: nat, p: seq<Key>, k: Key, v: nat, fuel: nat)
    requires Linked(views) && w < |views| && v < |views| && PathOf(views, w) == p + [k]
    requires ChainInPlace(h, p) && Msg(p) in h
    ensures NextView(Store(h, Msg(p), k, View(v)), views, w, fuel) == Some(v)
  {
    var h' := Store(h, Msg(p), k, View(v));
    StoreKeepsChain(h, p, k, View(v), p);
    WalkChain(h', views, p, fuel);
    WalkSnoc(h', views, Table(Msg([])), p, k, fuel);
  }

  /** `m.a = m.b`: get() on the view of `a` gives what the table at `b` holds. */
  lemma StoredViewFollowed(h: Heap, views: seq<ViewRec>, w: nat, p: seq<Key>, k: Key, v: nat, path: string, sep: string,
                           fuel: nat, n: nat)
    requires Linked(views) && w < |views| && v < |views| && PathOf(views, w) == p + [k] && sep != ""
    requires ChainInPlace(h, p) && Msg(p) in h && n > 0
    requires ChainInPlace(h, PathOf(views, v)) && !(p + [k] <= PathOf(views, v))
    ensures GetRounds(Store(h, Msg(p), k, View(v)), views, w, path, sep, fuel, n)
      == Gives(GetAt(Store(h, Msg(p), k, View(v)), Msg(PathOf(views, v)), path, sep))
  {
    var h' := Store(h, Msg(p), k, View(v));
    StoredViewAsked(h, views, w, p, k, v, fuel);
    StoreKeepsChain(h, p, k, View(v), PathOf(views, v));
    WalkChain(h', views, PathOf(views, v), fuel);
  }

  /** `m.a = m.a`: get() on that view never returns. */
  lemma SelfStoredNeverEnds(h: Heap, views: seq<ViewRec>, w: nat, p: seq<Key>, k: Key, path: string, sep: string,
                            fuel: nat)
    requires Linked(views) && w < |views| && PathOf(views, w) == p + [k] && sep != ""
    requires ChainInPlace(h, p) && Msg(p) in h
    ensures NeverEnds(Store(h, Msg(p), k, View(w)), views, w, path, sep, fuel)
  {
    var h' := Store(h, Msg(p), k, View(w));
    StoredViewAsked(h, views, w, p, k, w, fuel);
    assert After(h', views, w, fuel, 0) == Some(w);
    assert After(h', views, w, fuel, 1) == Some(w);
    assert ComesRound(h', views, w, fuel, 0, 1);
    EndlessIff(h', views, w, path, sep, fuel);
  }

  // ---------------------------------------------------------------- get after set

  /** Storing through a view's own table and asking the view again: what was stored comes back, if the view
      still leads to that table and the path does not come through the slot written. */
  lemma ViewGetAfterSet(h: Heap, views: seq<ViewRec>, next: nat, w: nat, id: TableId, path: string, sep: string, v: Val,
                        fuel: nat, n: nat)
    requires Linked(views) && w < |views| && sep != "" && !IsWhole(path, sep)
    requires Closed(h, next) && id in h && !ComesBack(h, id, KeysAt(path, sep, 0))
    requires Resolve(SetAt(h, next, id, KeysAt(path, sep, 0), v).0, views, w, fuel) == Value(Table(id))
    ensures GetRounds(SetAt(h, next, id, KeysAt(path, sep, 0), v).0, views, w, path, sep, fuel, n) == Gives(Got(v))
  {
    GetAfterSet(h, next, id, KeysAt(path, sep, 0), v);
  }

  /** The tables on the way to `p` are known, each at home at its own position. */
  ghost predicate AtHome(h: Heap, home: map<TableId, seq<Key>>, p: seq<Key>) {
    forall n :: 0 <= n <= |p| ==> Msg(p[..n]) in h && Msg(p[..n]) in home && home[Msg(p[..n])] == p[..n]
  }

  /** set() below the position of a view keeps the links above it. */
  lemma SetBelowKeepsChain(h: Heap, next: nat, home: map<TableId, seq<Key>>, p: seq<Key>, keys: seq<Key>, v: Val)
    requires keys != [] && Closed(h, next) && TreeShaped(h, home) && ChainInPlace(h, p) && AtHome(h, home, p)
    ensures ChainInPlace(SetAt(h, next, Msg(p), keys, v).0, p)
  {
    var h' := SetAt(h, next, Msg(p), keys, v).0;
    assert p[..|p|] == p;
    AttachBelow(h, home, Msg(p), keys);
    forall n | 0 <= n < |p| ensures LinkInPlace(h', p, n) {
      assert LinkInPlace(h, p, n);
      assert home[Msg(p[..n])] == p[..n];
      SetChangesOneSlot(h, next, Msg(p), keys, v, Msg(p[..n]), p[n]);
    }
  }

  lemma {:induction false} PositionsAbove(t: QVar, p: seq<Key>, n: nat)
    requires p in Paths(t) && n <= |p|
    ensures p[..n] in Paths(t)
    decreases |p| - n
  {
    if n == |p| {
      assert p[..n] == p;
    } else {
      PositionsAbove(t, p, n + 1);
      assert p[..n + 1] == p[..n] + [p[n]];
      PathsPrefix(t, p[..n], p[n]);
    }
  }

  lemma MaterializedTree(s: State)
    requires Coherent(s) && !s.materialized
    ensures TreeShaped(Materialized(s).heap, Homes(s.retained))
  {
    MessageTablesAreTree(s.retained);
    MaterializedHolds(s);
    var h, home := Materialized(s).heap, Homes(s.retained);
    forall id, k | id in home && Slot(h, id, k).Table?
      ensures Slot(h, id, k).id in home && home[Slot(h, id, k).id] == home[id] + [k]
    {
      assert Slot(h, id, k) == Slot(Tables(s.retained), id, k);
    }
  }

  lemma MaterializedAtHome(s: State, p: seq<Key>)
    requires Coherent(s) && !s.materialized && p in Paths(s.retained)
    ensures AtHome(Materialized(s).heap, Homes(s.retained), p)
  {
    forall n | 0 <= n <= |p|
      ensures Msg(p[..n]) in Tables(s.retained)
    {
      PositionsAbove(s.retained, p, n);
      TablesContents(s.retained, p[..n]);
    }
  }

  /** get() on a view of a message nobody wrote to before returns what set() on that view stored. */
  lemma FirstSetReadBack(s: State, next: nat, w: nat, path: string, sep: string, v: Val, fuel: nat, n: nat)
    requires Coherent(s) && !s.materialized && w < |s.views| && sep != "" && !IsWhole(path, sep)
    requires Closed(Materialized(s).heap, next)
    ensures
      var h := SetAt(Materialized(s).heap, next, Msg(PathOf(s.views, w)), KeysAt(path, sep, 0), v).0;
      GetRounds(h, s.views, w, path, sep, fuel, n) == Gives(Got(v))
  {
    var h, home, p, keys := Materialized(s).heap, Homes(s.retained), PathOf(s.views, w), KeysAt(path, sep, 0);
    MaterializedTree(s);
    PristineTable(s, w);
    InPlaceChain(h, s.retained, p);
    MaterializedAtHome(s, p);
    assert p[..|p|] == p;
    SetBelowKeepsChain(h, next, home, p, keys, v);
    WalkChain(SetAt(h, next, Msg(p), keys, v).0, s.views, p, fuel);
    TreeGetAfterSet(h, next, home, Msg(p), keys, v);
  }
}
