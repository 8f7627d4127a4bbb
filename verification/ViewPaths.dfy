/** get() with a path on a message view, and how it agrees with get() on the message's table. */
module ViewPaths {
  import opened Variants
  import opened LuaTables
  import opened LazyViews
  import opened LazyRefinement
  import opened PathAccess

  /** The keys GetPath follows on a message nobody wrote to: unlike get() on a table it does not skip a
      separator that leads the path. */
  function ViewKeys(path: string, sep: string): seq<Key>
    requires sep != ""
  {
    if IsWhole(path, sep) then [] else KeysFrom(path, sep, 0)
  }

  /** What the keys lead to in a retained subtree, as Lua sees it: a view of the position, or a scalar. */
  ghost predicate Leads(views: seq<ViewRec>, base: seq<Key>, t: QVar, keys: seq<Key>, r: Val)
    requires Linked(views)
  {
    match Subtree(t, keys)
    case None => r == Nil
    case Some(c) =>
      if IsContainer(c) then
        r.View? && r.v < |views| && views[r.v].value == c && PathOf(views, r.v) == base + keys
      else r == Lift(c, [])
  }

  /** Following keys over views of a message nobody wrote to: each container on the way becomes a view. */
  ghost function SeekViews(s: State, w: nat, keys: seq<Key>): (State, Val)
    requires Linked(s.views) && w < |s.views|
    decreases |keys|
  {
    if keys == [] then (s, View(w))
    else match Child(s.views[w].value, keys[0])
      case None => (s, Nil)
      case Some(c) =>
        if IsContainer(c) then SeekViews(s.(views := s.views + [Below(w, keys[0], c)]), |s.views|, keys[1..])
        else (s, if |keys| == 1 then Lift(c, []) else Nil)
  }

  /** Following them only adds views, and gives what they lead to in the retained subtree. */
  lemma {:induction false} SeekLeads(s: State, w: nat, keys: seq<Key>)
    requires Coherent(s) && !s.materialized && w < |s.views|
    ensures
      var (s', r) := SeekViews(s, w, keys);
      && Coherent(s') && s.views <= s'.views && s' == s.(views := s'.views)
      && Leads(s'.views, PathOf(s.views, w), s.views[w].value, keys, r)
    decreases |keys|
  {
    if keys == [] {
      ViewIsContainer(s, w);
      assert PathOf(s.views, w) + [] == PathOf(s.views, w);
    } else {
      var k, t := keys[0], s.views[w].value;
      assert keys == [k] + keys[1..];
      ChildMissing(t, k, keys[1..]);
      if Child(t, k).Some? && IsContainer(Child(t, k).value) {
        SeekBelow(s, w, k, Child(t, k).value);
        var s1 := s.(views := s.views + [Below(w, k, Child(t, k).value)]);
        SeekLeads(s1, |s.views|, keys[1..]);
        LeadsOn(SeekViews(s, w, keys).0.views, PathOf(s.views, w), t, k, keys[1..], SeekViews(s, w, keys).1);
      } else if |keys| == 1 {
        SubtreeOne(t, k);
      }
    }
  }

  lemma SeekBelow(s: State, w: nat, k: Key, c: QVar)
    requires Coherent(s) && !s.materialized && w < |s.views|
    requires Child(s.views[w].value, k) == Some(c) && IsContainer(c)
    ensures
      var s1 := s.(views := s.views + [Below(w, k, c)]);
      Coherent(s1) && PathOf(s1.views, |s.views|) == PathOf(s.views, w) + [k]
  {
    ChildViewCoherent(s, w, k);
    PathOfGrows(s.views, Below(w, k, c), w);
  }

  lemma LeadsOn(views: seq<ViewRec>, base: seq<Key>, t: QVar, k: Key, rest: seq<Key>, r: Val)
    requires Linked(views) && Child(t, k).Some? && Leads(views, base + [k], Child(t, k).value, rest, r)
    ensures Leads(views, base, t, [k] + rest, r)
  {
    assert ([k] + rest)[1..] == rest;
    assert base + [k] + rest == base + ([k] + rest);
  }

  lemma ChildMissing(t: QVar, k: Key, rest: seq<Key>)
    ensures Child(t, k).None? ==> Subtree(t, [k] + rest).None?
    ensures Child(t, k).Some? && !IsContainer(Child(t, k).value) && rest != [] ==> Subtree(t, [k] + rest).None?
  {
    assert ([k] + rest)[1..] == rest;
  }

  /** One part of the path; -1 behind the last. */
  method NextViewPart(path: string, sep: string, pos: nat) returns (key: Key, next: int)
    requires sep != "" && pos <= |path|
    ensures next == -1 || pos < next <= |path|
    ensures next == -1 ==> KeysFrom(path, sep, pos) == [key]
    ensures next != -1 ==> KeysFrom(path, sep, pos) == [key] + KeysFrom(path, sep, next)
  {
    var end := FindFrom(path, sep, pos);
    KeysFromStep(path, sep, pos);
    if end == -1 {
      return PartKey(path[pos..]), -1;
    }
    return PartKey(path[pos..end]), end + |sep|;
  }

  /** What get() on a view gives. `Endless`: GetPath and Get call each other on views without end. */
  datatype PathResult = Raises | Gives(got: Got) | Endless

  /** get() on a view of a message that is tables: a view that another view leads to is asked in its turn.
      After `rounds` such turns the answer is still open. */
  ghost function GetRounds(h: Heap, views: seq<ViewRec>, w: nat, path: string, sep: string, fuel: nat, rounds: nat)
    : PathResult
    requires Linked(views) && w < |views| && sep != ""
    decreases rounds
  {
    match Resolve(h, views, w, fuel)
    case Value(Table(id)) => Gives(GetAt(h, id, path, sep))
    case Value(View(u)) =>
      if u >= |views| then Raises
      else if rounds == 0 then Endless
      else GetRounds(h, views, u, path, sep, fuel, rounds - 1)
    case _ => Raises
  }

  /** The calls of a message that is tables are followed for as many turns as there are views: whatever is
      open then stays open. */
  method GetPath(m: Message, w: nat, path: string, sep: string, fuel: nat) returns (r: PathResult)
    requires sep != "" && Coherent(m.Now()) && w < |m.views|
    modifies m`views
    ensures Coherent(m.Now()) && old(m.views) <= m.views
    ensures m.materialized ==> m.views == old(m.views)
    ensures m.materialized ==> r == GetRounds(m.heap, m.views, w, path, sep, fuel, |m.views|)
    ensures !m.materialized ==> r.Gives? && r.got.Got?
    ensures !m.materialized ==> (m.Now(), r.got.v) == SeekViews(old(m.Now()), w, ViewKeys(path, sep))
    ensures !m.materialized ==>
      Leads(m.views, old(PathOf(m.views, w)), old(m.views[w].value), ViewKeys(path, sep), r.got.v)
  {
    if m.materialized {
      r := GetPathTurns(m, w, path, sep, fuel, |m.views|);
      return;
    }
    var v := GetPathPristine(m, w, path, sep);
    r := Gives(Got(v));
  }

  /** GetPath on a message that is tables, and Get on what the view leads to. */
  method GetPathTurns(m: Message, w: nat, path: string, sep: string, fuel: nat, turns: nat) returns (r: PathResult)
    requires sep != "" && Coherent(m.Now()) && m.materialized && w < |m.views|
    ensures r == GetRounds(m.heap, m.views, w, path, sep, fuel, turns)
    decreases turns
  {
    var x := m.PushResolved(w, fuel);
    match x {
      case Value(Table(id)) =>
        var got := Get(m.heap, id, path, sep);
        r := Gives(got);
      case Value(View(u)) =>
        if u >= |m.views| {
          return Raises;
        }
        if turns == 0 {
          return Endless;
        }
        r := GetPathTurns(m, u, path, sep, fuel, turns - 1);
      case _ =>
        r := Raises;
    }
  }

  /** GetPath on a message nobody wrote to. */
  method GetPathPristine(m: Message, w: nat, path: string, sep: string) returns (r: Val)
    requires sep != "" && Coherent(m.Now()) && !m.materialized && w < |m.views|
    modifies m`views
    ensures (m.Now(), r) == SeekViews(old(m.Now()), w, ViewKeys(path, sep))
    ensures Coherent(m.Now()) && old(m.views) <= m.views
    ensures Leads(m.views, old(PathOf(m.views, w)), old(m.views[w].value), ViewKeys(path, sep), r)
  {
    SeekLeads(m.Now(), w, ViewKeys(path, sep));
    if |path| == 0 || path == sep {
      return View(w);
    }
    r := FollowParts(m, w, path, sep);
  }

  /** One part of the path. */
  method FollowPart(m: Message, cur: nat, key: Key, ghost rest: seq<Key>) returns (child: Val)
    requires Coherent(m.Now()) && !m.materialized && cur < |m.views|
    modifies m`views
    ensures Coherent(m.Now())
    ensures
      var goal := SeekViews(old(m.Now()), cur, [key] + rest);
      if child.View? then child.v < |m.views| && goal == SeekViews(m.Now(), child.v, rest)
      else goal == (m.Now(), if rest == [] then child else Nil)
  {
    SeekStep(m.Now(), cur, key, rest);
    child := m.PushChild(cur, key);
  }

  /** The loop over the parts of the path. */
  method FollowParts(m: Message, w: nat, path: string, sep: string) returns (r: Val)
    requires sep != "" && Coherent(m.Now()) && !m.materialized && w < |m.views|
    modifies m`views
    ensures (m.Now(), r) == SeekViews(old(m.Now()), w, KeysFrom(path, sep, 0))
  {
    var cur: nat := w;
    var pos := 0;
    ghost var goal := SeekViews(m.Now(), w, KeysFrom(path, sep, 0));
    while true
      invariant 0 <= pos <= |path| && Coherent(m.Now()) && !m.materialized
      invariant cur < |m.views| && SeekViews(m.Now(), cur, KeysFrom(path, sep, pos)) == goal
      decreases |path| - pos
    {
      var key, next := NextViewPart(path, sep, pos);
      assert [key] + [] == [key];
      var child := FollowPart(m, cur, key, if next == -1 then [] else KeysFrom(path, sep, next));
      if next == -1 {
        return child;
      }
      if !child.View? {
        return Nil;
      }
      cur, pos := child.v, next;
    }
  }

  lemma SeekStep(s: State, w: nat, k: Key, rest: seq<Key>)
    requires Linked(s.views) && w < |s.views|
    ensures SeekViews(s, w, [k] + rest) ==
      match Child(s.views[w].value, k)
      case None => (s, Nil)
      case Some(c) =>
        if IsContainer(c) then SeekViews(s.(views := s.views + [Below(w, k, c)]), |s.views|, rest)
        else (s, if rest == [] then Lift(c, []) else Nil)
  {
    assert ([k] + rest)[1..] == rest;
  }

  lemma ViewIsContainer(s: State, w: nat)
    requires Coherent(s) && w < |s.views|
    ensures IsContainer(s.views[w].value)
  {
    if w > 0 {
      assert IsChildView(s.views, w);
    }
  }

  lemma SubtreeOne(t: QVar, k: Key)
    ensures Subtree(t, [k]) == Child(t, k)
  {
    assert [k][1..] == [];
  }

  // ---------------------------------------------------------------- agreement with the table

  /** The keys go through a scalar before they end. */
  ghost predicate ScalarMidway(t: QVar, keys: seq<Key>)
    decreases |keys|
  {
    && |keys| > 1 && Child(t, keys[0]).Some?
    && (Child(t, keys[0]).value.Leaf? || ScalarMidway(Child(t, keys[0]).value, keys[1..]))
  }

  /** What get() finds in a table made of the tree `t` at `p`. */
  ghost function Expected(p: seq<Key>, t: QVar, keys: seq<Key>): Got {
    if ScalarMidway(t, keys) then Undefined
    else Got(match Subtree(t, keys) case None => Nil case Some(c) => Lift(c, p + keys))
  }

  /** get() on the table of a message finds what the keys select in its tree; below a scalar it is undefined. */
  lemma {:induction false} TableFollowsTree(whole: QVar, h: Heap, p: seq<Key>, t: QVar, keys: seq<Key>)
    requires keys != [] && p in Paths(whole) && Subtree(whole, p) == Some(t)
    requires forall id :: id in Tables(whole) ==> id in h && h[id] == Tables(whole)[id]
    ensures Follow(h, Table(Msg(p)), keys) == Expected(p, t, keys)
    decreases |keys|
  {
    TablesContents(whole, p);
    SlotOfTree(h, whole, p, t, keys[0]);
    if |keys| == 1 {
      LastKey(h, p, t, keys);
    } else if Child(t, keys[0]).Some? && IsContainer(Child(t, keys[0]).value) {
      SubtreeSnoc(whole, p, keys[0]);
      PathsAreContainers(whole, p + [keys[0]]);
      TableFollowsTree(whole, h, p + [keys[0]], Child(t, keys[0]).value, keys[1..]);
      GoesBelow(h, p, t, keys);
    } else {
      EndsBelow(h, p, t, keys);
    }
  }

  lemma LastKey(h: Heap, p: seq<Key>, t: QVar, keys: seq<Key>)
    requires |keys| == 1
    requires Slot(h, Msg(p), keys[0])
      == if Child(t, keys[0]).Some? then Lift(Child(t, keys[0]).value, p + [keys[0]]) else Nil
    ensures Follow(h, Table(Msg(p)), keys) == Expected(p, t, keys)
  {
    assert keys == [keys[0]];
    SubtreeOne(t, keys[0]);
  }

  lemma GoesBelow(h: Heap, p: seq<Key>, t: QVar, keys: seq<Key>)
    requires |keys| > 1 && Child(t, keys[0]).Some? && IsContainer(Child(t, keys[0]).value)
    requires Slot(h, Msg(p), keys[0]) == Table(Msg(p + [keys[0]]))
    requires Follow(h, Table(Msg(p + [keys[0]])), keys[1..])
      == Expected(p + [keys[0]], Child(t, keys[0]).value, keys[1..])
    ensures Follow(h, Table(Msg(p)), keys) == Expected(p, t, keys)
  {
    assert p + [keys[0]] + keys[1..] == p + keys;
  }

  lemma EndsBelow(h: Heap, p: seq<Key>, t: QVar, keys: seq<Key>)
    requires |keys| > 1 && (Child(t, keys[0]).Some? ==> !IsContainer(Child(t, keys[0]).value))
    requires Slot(h, Msg(p), keys[0])
      == if Child(t, keys[0]).Some? then Lift(Child(t, keys[0]).value, p + [keys[0]]) else Nil
    ensures Follow(h, Table(Msg(p)), keys) == Expected(p, t, keys)
  {
    assert keys == [keys[0]] + keys[1..];
    ChildMissing(t, keys[0], keys[1..]);
    if Child(t, keys[0]).Some? && Child(t, keys[0]).value.Null? {
      assert !ScalarMidway(Null, keys[1..]);
    }
  }

  lemma SlotOfTree(h: Heap, whole: QVar, p: seq<Key>, t: QVar, k: Key)
    requires Msg(p) in h && h[Msg(p)] == SlotsOf(t, p)
    ensures Slot(h, Msg(p), k) == if Child(t, k).Some? then Lift(Child(t, k).value, p + [k]) else Nil
  {
  }

  /** The value a table stands for where a view stands for the same position. */
  ghost predicate SamePlace(s: State, r: Val, x: Val)
    requires Linked(s.views)
  {
    if r.View? then r.v < |s.views| && x == Table(Msg(PathOf(s.views, r.v))) else r == x
  }

  /** On a message nobody wrote to, get() on a view gives what its keys lead to in the table the view stands
      for once the message is a table. Where the path goes through a scalar, following the table is undefined
      and the view gives nil. */
  lemma GetPathFollows(s: State, w: nat, path: string, sep: string, after: State, r: Val)
    requires Coherent(s) && !s.materialized && w < |s.views| && sep != "" && !IsWhole(path, sep)
    requires Coherent(after) && after.retained == s.retained
    requires Leads(after.views, PathOf(s.views, w), s.views[w].value, ViewKeys(path, sep), r)
    ensures
      var x := Follow(Materialized(s).heap, Table(Msg(PathOf(s.views, w))), ViewKeys(path, sep));
      if ScalarMidway(s.views[w].value, ViewKeys(path, sep)) then x == Undefined && r == Nil
      else x.Got? && SamePlace(after, r, x.v)
  {
    var p, t, keys := PathOf(s.views, w), s.views[w].value, ViewKeys(path, sep);
    ViewHoldsItsSubtree(s, w);
    MaterializedHolds(s);
    TableFollowsTree(s.retained, Materialized(s).heap, p, t, keys);
    if ScalarMidway(t, keys) {
      ScalarStops(t, keys);
    } else {
      LeadsSamePlace(after, p, t, keys, r);
    }
  }

  /** As long as the path does not start with the separator, that is what get() gives on the table. */
  lemma GetPathAgrees(s: State, w: nat, path: string, sep: string, after: State, r: Val)
    requires Coherent(s) && !s.materialized && w < |s.views| && sep != "" && !IsWhole(path, sep)
    requires Coherent(after) && after.retained == s.retained
    requires Leads(after.views, PathOf(s.views, w), s.views[w].value, ViewKeys(path, sep), r)
    requires FindFrom(path, sep, 0) != 0
    ensures
      var x := GetAt(Materialized(s).heap, Msg(PathOf(s.views, w)), path, sep);
      if ScalarMidway(s.views[w].value, ViewKeys(path, sep)) then x == Undefined && r == Nil
      else x.Got? && SamePlace(after, r, x.v)
  {
    GetPathFollows(s, w, path, sep, after, r);
    SameKeysIff(path, sep);
  }

  lemma LeadsSamePlace(s: State, base: seq<Key>, t: QVar, keys: seq<Key>, r: Val)
    requires Linked(s.views) && Leads(s.views, base, t, keys, r)
    ensures SamePlace(s, r, match Subtree(t, keys) case None => Nil case Some(c) => Lift(c, base + keys))
  {
  }

  lemma MaterializedHolds(s: State)
    requires Coherent(s) && !s.materialized
    ensures forall id :: id in Tables(s.retained) ==>
      id in Materialized(s).heap && Materialized(s).heap[id] == Tables(s.retained)[id]
  {
  }

  lemma {:induction false} ScalarStops(t: QVar, keys: seq<Key>)
    requires ScalarMidway(t, keys)
    ensures Subtree(t, keys).None?
    decreases |keys|
  {
    var c := Child(t, keys[0]).value;
    if c.Leaf? {
      ChildMissing(t, keys[0], keys[1..]);
      assert keys == [keys[0]] + keys[1..];
    } else {
      ScalarStops(c, keys[1..]);
    }
  }

  /** The two follow the same keys exactly when the path does not start with the separator. */
  lemma SameKeysIff(path: string, sep: string)
    requires sep != "" && !IsWhole(path, sep)
    ensures ViewKeys(path, sep) == KeysAt(path, sep, 0) <==> FindFrom(path, sep, 0) != 0
  {
    if FindFrom(path, sep, 0) == 0 {
      assert KeysFrom(path, sep, 0) == [PartKey(path[0..0])] + KeysFrom(path, sep, |sep|);
    }
  }

  /** With a leading separator a view and its table give different answers: ":a" on {"a": x}. */
  lemma LeadingSeparatorDiffers(x: Scalar)
    ensures
      var t := Map(map["a" := Leaf(x)]);
      && Follow(Tables(t), Table(Msg([])), KeysAt(":a", ":", 0)) == Got(Prim(x))
      && Subtree(t, ViewKeys(":a", ":")) == None
  {
    var t := Map(map["a" := Leaf(x)]);
    assert FindFrom(":a", ":", 0) == 0;
    assert KeysFrom(":a", ":", 1) == [PartKey("a")] by {
      assert ":a"[1..] == "a" && ":a"[1..2][0] == 'a';
    }
    assert KeysFrom(":a", ":", 0) == [PartKey("")] + [PartKey("a")] by {
      assert ":a"[0..0] == "";
    }
    assert Child(t, Str("")) == None;
    ChildMissing(t, Str(""), [PartKey("a")]);
    PathsAreContainers(t, []);
    TableFollowsTree(t, Tables(t), [], t, [Str("a")]);
    assert Subtree(t, [Str("a")]) == Some(Leaf(x));
  }

  /** Where the tables of a message are. */
  ghost function Homes(t: QVar): map<TableId, seq<Key>> {
    map id | id in Tables(t) && id.Msg? :: id.path
  }

  /** The tables of a message form a tree, so there get() always returns what set() stored and set() leaves
      other paths alone. */
  lemma MessageTablesAreTree(t: QVar)
    ensures TreeShaped(Tables(t), Homes(t))
  {
    var h := Tables(t);
    var home := Homes(t);
    forall id, k | id in home && Slot(h, id, k).Table?
      ensures Slot(h, id, k).id in home && home[Slot(h, id, k).id] == home[id] + [k]
    {
      TablesDomain(t, id);
      TablesContents(t, id.path);
      PathsAreContainers(t, id.path);
      SlotOfTree(h, t, id.path, Subtree(t, id.path).value, k);
      SubtreeSnoc(t, id.path, k);
      PathsAreContainers(t, id.path + [k]);
      TablesDomain(t, Msg(id.path + [k]));
    }
  }
}
