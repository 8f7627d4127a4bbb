/** get() and set(): following and writing a separated path through Lua tables and through message views. */
module PathAccess {
  import opened Variants
  import opened LuaTables
  import TreePaths

  // ---------------------------------------------------------------- paths

  predicate SepAt(path: string, sep: string, k: nat) {
    k + |sep| <= |path| && path[k..k + |sep|] == sep
  }

  /** The first occurrence of the separator at or after `pos`, or -1. */
  function FindFrom(path: string, sep: string, pos: nat): (i: int)
    requires pos <= |path| && sep != ""
    ensures i == -1 || pos <= i
    ensures i != -1 ==> SepAt(path, sep, i) && forall k :: pos <= k < i ==> !SepAt(path, sep, k)
    ensures i == -1 ==> forall k :: pos <= k ==> !SepAt(path, sep, k)
    decreases |path| - pos
  {
    if pos + |sep| > |path| then -1
    else if path[pos..pos + |sep|] == sep then pos
    else FindFrom(path, sep, pos + 1)
  }

  /** An "[N]" part is an integer key, any other part a string. */
  function PartKey(part: string): Key {
    var n := TreePaths.IndexOfPart(part);
    if n < 0 then Str(part) else Num(n)
  }

  /** The keys of a path from `pos` on. */
  function KeysFrom(path: string, sep: string, pos: nat): (keys: seq<Key>)
    requires pos <= |path| && sep != ""
    ensures keys != []
    decreases |path| - pos
  {
    var end := FindFrom(path, sep, pos);
    if end == -1 then [PartKey(path[pos..])]
    else [PartKey(path[pos..end])] + KeysFrom(path, sep, end + |sep|)
  }

  lemma KeysFromStep(path: string, sep: string, pos: nat)
    requires pos <= |path| && sep != ""
    ensures
      var end := FindFrom(path, sep, pos);
      var keys := KeysFrom(path, sep, pos);
      if end == -1 then keys == [PartKey(path[pos..])]
      else end + |sep| <= |path| && keys == [PartKey(path[pos..end])] + KeysFrom(path, sep, end + |sep|)
  {
  }

  /** Where get() and set() start: behind a separator that leads the path. */
  function Start(path: string, sep: string): (pos: nat)
    requires sep != ""
    ensures pos <= |path|
  {
    if FindFrom(path, sep, 0) == 0 then |sep| else 0
  }

  predicate IsWhole(path: string, sep: string) {
    path == "" || path == sep
  }

  /** The keys that are left at `pos`. */
  function KeysAt(path: string, sep: string, pos: nat): seq<Key>
    requires sep != "" && pos <= |path|
  {
    KeysFrom(path, sep, if pos == 0 then Start(path, sep) else pos)
  }

  /** One part of a path: its key, and where the next part starts (-1 behind the last). A separator that
      leads the path has no part before it. */
  method NextPart(path: string, sep: string, pos: nat) returns (key: Option<Key>, next: int)
    requires sep != "" && pos <= |path|
    ensures next == -1 || pos < next <= |path|
    ensures match key
            case None => next != -1 && KeysAt(path, sep, pos) == KeysAt(path, sep, next)
            case Some(k) =>
              if next == -1 then KeysAt(path, sep, pos) == [k]
              else KeysAt(path, sep, pos) == [k] + KeysAt(path, sep, next)
  {
    var ptr := FindFrom(path, sep, pos);
    if ptr == -1 {
      return Some(PartKey(path[pos..])), -1;
    }
    next := ptr + |sep|;
    key := if ptr == 0 then None else Some(PartKey(path[pos..ptr]));
  }

  // ---------------------------------------------------------------- get

  /** What get() returns; reading below a value that is no table is outside of what Lua defines. */
  datatype Got = Got(v: Val) | Undefined

  function Follow(h: Heap, x: Val, keys: seq<Key>): Got
    requires keys != []
    decreases |keys|
  {
    if !x.Table? then Undefined
    else
      var v := Slot(h, x.id, keys[0]);
      if v.Nil? || |keys| == 1 then Got(v) else Follow(h, v, keys[1..])
  }

  lemma FollowStep(h: Heap, id: TableId, k: Key, keys: seq<Key>)
    requires keys != []
    ensures Follow(h, Table(id), [k] + keys) == var v := Slot(h, id, k); if v.Nil? then Got(v) else Follow(h, v, keys)
  {
    assert ([k] + keys)[1..] == keys;
  }

  function GetAt(h: Heap, id: TableId, path: string, sep: string): Got
    requires sep != ""
  {
    if IsWhole(path, sep) then Got(Table(id)) else Follow(h, Table(id), KeysAt(path, sep, 0))
  }

  method Get(h: Heap, id: TableId, path: string, sep: string) returns (r: Got)
    requires sep != ""
    ensures r == GetAt(h, id, path, sep)
  {
    if |path| == 0 || path == sep {
      return Got(Table(id));
    }
    var cur := Table(id);
    var pos := 0;
    ghost var keys := KeysAt(path, sep, 0);
    while true
      invariant 0 <= pos <= |path| && keys == KeysAt(path, sep, pos)
      invariant Follow(h, cur, keys) == Follow(h, Table(id), KeysAt(path, sep, 0))
      decreases |path| - pos
    {
      var key, next := NextPart(path, sep, pos);
      if key.Some? {
        if !cur.Table? {
          return Undefined;
        }
        var v := Slot(h, cur.id, key.value);
        if v.Nil? || next == -1 {
          return Got(v);
        }
        FollowStep(h, cur.id, key.value, KeysAt(path, sep, next));
        cur := v;
      }
      pos, keys := next, KeysAt(path, sep, next);
    }
  }

  // ---------------------------------------------------------------- set

  /** All tables are known, and names from `next` on are free. */
  ghost predicate Closed(h: Heap, next: nat) {
    && (forall id, k :: id in h && Slot(h, id, k).Table? ==> Slot(h, id, k).id in h)
    && forall id :: id in h && id.User? ==> id.n < next
  }

  /** The tables after making a new one under a key. */
  function Made(h: Heap, next: nat, id: TableId, k: Key): Heap {
    Store(h[User(next) := map[]], id, k, Table(User(next)))
  }

  /** The tables after set(): every part but the last that does not lead to a table gets a new one. */
  function SetAt(h: Heap, next: nat, id: TableId, keys: seq<Key>, v: Val): (Heap, nat)
    requires keys != []
    decreases |keys|
  {
    if |keys| == 1 then (Store(h, id, keys[0], v), next)
    else
      var cur := Slot(h, id, keys[0]);
      if cur.Table? then SetAt(h, next, cur.id, keys[1..], v)
      else
        SetAt(Made(h, next, id, keys[0]), next + 1, User(next), keys[1..], v)
  }

  lemma SetAtStep(h: Heap, next: nat, id: TableId, k: Key, keys: seq<Key>, v: Val)
    requires keys != []
    ensures SetAt(h, next, id, [k] + keys, v) ==
      var cur := Slot(h, id, k);
      if cur.Table? then SetAt(h, next, cur.id, keys, v) else SetAt(Made(h, next, id, k), next + 1, User(next), keys, v)
  {
    assert ([k] + keys)[1..] == keys;
  }

  lemma SetAtLast(h: Heap, next: nat, id: TableId, k: Key, v: Val)
    ensures SetAt(h, next, id, [k], v) == (Store(h, id, k, v), next)
  {
  }

  class LuaState {
    var heap: Heap
    var next: nat

    constructor (heap: Heap, next: nat)
      ensures this.heap == heap && this.next == next
    {
      this.heap, this.next := heap, next;
    }

    method Set(id: TableId, path: string, sep: string, v: Val)
      requires sep != ""
      modifies this
      ensures (heap, next) ==
        if IsWhole(path, sep) then (old(heap), old(next))
        else SetAt(old(heap), old(next), id, KeysAt(path, sep, 0), v)
    {
      if |path| == 0 || path == sep {
        return;
      }
      var cur := id;
      var pos := 0;
      ghost var keys := KeysAt(path, sep, 0);
      ghost var goal := SetAt(heap, next, id, keys, v);
      while true
        invariant 0 <= pos <= |path| && keys == KeysAt(path, sep, pos)
        invariant SetAt(heap, next, cur, keys, v) == goal
        decreases |path| - pos
      {
        var key, next' := NextPart(path, sep, pos);
        if next' == -1 {
          SetAtLast(heap, next, cur, key.value, v);
          heap := Store(heap, cur, key.value, v);
          return;
        }
        if key.Some? {
          cur := Enter(cur, key.value, KeysAt(path, sep, next'), v);
        }
        pos, keys := next', KeysAt(path, sep, next');
      }
    }

    /** The table under a key, which is made if there is none. */
    method Enter(id: TableId, key: Key, ghost keys: seq<Key>, ghost v: Val) returns (sub: TableId)
      requires keys != []
      modifies this
      ensures SetAt(heap, next, sub, keys, v) == SetAt(old(heap), old(next), id, [key] + keys, v)
    {
      SetAtStep(heap, next, id, key, keys, v);
      var cur := Slot(heap, id, key);
      if !cur.Table? {
        cur := Table(User(next));
        heap := Store(heap[User(next) := map[]], id, key, cur);
        next := next + 1;
      }
      sub := cur.id;
    }
  }

  // ---------------------------------------------------------------- the one slot that set() changes

  /** Where set() leaves the tables that are there: the last of them on the path, and the key it stores under. */
  function Attach(h: Heap, id: TableId, keys: seq<Key>): (TableId, Key)
    requires keys != []
    decreases |keys|
  {
    var v := Slot(h, id, keys[0]);
    if |keys| == 1 || !v.Table? then (id, keys[0]) else Attach(h, v.id, keys[1..])
  }

  lemma {:induction false} AttachKnown(h: Heap, next: nat, id: TableId, keys: seq<Key>)
    requires keys != [] && Closed(h, next) && id in h
    ensures Attach(h, id, keys).0 in h
    decreases |keys|
  {
    if |keys| > 1 && Slot(h, id, keys[0]).Table? {
      AttachKnown(h, next, Slot(h, id, keys[0]).id, keys[1..]);
    }
  }

  lemma MadeClosed(h: Heap, next: nat, id: TableId, k: Key)
    requires Closed(h, next) && id in h
    ensures Closed(Made(h, next, id, k), next + 1) && User(next) in Made(h, next, id, k) && User(next) !in h
    ensures Slot(Made(h, next, id, k), id, k) == Table(User(next))
    ensures forall j :: Slot(Made(h, next, id, k), User(next), j) == Nil
    ensures forall i, j :: i in h && (i, j) != (id, k) ==> Slot(Made(h, next, id, k), i, j) == Slot(h, i, j)
  {
    var m := Made(h, next, id, k);
    forall i, j | i in m && Slot(m, i, j).Table? ensures Slot(m, i, j).id in m {
      if i in h && (i, j) != (id, k) {
        assert Slot(m, i, j) == Slot(h, i, j);
      }
    }
  }

  /** Of the tables that were there, set() changes one slot. */
  lemma {:induction false} SetChangesOneSlot(h: Heap, next: nat, id: TableId, keys: seq<Key>, v: Val,
                                             i: TableId, k: Key)
    requires keys != [] && Closed(h, next) && id in h && i in h && (i, k) != Attach(h, id, keys)
    ensures Slot(SetAt(h, next, id, keys, v).0, i, k) == Slot(h, i, k)
    decreases |keys|
  {
    if |keys| > 1 {
      var cur := Slot(h, id, keys[0]);
      if cur.Table? {
        SetChangesOneSlot(h, next, cur.id, keys[1..], v, i, k);
      } else {
        var made := Made(h, next, id, keys[0]);
        MadeClosed(h, next, id, keys[0]);
        assert Attach(made, User(next), keys[1..]) == (User(next), keys[1]);
        SetChangesOneSlot(made, next + 1, User(next), keys[1..], v, i, k);
      }
    }
  }

  // ---------------------------------------------------------------- get after set

  /** Following the path reads the slot, and then goes on. */
  ghost predicate ReadsOnTheWay(h: Heap, id: TableId, keys: seq<Key>, slot: (TableId, Key))
    requires keys != []
    decreases |keys|
  {
    var v := Slot(h, id, keys[0]);
    |keys| > 1 && v.Table? && ((id, keys[0]) == slot || ReadsOnTheWay(h, v.id, keys[1..], slot))
  }

  /** The path comes through the slot that set() stores into before it gets there. */
  ghost predicate ComesBack(h: Heap, id: TableId, keys: seq<Key>)
    requires keys != []
  {
    ReadsOnTheWay(h, id, keys, Attach(h, id, keys))
  }

  lemma {:induction false} GetAfterSet(h: Heap, next: nat, id: TableId, keys: seq<Key>, v: Val)
    requires keys != [] && Closed(h, next) && id in h && !ComesBack(h, id, keys)
    ensures Follow(SetAt(h, next, id, keys, v).0, Table(id), keys) == Got(v)
    decreases |keys|
  {
    if |keys| > 1 {
      var cur := Slot(h, id, keys[0]);
      if cur.Table? {
        GetAfterSet(h, next, cur.id, keys[1..], v);
        SetChangesOneSlot(h, next, cur.id, keys[1..], v, id, keys[0]);
      } else {
        var made := Made(h, next, id, keys[0]);
        MadeClosed(h, next, id, keys[0]);
        assert Attach(made, User(next), keys[1..]) == (User(next), keys[1]);
        GetAfterSet(made, next + 1, User(next), keys[1..], v);
        SetChangesOneSlot(made, next + 1, User(next), keys[1..], v, id, keys[0]);
      }
    }
  }

  lemma {:induction false} ReadSlotIsTable(h: Heap, id: TableId, keys: seq<Key>, slot: (TableId, Key))
    requires keys != [] && ReadsOnTheWay(h, id, keys, slot)
    ensures Slot(h, slot.0, slot.1).Table?
    decreases |keys|
  {
    if (id, keys[0]) != slot {
      ReadSlotIsTable(h, Slot(h, id, keys[0]).id, keys[1..], slot);
    }
  }

  lemma {:induction false} SetAtTableSlot(h: Heap, next: nat, id: TableId, keys: seq<Key>, v: Val)
    requires keys != []
    requires var slot := Attach(h, id, keys); Slot(h, slot.0, slot.1).Table?
    ensures var slot := Attach(h, id, keys); SetAt(h, next, id, keys, v).0 == Store(h, slot.0, slot.1, v)
    decreases |keys|
  {
    if |keys| > 1 {
      SetAtTableSlot(h, next, Slot(h, id, keys[0]).id, keys[1..], v);
    }
  }

  lemma {:induction false} ReadAfterStore(h: Heap, id: TableId, keys: seq<Key>, slot: (TableId, Key), x: Scalar)
    requires keys != [] && slot.0 in h && ReadsOnTheWay(h, id, keys, slot)
    ensures Follow(Store(h, slot.0, slot.1, Prim(x)), Table(id), keys) == Undefined
    decreases |keys|
  {
    if (id, keys[0]) != slot {
      ReadAfterStore(h, Slot(h, id, keys[0]).id, keys[1..], slot, x);
    }
  }

  ghost predicate ReadsBack(h: Heap, next: nat, id: TableId, keys: seq<Key>, v: Val)
    requires keys != []
  {
    Follow(SetAt(h, next, id, keys, v).0, Table(id), keys) == Got(v)
  }

  /** get() returns what set() stored, whatever it is, exactly when the path does not come through the slot
      it stores into. */
  lemma GetAfterSetIff(h: Heap, next: nat, id: TableId, keys: seq<Key>)
    requires keys != [] && Closed(h, next) && id in h
    ensures (forall v :: ReadsBack(h, next, id, keys, v)) <==> !ComesBack(h, id, keys)
  {
    if ComesBack(h, id, keys) {
      var slot, x := Attach(h, id, keys), Plain(0);
      AttachKnown(h, next, id, keys);
      ReadSlotIsTable(h, id, keys, slot);
      SetAtTableSlot(h, next, id, keys, Prim(x));
      ReadAfterStore(h, id, keys, slot, x);
      assert !ReadsBack(h, next, id, keys, Prim(x));
    } else {
      forall v ensures ReadsBack(h, next, id, keys, v) {
        GetAfterSet(h, next, id, keys, v);
      }
    }
  }

  // ---------------------------------------------------------------- other paths

  /** Tables that form a tree: `home` says by which keys each of them is reached, so no table is reached
      by two paths. The tables made of a message are such a tree. */
  ghost predicate TreeShaped(h: Heap, home: map<TableId, seq<Key>>) {
    forall id, k :: id in home && Slot(h, id, k).Table? ==>
      Slot(h, id, k).id in home && home[Slot(h, id, k).id] == home[id] + [k]
  }

  lemma {:induction false} AttachBelow(h: Heap, home: map<TableId, seq<Key>>, id: TableId, keys: seq<Key>)
    requires keys != [] && TreeShaped(h, home) && id in home
    ensures
      var slot := Attach(h, id, keys);
      slot.0 in home && home[id] <= home[slot.0] && (home[slot.0] == home[id] || home[id] + [keys[0]] <= home[slot.0])
    ensures |home[Attach(h, id, keys).0]| == |home[id]| ==> Attach(h, id, keys) == (id, keys[0])
    decreases |keys|
  {
    if |keys| > 1 && Slot(h, id, keys[0]).Table? {
      AttachBelow(h, home, Slot(h, id, keys[0]).id, keys[1..]);
    }
  }

  lemma {:induction false} TreeReadsAbove(h: Heap, home: map<TableId, seq<Key>>, id: TableId, keys: seq<Key>,
                                          slot: (TableId, Key))
    requires keys != [] && TreeShaped(h, home) && id in home && ReadsOnTheWay(h, id, keys, slot)
    ensures slot.0 in home && Attach(h, id, keys).0 in home
    ensures |home[slot.0]| < |home[Attach(h, id, keys).0]|
    decreases |keys|
  {
    var y := Slot(h, id, keys[0]).id;
    AttachBelow(h, home, y, keys[1..]);
    if (id, keys[0]) != slot {
      TreeReadsAbove(h, home, y, keys[1..], slot);
    }
  }

  /** In a tree of tables get() always returns what set() stored. */
  lemma TreeGetAfterSet(h: Heap, next: nat, home: map<TableId, seq<Key>>, id: TableId, keys: seq<Key>, v: Val)
    requires keys != [] && Closed(h, next) && id in h && TreeShaped(h, home) && id in home
    ensures Follow(SetAt(h, next, id, keys, v).0, Table(id), keys) == Got(v)
  {
    if ComesBack(h, id, keys) {
      TreeReadsAbove(h, home, id, keys, Attach(h, id, keys));
    }
    GetAfterSet(h, next, id, keys, v);
  }

  predicate Diverge(p: seq<Key>, q: seq<Key>) {
    p != [] && q != [] && (p[0] != q[0] || Diverge(p[1..], q[1..]))
  }

  /** Following a path in a subtree that set() does not reach. */
  lemma {:induction false} FollowElsewhere(h: Heap, next: nat, home: map<TableId, seq<Key>>, id: TableId,
                                           keys: seq<Key>, v: Val, y: TableId, q: seq<Key>)
    requires keys != [] && q != [] && Closed(h, next) && TreeShaped(h, home) && id in h && y in h && y in home
    requires
      var slot := Attach(h, id, keys);
      slot.0 in home && !(home[y] <= home[slot.0])
    ensures Follow(SetAt(h, next, id, keys, v).0, Table(y), q) == Follow(h, Table(y), q)
    decreases |q|
  {
    SetChangesOneSlot(h, next, id, keys, v, y, q[0]);
    var z := Slot(h, y, q[0]);
    if z.Table? && |q| > 1 {
      FollowElsewhere(h, next, home, id, keys, v, z.id, q[1..]);
    }
  }

  /** A path that parts from the one written is read as before, wherever reading it was defined. */
  lemma {:induction false} DivergingPathKept(h: Heap, next: nat, home: map<TableId, seq<Key>>, id: TableId,
                                             p: seq<Key>, q: seq<Key>, v: Val)
    requires Closed(h, next) && TreeShaped(h, home) && id in h && id in home && Diverge(p, q)
    ensures Follow(h, Table(id), q) == Undefined
         || Follow(SetAt(h, next, id, p, v).0, Table(id), q) == Follow(h, Table(id), q)
    decreases |p|
  {
    AttachBelow(h, home, id, p);
    if p[0] != q[0] {
      PartsHere(h, next, home, id, p, q, v);
    } else {
      var cur := Slot(h, id, p[0]);
      if cur.Table? {
        DivergingPathKept(h, next, home, cur.id, p[1..], q[1..], v);
        AttachBelow(h, home, cur.id, p[1..]);
        SetChangesOneSlot(h, next, id, p, v, id, p[0]);
      } else if cur.Nil? {
        PartsInNewTable(h, next, home, id, p, q, v);
      }
    }
  }

  lemma PartsHere(h: Heap, next: nat, home: map<TableId, seq<Key>>, id: TableId, p: seq<Key>, q: seq<Key>, v: Val)
    requires Closed(h, next) && TreeShaped(h, home) && id in h && id in home
    requires p != [] && q != [] && p[0] != q[0]
    ensures Follow(SetAt(h, next, id, p, v).0, Table(id), q) == Follow(h, Table(id), q)
  {
    AttachBelow(h, home, id, p);
    SetChangesOneSlot(h, next, id, p, v, id, q[0]);
    var z := Slot(h, id, q[0]);
    if z.Table? && |q| > 1 {
      var at := home[Attach(h, id, p).0];
      assert home[z.id] == home[id] + [q[0]];
      assert home[z.id][|home[id]|] == q[0];
      assert |at| > |home[id]| ==> at[|home[id]|] == p[0];
      FollowElsewhere(h, next, home, id, p, v, z.id, q[1..]);
    }
  }

  lemma PartsInNewTable(h: Heap, next: nat, home: map<TableId, seq<Key>>, id: TableId, p: seq<Key>, q: seq<Key>, v: Val)
    requires Closed(h, next) && TreeShaped(h, home) && id in h && id in home
    requires |p| > 1 && Diverge(p, q) && p[0] == q[0] && Slot(h, id, p[0]).Nil?
    ensures Follow(SetAt(h, next, id, p, v).0, Table(id), q) == Got(Nil) == Follow(h, Table(id), q)
    decreases |p|, 0
  {
    var made := Made(h, next, id, p[0]);
    MadeClosed(h, next, id, p[0]);
    NewTableMisses(made, next + 1, User(next), p[1..], q[1..], v);
    assert Attach(made, User(next), p[1..]) == (User(next), p[1]);
    SetChangesOneSlot(made, next + 1, User(next), p[1..], v, id, p[0]);
  }

  /** Below a table that was just made there is nothing but the path written. */
  lemma {:induction false} NewTableMisses(h: Heap, next: nat, id: TableId, p: seq<Key>, q: seq<Key>, v: Val)
    requires Closed(h, next) && id in h && Diverge(p, q) && forall k :: Slot(h, id, k) == Nil
    ensures Follow(SetAt(h, next, id, p, v).0, Table(id), q) == Got(Nil)
    decreases |p|
  {
    assert Attach(h, id, p) == (id, p[0]);
    if p[0] != q[0] {
      SetChangesOneSlot(h, next, id, p, v, id, q[0]);
    } else {
      var made := Made(h, next, id, p[0]);
      MadeClosed(h, next, id, p[0]);
      NewTableMisses(made, next + 1, User(next), p[1..], q[1..], v);
      assert Attach(made, User(next), p[1..]) == (User(next), p[1]);
      SetChangesOneSlot(made, next + 1, User(next), p[1..], v, id, p[0]);
    }
  }
}
