/**
 Lazy message views: a message stays one retained tree plus views that know their parent and key,
 until the first write through any view turns all of it into Lua tables.
 */
module LazyViews {
  import opened Variants
  import opened KeyOrder
  import opened LuaTables

  datatype State = State(retained: QVar, views: seq<ViewRec>, materialized: bool, heap: Heap)

  /** Link chains are acyclic and end at the root, and every view holds the retained subtree that
      its key selects in its parent. The tables of the message exist only once it is materialized. */
  ghost predicate Coherent(s: State) {
    && IsContainer(s.retained)
    && |s.views| > 0 && s.views[0] == Root(s.retained)
    && Linked(s.views)
    && (forall v :: 0 < v < |s.views| ==> IsChildView(s.views, v))
    && (if s.materialized
        then forall id :: id in Ids(s.retained, []) ==> id in s.heap
        else forall id :: id in s.heap ==> id.User?)
  }

  ghost predicate IsChildView(views: seq<ViewRec>, v: nat)
    requires v < |views| && Linked(views)
  {
    && views[v].Below? && IsContainer(views[v].value)
    && Child(views[views[v].parent].value, views[v].key) == Some(views[v].value)
  }

  /** The heap of the plain Lua program: the one in which the message was a table from the start. */
  ghost function Eager(s: State): Heap {
    if s.materialized then s.heap else s.heap + Tables(s.retained)
  }

  ghost function Materialized(s: State): State {
    if s.materialized then s else s.(materialized := true, heap := s.heap + Tables(s.retained))
  }

  function WithChildView(s: State, w: nat, k: Key, c: QVar): (State, Val) {
    if IsContainer(c)
    then (s.(views := s.views + [Below(w, k, c)]), View(|s.views|))
    else (s, Lift(c, []))
  }

  ghost function IndexView(s: State, w: nat, k: Key, fuel: nat): (State, Outcome)
    requires Linked(s.views) && w < |s.views|
  {
    if k == MATERIALIZE then (s, Value(Method))
    else if s.materialized then (s, GetTable(s.heap, s.views, View(w), k, fuel))
    else match Child(s.views[w].value, k)
      case None => (s, Value(Nil))
      case Some(c) => var (s', v) := WithChildView(s, w, k, c); (s', Value(v))
  }

  ghost function AssignView(s: State, w: nat, k: Key, v: Val, fuel: nat): (State, Outcome)
    requires Linked(s.views) && w < |s.views|
  {
    var m := Materialized(s);
    match SetTable(m.heap, m.views, View(w), k, v, fuel)
    case None => (m, Raised)
    case Some(h) => (m.(heap := h), Value(Nil))
  }

  ghost function WholeView(s: State, w: nat, fuel: nat): (State, Outcome)
    requires Linked(s.views) && w < |s.views|
  {
    var m := Materialized(s);
    (m, Resolve(m.heap, m.views, w, fuel))
  }

  // ---------------------------------------------------------------- lengths

  /** What Lua may answer to #t: some n with t[n] present (or n = 0) and t[n + 1] absent. */
  ghost predicate IsBorder(slots: Slots, n: nat) {
    (n == 0 || Num(n) in slots) && Num(n + 1) !in slots
  }

  /** The answers Lua may give to the length of a value: a string has its own, a view asks again. */
  ghost predicate MayBeLength(h: Heap, views: seq<ViewRec>, x: Val, n: nat, fuel: nat)
    requires Linked(views)
    decreases fuel
  {
    match x
    case Table(id) => IsBorder(if id in h then h[id] else map[], n)
    case Prim(Text(s)) => n == |s|
    case View(w) =>
      && fuel > 0 && w < |views|
      && (match Resolve(h, views, w, fuel - 1)
        case Raised => false
        case Value(y) => MayBeLength(h, views, y, n, fuel - 1))
    case _ => false
  }

  function PristineLength(t: QVar): nat {
    if t.List? then |t.l| else 0
  }

  /** A state of Lua holding one message received by the script. */
  class Message {
    const retained: QVar
    var views: seq<ViewRec>
    var materialized: bool
    var heap: Heap

    ghost function Now(): State
      reads this
    {
      State(retained, views, materialized, heap)
    }

    constructor (tree: QVar, tables: Heap)
      requires IsContainer(tree)
      requires forall id :: id in tables ==> id.User?
      ensures Now() == State(tree, [Root(tree)], false, tables)
      ensures Coherent(Now())
    {
      retained := tree;
      views := [Root(tree)];
      materialized := false;
      heap := tables;
    }

    /** glua::Push: builds the tables of `t` entry by entry, each container a new table. */
    method PushTree(t: QVar, base: seq<Key>) returns (v: Val)
      requires NoneIn(t, base, heap)
      modifies this`heap
      ensures heap == old(heap) + TablesAt(t, base)
      ensures v == Lift(t, base)
      decreases t, 1
    {
      v := Lift(t, base);
      if IsContainer(t) {
        heap := heap[Msg(base) := map[]];
        PushEntries(t, base, old(heap));
        AllBuilt(t, base);
      } else {
        assert TablesAt(t, base) == map[];
      }
    }

    method PushEntries(t: QVar, base: seq<Key>, ghost before: Heap)
      requires IsContainer(t) && NoneIn(t, base, before)
      requires heap == before[Msg(base) := map[]]
      modifies this`heap
      ensures heap == before + Built(t, base, ChildKeys(t))
      decreases t, 0
    {
      NoneBuilt(t, base);
      var todo := ChildKeys(t);
      ghost var done: set<Key> := {};
      while todo != {}
        invariant todo !! done && todo + done == ChildKeys(t)
        invariant heap == before + Built(t, base, done)
        decreases todo
      {
        var k :| k in todo;
        PushEntry(t, base, k, before, done);
        todo, done := todo - {k}, done + {k};
      }
      assert done == ChildKeys(t);
    }

    method PushEntry(t: QVar, base: seq<Key>, k: Key, ghost before: Heap, ghost done: set<Key>)
      requires IsContainer(t) && NoneIn(t, base, before) && k in ChildKeys(t) && k !in done
      requires heap == before + Built(t, base, done)
      modifies this`heap
      ensures heap == before + Built(t, base, done + {k})
      decreases Child(t, k).value, 2
    {
      ChildIdsFresh(t, base, k, done, before);
      var x := PushTree(Child(t, k).value, base + [k]);
      heap := Store(heap, Msg(base), k, x);
      OneMoreBuilt(t, base, k, done, before);
    }

    method MaterializeMessage()
      requires Coherent(Now())
      modifies this`heap, this`materialized
      ensures Now() == Materialized(old(Now()))
      ensures Coherent(Now())
    {
      if materialized {
        return;
      }
      NothingBuiltYet(Now());
      var table := PushTree(retained, []);
      materialized := true;
      MaterializedCoherent(old(Now()));
    }

    /** The keys from the view (its own first) up to the one just below the root. */
    method PushPath(w: nat) returns (keys: seq<Key>)
      requires Coherent(Now()) && w < |views|
      ensures keys == Reversed(PathOf(views, w))
    {
      keys := [];
      var cur: nat := w;
      while views[cur].Below?
        invariant ClimbedTo(views, w, keys, cur)
        decreases cur
      {
        ClimbOnce(views, w, keys, cur);
        keys := keys + [views[cur].key];
        cur := views[cur].parent;
      }
      assert keys + [] == keys;
    }

    method PushResolved(w: nat, fuel: nat) returns (r: Outcome)
      requires Coherent(Now()) && w < |views|
      ensures r == Resolve(heap, views, w, fuel)
      decreases fuel, 1
    {
      var keys := PushPath(w);
      ghost var path := PathOf(views, w);
      ReversedTwice(path);
      r := Value(Table(Msg([])));
      var i := |keys|;
      assert path[|keys| - i..] == path;
      while i > 0 && r.Value?
        invariant 0 <= i <= |keys| == |path|
        invariant match r
          case Raised => Resolve(heap, views, w, fuel) == Raised
          case Value(y) => Walk(heap, views, y, path[|keys| - i..], fuel) == Resolve(heap, views, w, fuel)
        decreases i
      {
        i := i - 1;
        assert keys[i] == path[|keys| - i - 1];
        assert path[|keys| - i - 1..][1..] == path[|keys| - i..];
        r := Gettable(r.v, keys[i], fuel);
      }
    }

    method Gettable(x: Val, k: Key, fuel: nat) returns (r: Outcome)
      requires Coherent(Now())
      ensures r == GetTable(heap, views, x, k, fuel)
      decreases fuel, 0
    {
      match x
      case Table(id) =>
        r := Value(Slot(heap, id, k));
      case Prim(p) =>
        r := if p.Text? then Value(Slot(heap, STRING_LIB, k)) else Raised;
      case View(w) =>
        if fuel == 0 || w >= |views| {
          return Raised;
        }
        if k == MATERIALIZE {
          return Value(Method);
        }
        r := PushResolved(w, fuel - 1);
        if r.Value? {
          r := Gettable(r.v, k, fuel - 1);
        }
      case _ =>
        r := Raised;
    }

    method Settable(x: Val, k: Key, v: Val, fuel: nat) returns (ok: bool)
      requires Coherent(Now()) && materialized
      modifies this`heap
      ensures var h := SetTable(old(heap), views, x, k, v, fuel);
        ok == h.Some? && heap == if ok then h.value else old(heap)
      ensures Coherent(Now())
      decreases fuel
    {
      match x
      case Table(id) =>
        heap := Store(heap, id, k, v);
        ok := true;
      case View(w) =>
        if fuel == 0 || w >= |views| {
          return false;
        }
        var r := PushResolved(w, fuel - 1);
        if r.Raised? {
          return false;
        }
        ok := Settable(r.v, k, v, fuel - 1);
      case _ =>
        ok := false;
    }

    /** Indexing a view of a message nobody wrote to. */
    method PushChild(w: nat, k: Key) returns (v: Val)
      requires Coherent(Now()) && !materialized && w < |views|
      modifies this`views
      ensures Coherent(Now())
      ensures match Child(old(views[w].value), k)
        case None => v == Nil && Now() == old(Now())
        case Some(c) => (Now(), v) == WithChildView(old(Now()), w, k, c)
    {
      var child := Child(views[w].value, k);
      if child.None? {
        return Nil;
      }
      if !IsContainer(child.value) {
        return Lift(child.value, []);
      }
      v := View(|views|);
      views := views + [Below(w, k, child.value)];
      ChildViewCoherent(old(Now()), w, k);
    }

    /** The __index of a view. */
    method NodeIndex(w: nat, k: Key, fuel: nat) returns (r: Outcome)
      requires Coherent(Now()) && w < |views|
      modifies this`views
      ensures (Now(), r) == IndexView(old(Now()), w, k, fuel)
      ensures Coherent(Now())
    {
      if k == MATERIALIZE {
        return Value(Method);
      }
      if materialized {
        r := Gettable(View(w), k, fuel);
        return;
      }
      var v := PushChild(w, k);
      r := Value(v);
    }

    /** The __newindex of a view. */
    method NodeNewIndex(w: nat, k: Key, v: Val, fuel: nat) returns (r: Outcome)
      requires Coherent(Now()) && w < |views|
      modifies this`heap, this`materialized
      ensures (Now(), r) == AssignView(old(Now()), w, k, v, fuel)
      ensures Coherent(Now())
    {
      MaterializeMessage();
      var ok := Settable(View(w), k, v, fuel);
      r := if ok then Value(Nil) else Raised;
    }

    method NodeMaterialize(w: nat, fuel: nat) returns (r: Outcome)
      requires Coherent(Now()) && w < |views|
      modifies this`heap, this`materialized
      ensures (Now(), r) == WholeView(old(Now()), w, fuel)
      ensures Coherent(Now())
    {
      MaterializeMessage();
      r := PushResolved(w, fuel);
    }

    /** The __len of a view: None is a raised error. */
    method NodeLen(w: nat, fuel: nat) returns (n: Option<nat>)
      requires Coherent(Now()) && w < |views|
      ensures !materialized ==> n == Some(PristineLength(views[w].value))
      ensures materialized ==>
        match n
        case Some(len) => MayBeLength(heap, views, View(w), len, fuel)
        case None => forall len :: !MayBeLength(heap, views, View(w), len, fuel)
    {
      if materialized {
        n := ListLength(View(w), fuel);
      } else if views[w].value.List? {
        n := Some(|views[w].value.l|);
      } else {
        n := Some(0);
      }
    }

    method ListLength(x: Val, fuel: nat) returns (n: Option<nat>)
      requires Coherent(Now())
      ensures match n
        case Some(len) => MayBeLength(heap, views, x, len, fuel)
        case None => forall len :: !MayBeLength(heap, views, x, len, fuel)
      decreases fuel
    {
      match x
      case Table(id) =>
        var slots: Slots := if id in heap then heap[id] else map[];
        var len := 0;
        ghost var seen: set<Key> := {};
        while Num(len + 1) in slots
          invariant len == 0 || Num(len) in slots
          invariant seen <= slots.Keys && forall k :: k in seen ==> k.Num? && k.i <= len
          decreases slots.Keys - seen
        {
          len := len + 1;
          seen := seen + {Num(len)};
        }
        n := Some(len);
      case Prim(Text(s)) =>
        n := Some(|s|);
      case View(w) =>
        if fuel == 0 || w >= |views| {
          return None;
        }
        var r := PushResolved(w, fuel - 1);
        if r.Raised? {
          return None;
        }
        n := ListLength(r.v, fuel - 1);
      case _ =>
        n := None;
    }

    /** One step of pairs() over a message nobody wrote to: the entry after `control`, None at the
        end. */
    method NextPair(w: nat, control: Option<Key>) returns (next: Option<(Key, Val)>)
      requires Coherent(Now()) && !materialized && w < |views|
      requires control.Some? ==> if views[w].value.List? then control.value.Num? else control.value.Str?
      modifies this`views
      ensures Coherent(Now())
      ensures IsNextKey(old(views[w].value), control, if next.None? then None else Some(next.value.0))
      ensures next.Some? ==>
        var (s, v) := WithChildView(old(Now()), w, next.value.0, Child(old(views[w].value), next.value.0).value);
        Now() == s && next.value.1 == v
      ensures next.None? ==> Now() == old(Now())
    {
      var t := views[w].value;
      assert IsContainer(t) by { if w > 0 { assert IsChildView(views, w); } }
      var key: Key;
      if t.List? {
        var i := if control.None? then 1 else control.value.i + 1;
        if i < 1 || i > |t.l| {
          return None;
        }
        key := Num(i);
      } else {
        var after := if control.None? then None else Some(control.value.s);
        var found := UpperBound(t.m.Keys, after);
        if found.None? {
          return None;
        }
        key := Str(found.value);
      }
      var c := Child(t, key).value;
      if IsContainer(c) {
        next := Some((key, View(|views|)));
        views := views + [Below(w, key, c)];
        ChildViewCoherent(old(Now()), w, key);
      } else {
        next := Some((key, Lift(c, [])));
      }
    }
  }

  /** The key pairs() goes to after `control` over a list (in index order) or a map (in key order);
      a list whose control key is out of range ends. */
  ghost predicate IsNextKey(t: QVar, control: Option<Key>, next: Option<Key>) {
    match t
    case List(l) =>
      var i := if control.None? then 1 else if control.value.Num? then control.value.i + 1 else 0;
      next == if 1 <= i <= |l| then Some(Num(i)) else None
    case Map(m) =>
      && (control.Some? ==> control.value.Str?)
      && (next.Some? ==> next.value.Str?)
      && IsUpperBound(m.Keys, if control.None? then None else Some(control.value.s),
                      if next.None? then None else Some(next.value.s))
    case _ => false
  }

  /** The keys of the first steps of one pairs() loop. */
  ghost predicate PairsSteps(t: QVar, keys: seq<Key>) {
    forall i :: 0 <= i < |keys| ==> StepTo(t, keys, i)
  }

  ghost predicate StepTo(t: QVar, keys: seq<Key>, i: nat)
    requires i < |keys|
  {
    IsNextKey(t, if i == 0 then None else Some(keys[i - 1]), Some(keys[i]))
  }

  ghost predicate PairsOver(t: QVar, keys: seq<Key>) {
    PairsSteps(t, keys) && IsNextKey(t, if keys == [] then None else Some(keys[|keys| - 1]), None)
  }

  /** The order in which pairs() goes: by index, or by key. */
  ghost predicate Before(a: Key, b: Key) {
    if a.Num? then b.Num? && a.i < b.i else a.Str? && b.Str? && Less(a.s, b.s)
  }

  lemma PairsPrefix(t: QVar, keys: seq<Key>)
    requires PairsSteps(t, keys) && keys != []
    ensures PairsSteps(t, keys[..|keys| - 1])
  {
    var front := keys[..|keys| - 1];
    forall i | 0 <= i < |front| ensures StepTo(t, front, i) {
      assert StepTo(t, keys, i);
    }
  }

  lemma {:induction false} PairsIndex(t: QVar, keys: seq<Key>, i: nat)
    requires PairsSteps(t, keys) && i < |keys|
    ensures keys[i] in ChildKeys(t)
    ensures if t.List? then keys[i] == Num(i + 1) else t.Map? && keys[i].Str?
    decreases i
  {
    assert StepTo(t, keys, i);
    if i > 0 {
      PairsIndex(t, keys, i - 1);
    }
  }

  lemma {:induction false} PairsAscend(t: QVar, keys: seq<Key>, i: nat, j: nat)
    requires PairsSteps(t, keys) && i < j < |keys|
    ensures Before(keys[i], keys[j])
    decreases j
  {
    PairsIndex(t, keys, i);
    PairsIndex(t, keys, j);
    PairsIndex(t, keys, j - 1);
    assert StepTo(t, keys, j);
    if t.Map? && i < j - 1 {
      PairsAscend(t, keys, i, j - 1);
      LessTransitive(keys[i].s, keys[j - 1].s, keys[j].s);
    }
  }

  /** No key is skipped: what was not visited yet comes later. */
  lemma {:induction false} PairsSkipNothing(t: QVar, keys: seq<Key>, k: Key)
    requires PairsSteps(t, keys) && k in ChildKeys(t)
    ensures k in keys || keys == [] || Before(keys[|keys| - 1], k)
    decreases |keys|
  {
    if keys != [] {
      var n := |keys| - 1;
      PairsPrefix(t, keys);
      PairsSkipNothing(t, keys[..n], k);
      PairsIndex(t, keys, n);
      assert StepTo(t, keys, n);
      assert keys == keys[..n] + [keys[n]];
      if n > 0 {
        PairsIndex(t, keys, n - 1);
        assert keys[..n][n - 1] == keys[n - 1];
      }
    }
  }

  lemma PairsProgress(t: QVar, keys: seq<Key>)
    requires PairsSteps(t, keys)
    ensures forall i, j :: 0 <= i < j < |keys| ==> Before(keys[i], keys[j])
    ensures forall i :: 0 <= i < |keys| ==> keys[i] in ChildKeys(t)
  {
    forall i, j | 0 <= i < j < |keys| ensures Before(keys[i], keys[j]) {
      PairsAscend(t, keys, i, j);
    }
    forall i | 0 <= i < |keys| ensures keys[i] in ChildKeys(t) {
      PairsIndex(t, keys, i);
    }
  }

  /** pairs() over a message nobody wrote to is over after at most as many steps as there are keys,
      and by then has gone to every key exactly once, in order. */
  lemma PairsVisitsEveryKeyOnce(t: QVar, keys: seq<Key>)
    requires PairsSteps(t, keys)
    ensures |keys| <= |ChildKeys(t)|
    ensures forall i, j :: 0 <= i < j < |keys| ==> Before(keys[i], keys[j]) && keys[i] != keys[j]
    ensures PairsOver(t, keys) ==> (set k | k in keys) == ChildKeys(t) && |keys| == |ChildKeys(t)|
  {
    PairsProgress(t, keys);
    forall i, j | 0 <= i < j < |keys| ensures keys[i] != keys[j] {
      assert Before(keys[i], keys[j]);
      if keys[i].Str? { LessTotal(keys[i].s, keys[i].s); }
    }
    DistinctCount(keys);
    var visited := set k | k in keys;
    assert visited <= ChildKeys(t);
    SubsetSize(visited, ChildKeys(t));
    if PairsOver(t, keys) {
      forall k | k in ChildKeys(t) ensures k in visited {
        PairsSkipNothing(t, keys, k);
        if keys != [] {
          PairsIndex(t, keys, |keys| - 1);
        }
      }
      assert visited == ChildKeys(t);
    }
  }

  lemma {:induction false} DistinctCount<T>(s: seq<T>)
    requires forall i, j :: 0 <= i < j < |s| ==> s[i] != s[j]
    ensures |set x | x in s| == |s|
  {
    if s != [] {
      var n := |s| - 1;
      DistinctCount(s[..n]);
      assert s == s[..n] + [s[n]];
      assert (set x | x in s) == (set x | x in s[..n]) + {s[n]};
    }
  }

  lemma {:induction false} SubsetSize<T>(a: set<T>, b: set<T>)
    requires a <= b
    ensures |a| <= |b|
  {
    assert b == a + (b - a);
  }

  // ---------------------------------------------------------------- facts the methods use

  /** The keys between `w` and its ancestor `cur` are in `keys`, the lowest first. */
  ghost predicate ClimbedTo(views: seq<ViewRec>, w: nat, keys: seq<Key>, cur: nat) {
    && Linked(views) && w < |views| && cur < |views|
    && keys + Reversed(PathOf(views, cur)) == Reversed(PathOf(views, w))
  }

  lemma ClimbOnce(views: seq<ViewRec>, w: nat, keys: seq<Key>, cur: nat)
    requires ClimbedTo(views, w, keys, cur) && views[cur].Below?
    ensures ClimbedTo(views, w, keys + [views[cur].key], views[cur].parent)
  {
    var above := PathOf(views, views[cur].parent);
    ReversedSnoc(above, views[cur].key);
    assert keys + ([views[cur].key] + Reversed(above)) == keys + [views[cur].key] + Reversed(above);
  }

  function Reversed<T>(s: seq<T>): (r: seq<T>)
    ensures |r| == |s| && forall i :: 0 <= i < |s| ==> r[i] == s[|s| - 1 - i]
  {
    if s == [] then [] else [s[|s| - 1]] + Reversed(s[..|s| - 1])
  }

  lemma ReversedSnoc<T>(s: seq<T>, x: T)
    ensures Reversed(s + [x]) == [x] + Reversed(s)
  {
    assert (s + [x])[..|s|] == s;
  }

  lemma ReversedTwice<T>(s: seq<T>)
    ensures |Reversed(s)| == |s|
    ensures forall i :: 0 <= i < |s| ==> Reversed(s)[i] == s[|s| - 1 - i]
  {
  }

  ghost function SlotsUpTo(t: QVar, base: seq<Key>, done: set<Key>): Slots {
    map k | k in ChildKeys(t) && k in done && !Child(t, k).value.Null? :: Lift(Child(t, k).value, base + [k])
  }

  lemma SlotsOneMore(t: QVar, base: seq<Key>, done: set<Key>, k: Key)
    requires k in ChildKeys(t) && k !in done
    ensures SlotsUpTo(t, base, done + {k}) ==
      var v := Lift(Child(t, k).value, base + [k]);
      if v.Nil? then SlotsUpTo(t, base, done) - {k} else SlotsUpTo(t, base, done)[k := v]
  {
  }

  /** The tables built once the entries `done` of the container `t` were pushed. */
  ghost function Built(t: QVar, base: seq<Key>, done: set<Key>): Heap
    requires IsContainer(t)
  {
    map id | id in Ids(t, base) && (id.path == base || (|id.path| > |base| && id.path[|base|] in done)) ::
      if id.path == base
      then SlotsUpTo(t, base, done)
      else if id in TablesAt(t, base) then TablesAt(t, base)[id] else map[]
  }

  ghost predicate NoneIn(t: QVar, base: seq<Key>, h: Heap) {
    forall id :: id in Ids(t, base) ==> id !in h
  }

  lemma IdsDomain(t: QVar, base: seq<Key>, id: TableId)
    ensures id in Ids(t, base) <==>
      id.Msg? && |base| <= |id.path| && id.path[..|base|] == base && id.path[|base|..] in Paths(t)
    ensures id in Ids(t, base) ==> Subtree(t, id.path[|base|..]).Some?
  {
    if id in Ids(t, base) {
      var p :| p in Paths(t) && id == Msg(base + p);
      assert (base + p)[|base|..] == p && (base + p)[..|base|] == base;
      PathsAreContainers(t, p);
    }
    if id.Msg? && |base| <= |id.path| && id.path[..|base|] == base {
      assert id.path == base + id.path[|base|..];
    }
  }

  lemma BuiltAt(t: QVar, base: seq<Key>, done: set<Key>, id: TableId)
    requires IsContainer(t)
    ensures id in Built(t, base, done) <==>
      id in Ids(t, base) && (id.path == base || (|id.path| > |base| && id.path[|base|] in done))
    ensures Msg(base) in Built(t, base, done)
  {
    assert [] in Paths(t) && base + [] == base;
    IdsDomain(t, base, Msg(base));
  }

  lemma NoneBuilt(t: QVar, base: seq<Key>)
    requires IsContainer(t)
    ensures Built(t, base, {}) == map[Msg(base) := map[]]
  {
    BuiltAt(t, base, {}, Msg(base));
    forall id | id in Built(t, base, {}) ensures id == Msg(base) {
    }
  }

  lemma AllBuilt(t: QVar, base: seq<Key>)
    requires IsContainer(t)
    ensures Built(t, base, ChildKeys(t)) == TablesAt(t, base)
  {
    forall id | id in Ids(t, base) ensures id in Built(t, base, ChildKeys(t))
      && Built(t, base, ChildKeys(t))[id] == TablesAt(t, base)[id]
    {
      IdsDomain(t, base, id);
      var p := id.path[|base|..];
      if p != [] {
        assert id.path[|base|] == p[0];
        assert Child(t, p[0]).Some?;
      } else {
        assert id.path == base;
      }
    }
  }

  lemma ChildIds(t: QVar, base: seq<Key>, k: Key, id: TableId)
    requires k in ChildKeys(t)
    ensures id in Ids(Child(t, k).value, base + [k]) <==>
      id in Ids(t, base) && |id.path| > |base| && id.path[|base|] == k
    ensures id in Ids(Child(t, k).value, base + [k]) ==>
      TablesAt(Child(t, k).value, base + [k])[id] == TablesAt(t, base)[id]
  {
    var c := Child(t, k).value;
    IdsDomain(t, base, id);
    IdsDomain(c, base + [k], id);
    if id.Msg? && |id.path| > |base| && id.path[..|base|] == base && id.path[|base|] == k {
      var p := id.path[|base|..];
      assert p[1..] == id.path[|base + [k]|..];
      assert p == [k] + p[1..];
      assert id.path[..|base + [k]|] == base + [k];
      assert Subtree(t, p) == Subtree(c, p[1..]);
      PathsAreContainers(t, p);
      PathsAreContainers(c, p[1..]);
    }
    if id.Msg? && |base + [k]| <= |id.path| && id.path[..|base + [k]|] == base + [k] {
      assert id.path[..|base|] == id.path[..|base + [k]|][..|base|];
      assert id.path[|base|] == id.path[..|base + [k]|][|base|];
    }
  }

  lemma ChildIdsFresh(t: QVar, base: seq<Key>, k: Key, done: set<Key>, before: Heap)
    requires IsContainer(t) && k in ChildKeys(t) && k !in done
    requires NoneIn(t, base, before)
    ensures NoneIn(Child(t, k).value, base + [k], before + Built(t, base, done))
  {
    forall id | id in Ids(Child(t, k).value, base + [k])
      ensures id !in before + Built(t, base, done)
    {
      ChildIds(t, base, k, id);
      BuiltAt(t, base, done, id);
    }
  }

  ghost function WithOneMore(t: QVar, base: seq<Key>, k: Key, done: set<Key>, before: Heap): Heap
    requires IsContainer(t) && k in ChildKeys(t)
  {
    var c := Child(t, k).value;
    Store(before + Built(t, base, done) + TablesAt(c, base + [k]), Msg(base), k, Lift(c, base + [k]))
  }

  lemma OneMoreRoot(t: QVar, base: seq<Key>, k: Key, done: set<Key>, before: Heap)
    requires IsContainer(t) && k in ChildKeys(t) && k !in done
    ensures Msg(base) in WithOneMore(t, base, k, done, before)
    ensures Msg(base) in Built(t, base, done + {k})
    ensures WithOneMore(t, base, k, done, before)[Msg(base)] == Built(t, base, done + {k})[Msg(base)]
  {
    BuiltAt(t, base, done, Msg(base));
    BuiltAt(t, base, done + {k}, Msg(base));
    ChildIds(t, base, k, Msg(base));
    SlotsOneMore(t, base, done, k);
    var h := before + Built(t, base, done) + TablesAt(Child(t, k).value, base + [k]);
    assert h[Msg(base)] == SlotsUpTo(t, base, done);
  }

  ghost predicate SameAt(g: Heap, h: Heap, id: TableId) {
    (id in g <==> id in h) && (id in g ==> g[id] == h[id])
  }

  lemma StoreElsewhere(h: Heap, at: TableId, k: Key, v: Val, id: TableId)
    requires id != at
    ensures SameAt(Store(h, at, k, v), h, id)
  {
  }

  lemma OneMoreBelow(t: QVar, base: seq<Key>, k: Key, done: set<Key>, before: Heap, id: TableId)
    requires IsContainer(t) && k in ChildKeys(t) && k !in done
    requires NoneIn(t, base, before)
    requires id != Msg(base)
    ensures SameAt(WithOneMore(t, base, k, done, before), before + Built(t, base, done + {k}), id)
  {
    var c := Child(t, k).value;
    var h := before + Built(t, base, done) + TablesAt(c, base + [k]);
    StoreElsewhere(h, Msg(base), k, Lift(c, base + [k]), id);
    OneMoreTables(t, base, k, done, before, id);
  }

  lemma OneMoreTables(t: QVar, base: seq<Key>, k: Key, done: set<Key>, before: Heap, id: TableId)
    requires IsContainer(t) && k in ChildKeys(t) && k !in done
    requires NoneIn(t, base, before)
    requires id != Msg(base)
    ensures SameAt(before + Built(t, base, done) + TablesAt(Child(t, k).value, base + [k]),
                   before + Built(t, base, done + {k}), id)
  {
    BuiltAt(t, base, done, id);
    BuiltAt(t, base, done + {k}, id);
    ChildIds(t, base, k, id);
  }

  lemma OneMoreBuilt(t: QVar, base: seq<Key>, k: Key, done: set<Key>, before: Heap)
    requires IsContainer(t) && k in ChildKeys(t) && k !in done
    requires NoneIn(t, base, before)
    ensures WithOneMore(t, base, k, done, before) == before + Built(t, base, done + {k})
  {
    var left := WithOneMore(t, base, k, done, before);
    var right := before + Built(t, base, done + {k});
    BuiltAt(t, base, done + {k}, Msg(base));
    OneMoreRoot(t, base, k, done, before);
    forall id ensures SameAt(left, right, id) {
      if id != Msg(base) {
        OneMoreBelow(t, base, k, done, before, id);
      }
    }
    SameEverywhere(left, right);
  }

  lemma SameEverywhere(g: Heap, h: Heap)
    requires forall id :: SameAt(g, h, id)
    ensures g == h
  {
    forall id ensures id in g <==> id in h {
      assert SameAt(g, h, id);
    }
    forall id | id in g ensures g[id] == h[id] {
      assert SameAt(g, h, id);
    }
  }

  lemma NothingBuiltYet(s: State)
    requires Coherent(s) && !s.materialized
    ensures NoneIn(s.retained, [], s.heap)
  {
  }

  lemma MaterializedCoherent(s: State)
    requires Coherent(s)
    ensures Coherent(Materialized(s))
  {
    forall id | id in Ids(s.retained, []) ensures id in Tables(s.retained) {
      var p :| p in Paths(s.retained) && id == Msg([] + p);
    }
  }

  lemma ChildViewCoherent(s: State, w: nat, k: Key)
    requires Coherent(s) && w < |s.views| && Child(s.views[w].value, k).Some?
    requires IsContainer(Child(s.views[w].value, k).value)
    ensures Coherent(s.(views := s.views + [Below(w, k, Child(s.views[w].value, k).value)]))
  {
    var views := s.views + [Below(w, k, Child(s.views[w].value, k).value)];
    forall v | 0 < v < |views| ensures IsChildView(views, v) {
      if v < |s.views| {
        assert IsChildView(s.views, v);
      }
    }
  }
}
