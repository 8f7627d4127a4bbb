/**
 The part of a Lua state that message views touch: tables named by identity, and view userdata
 that only know their parent view and the key they were indexed with.
 */
module LuaTables {
  import opened Variants

  /** Lua keys: strings, integers, and every other key (booleans, fractions, tables, ...). */
  datatype Key = Str(s: string) | Num(i: int) | Odd(n: nat)

  /** Table identities. The table built for the container at `path` of the message gets the name
      Msg(path): one message is turned into tables at most once, so the names never clash. */
  datatype TableId = Msg(path: seq<Key>) | User(n: nat)

  datatype Val = Nil | Prim(x: Scalar) | Table(id: TableId) | View(v: nat) | Method

  /** What a Lua operation gives back: a value, or an error raised to the script. */
  datatype Outcome = Value(v: Val) | Raised

  type Slots = map<Key, Val>
  type Heap = map<TableId, Slots>

  /** Strings are indexed through the `string` library table. */
  const STRING_LIB: TableId := User(0)

  /** The one key that names a method of every view instead of a message entry. */
  const MATERIALIZE: Key := Str("materialize")

  function Slot(h: Heap, id: TableId, k: Key): Val {
    if id in h && k in h[id] then h[id][k] else Nil
  }

  /** `t[k] = v`: storing nil removes the entry. */
  function Store(h: Heap, id: TableId, k: Key, v: Val): Heap {
    if id !in h then h
    else h[id := if v.Nil? then h[id] - {k} else h[id][k := v]]
  }

  // ---------------------------------------------------------------- message trees as tables

  function Child(t: QVar, k: Key): (c: Option<QVar>)
    ensures c.Some? ==> c.value < t
  {
    match t
    case Map(m) => if k.Str? && k.s in m then Some(m[k.s]) else None
    case List(l) => if k.Num? && 1 <= k.i <= |l| then Some(l[k.i - 1]) else None
    case _ => None
  }

  function ChildKeys(t: QVar): (ks: set<Key>)
    ensures forall k :: k in ks <==> Child(t, k).Some?
  {
    match t
    case Map(m) => set s | s in m :: Str(s)
    case List(l) => set i | 1 <= i <= |l| :: Num(i)
    case _ => {}
  }

  function Subtree(t: QVar, p: seq<Key>): Option<QVar>
    decreases |p|
  {
    if p == [] then Some(t)
    else match Child(t, p[0])
      case None => None
      case Some(c) => Subtree(c, p[1..])
  }

  /** The positions of the containers of a tree. */
  function Paths(t: QVar): set<seq<Key>> {
    if IsContainer(t)
    then {[]} + set k, p | k in ChildKeys(t) && p in Paths(Child(t, k).value) :: [k] + p
    else {}
  }

  /** What a tree found at position `p` becomes inside the table of its parent. */
  function Lift(t: QVar, p: seq<Key>): Val {
    match t
    case Null => Nil
    case Leaf(x) => Prim(x)
    case _ => Table(Msg(p))
  }

  function SlotsOf(t: QVar, p: seq<Key>): Slots {
    map k | k in ChildKeys(t) && !Child(t, k).value.Null? :: Lift(Child(t, k).value, p + [k])
  }

  function Ids(t: QVar, base: seq<Key>): set<TableId> {
    set p | p in Paths(t) :: Msg(base + p)
  }

  /** The tables glua::Push makes of the tree `t`, when `t` sits at position `base`. */
  ghost function TablesAt(t: QVar, base: seq<Key>): Heap {
    map id | id in Ids(t, base) ::
      var p := id.path[|base|..];
      if Subtree(t, p).Some? then SlotsOf(Subtree(t, p).value, id.path) else map[]
  }

  ghost function Tables(t: QVar): Heap {
    TablesAt(t, [])
  }

  lemma {:induction false} PathsAreContainers(t: QVar, p: seq<Key>)
    ensures p in Paths(t) <==> Subtree(t, p).Some? && IsContainer(Subtree(t, p).value)
    decreases |p|
  {
    if p != [] {
      assert p == [p[0]] + p[1..];
      if Child(t, p[0]).Some? {
        PathsAreContainers(Child(t, p[0]).value, p[1..]);
      }
    }
  }

  lemma {:induction false} SubtreeSnoc(t: QVar, p: seq<Key>, k: Key)
    ensures Subtree(t, p + [k]) == if Subtree(t, p).None? then None else Child(Subtree(t, p).value, k)
    decreases |p|
  {
    if p != [] {
      assert (p + [k])[1..] == p[1..] + [k];
      if Child(t, p[0]).Some? {
        SubtreeSnoc(Child(t, p[0]).value, p[1..], k);
      }
    } else {
      assert (p + [k])[1..] == [];
    }
  }

  lemma PathsPrefix(t: QVar, p: seq<Key>, k: Key)
    requires p + [k] in Paths(t)
    ensures p in Paths(t)
  {
    PathsAreContainers(t, p + [k]);
    PathsAreContainers(t, p);
    SubtreeSnoc(t, p, k);
  }

  lemma TablesContents(t: QVar, p: seq<Key>)
    requires p in Paths(t)
    ensures Msg(p) in Tables(t) && Subtree(t, p).Some?
    ensures Tables(t)[Msg(p)] == SlotsOf(Subtree(t, p).value, p)
  {
    PathsAreContainers(t, p);
    assert [] + p == p;
    assert Msg(p) in Ids(t, []);
    assert p[0..] == p;
  }

  lemma TablesDomain(t: QVar, id: TableId)
    ensures id in Tables(t) <==> id.Msg? && id.path in Paths(t)
  {
    if id.Msg? {
      assert [] + id.path == id.path;
    }
    if id in Tables(t) {
      var p :| p in Paths(t) && id == Msg([] + p);
      assert [] + p == p;
    }
  }

  // ---------------------------------------------------------------- views and Lua access

  /** LazyUserData: the retained subtree, and for all views but the root the view it was indexed
      from (user value 1) and the key it was indexed with (user value 2). */
  datatype ViewRec = Root(value: QVar) | Below(parent: nat, key: Key, value: QVar)

  ghost predicate Linked(views: seq<ViewRec>) {
    forall v :: 0 <= v < |views| && views[v].Below? ==> views[v].parent < v
  }

  ghost function PathOf(views: seq<ViewRec>, v: nat): seq<Key>
    requires Linked(views) && v < |views|
  {
    match views[v]
    case Root(_) => []
    case Below(parent, key, _) => PathOf(views, parent) + [key]
  }

  /** lua_gettable(x, k), where a view met on the way goes through its __index again. `fuel` is what
      is left of Lua's limit on nested C calls. */
  ghost function GetTable(h: Heap, views: seq<ViewRec>, x: Val, k: Key, fuel: nat): Outcome
    requires Linked(views)
    decreases fuel, 0, 0
  {
    match x
    case Table(id) => Value(Slot(h, id, k))
    case Prim(p) => if p.Text? then Value(Slot(h, STRING_LIB, k)) else Raised
    case View(w) =>
      if fuel == 0 || w >= |views| then Raised
      else if k == MATERIALIZE then Value(Method)
      else (match Resolve(h, views, w, fuel - 1)
        case Raised => Raised
        case Value(y) => GetTable(h, views, y, k, fuel - 1))
    case _ => Raised
  }

  ghost function Walk(h: Heap, views: seq<ViewRec>, x: Val, path: seq<Key>, fuel: nat): Outcome
    requires Linked(views)
    decreases fuel, 1, |path|
  {
    if path == [] then Value(x)
    else match GetTable(h, views, x, path[0], fuel)
      case Raised => Raised
      case Value(y) => Walk(h, views, y, path[1..], fuel)
  }

  /** What the view stands for once the message is a table: its key chain followed from the root. */
  ghost function Resolve(h: Heap, views: seq<ViewRec>, w: nat, fuel: nat): Outcome
    requires Linked(views) && w < |views|
    decreases fuel, 2, 0
  {
    Walk(h, views, Table(Msg([])), PathOf(views, w), fuel)
  }

  /** lua_settable(x, k, v); None is a raised error. */
  ghost function SetTable(h: Heap, views: seq<ViewRec>, x: Val, k: Key, v: Val, fuel: nat): Option<Heap>
    requires Linked(views)
    decreases fuel
  {
    match x
    case Table(id) => Some(Store(h, id, k, v))
    case View(w) =>
      if fuel == 0 || w >= |views| then None
      else (match Resolve(h, views, w, fuel - 1)
        case Raised => None
        case Value(y) => SetTable(h, views, y, k, v, fuel - 1))
    case _ => None
  }

  lemma {:induction false} WalkSnoc(h: Heap, views: seq<ViewRec>, x: Val, p: seq<Key>, k: Key, fuel: nat)
    requires Linked(views)
    ensures Walk(h, views, x, p + [k], fuel) ==
      match Walk(h, views, x, p, fuel)
      case Raised => Raised
      case Value(y) => GetTable(h, views, y, k, fuel)
    decreases |p|
  {
    if p == [] {
      assert ([] + [k])[1..] == [];
    } else {
      assert (p + [k])[1..] == p[1..] + [k];
      match GetTable(h, views, x, p[0], fuel)
      case Raised =>
      case Value(y) => WalkSnoc(h, views, y, p[1..], k, fuel);
    }
  }

  lemma {:induction false} PathOfGrows(views: seq<ViewRec>, rec: ViewRec, v: nat)
    requires Linked(views) && Linked(views + [rec]) && v < |views|
    ensures PathOf(views + [rec], v) == PathOf(views, v)
    decreases v
  {
    if views[v].Below? {
      PathOfGrows(views, rec, views[v].parent);
    }
  }
}
