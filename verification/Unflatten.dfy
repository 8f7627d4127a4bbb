/** Unflatten: rebuilding a tree from rows of ':'-joined paths. */
module Unflatten {
  import opened Variants
  import opened KeyOrder
  import opened TreePaths
  import Flatten

  const INT_MAX: nat := 0x7FFF_FFFF

  // ---------------------------------------------------------------- keys into parts

  /** The first colon at or after `pos`, or -1. */
  function ColonFrom(s: string, pos: nat): (i: int)
    requires pos <= |s|
    ensures i == -1 ==> forall k :: pos <= k < |s| ==> s[k] != ':'
    ensures i != -1 ==> pos <= i < |s| && s[i] == ':' && forall k :: pos <= k < i ==> s[k] != ':'
    decreases |s| - pos
  {
    if pos == |s| then -1 else if s[pos] == ':' then pos else ColonFrom(s, pos + 1)
  }

  /** The parts between the colons from `pos` on; an empty rest has one empty part. */
  function SplitFrom(s: string, pos: nat): (parts: Path)
    requires pos <= |s|
    ensures parts != []
    decreases |s| - pos
  {
    var i := ColonFrom(s, pos);
    if i == -1 then [s[pos..]] else [s[pos..i]] + SplitFrom(s, i + 1)
  }

  /** The parts walkParts goes through: none for an empty key, and one leading colon is skipped. */
  function Parts(key: string): Path {
    if key == "" then [] else SplitFrom(if key[0] == ':' then key[1..] else key, 0)
  }

  method WalkParts(whole: string) returns (parts: Path)
    ensures parts == Parts(whole)
  {
    if |whole| == 0 {
      return [];
    }
    parts := WalkSplit(if whole[0] == ':' then whole[1..] else whole);
  }

  method WalkSplit(key: string) returns (parts: Path)
    ensures parts == SplitFrom(key, 0)
  {
    parts := [];
    var pos := 0;
    var split := ColonFrom(key, 0);
    while split != -1
      invariant pos <= |key| && split == ColonFrom(key, pos)
      invariant parts + SplitFrom(key, pos) == SplitFrom(key, 0)
      decreases |key| - pos
    {
      Flatten.Assoc(parts, [key[pos..split]], SplitFrom(key, split + 1));
      parts := parts + [key[pos..split]];
      pos := split + 1;
      split := ColonFrom(key, pos);
    }
    parts := parts + [key[pos..]];
  }

  predicate ColonFree(path: Path) {
    forall i :: 0 <= i < |path| ==> ':' !in path[i]
  }

  /** Where the first part of a joined path ends. */
  lemma JoinedColon(s: string, pos: nat, path: Path)
    requires pos <= |s| && |path| >= 2 && s[pos..] == Joined(path) && ':' !in path[0]
    ensures
      var end := pos + |path[0]|;
      ColonFrom(s, pos) == end && s[pos..end] == path[0] && s[end + 1..] == Joined(path[1..])
  {
    var rest := s[pos..];
    var n := |path[0]|;
    assert rest == path[0] + ":" + Joined(path[1..]);
    assert rest[..n] == path[0] && rest[n] == ':' && rest[n + 1..] == Joined(path[1..]);
    assert s[pos..pos + n] == rest[..n] && s[pos + n + 1..] == rest[n + 1..];
    FirstColon(s, pos, path[0]);
  }

  lemma FirstColon(s: string, pos: nat, part: string)
    requires pos + |part| < |s| && s[pos..pos + |part|] == part && ':' !in part && s[pos + |part|] == ':'
    ensures ColonFrom(s, pos) == pos + |part|
  {
    forall k | pos <= k < pos + |part| ensures s[k] != ':' {
      assert s[pos..pos + |part|][k - pos] == s[k];
    }
  }

  lemma SplitLast(s: string, pos: nat)
    requires pos <= |s| && ':' !in s[pos..]
    ensures SplitFrom(s, pos) == [s[pos..]]
  {
    forall k | pos <= k < |s| ensures s[k] != ':' {
      assert s[pos..][k - pos] == s[k];
    }
  }

  lemma SplitStep(s: string, pos: nat, i: nat)
    requires pos <= |s| && ColonFrom(s, pos) == i
    ensures SplitFrom(s, pos) == [s[pos..i]] + SplitFrom(s, i + 1)
  {
  }

  lemma {:induction false} SplitJoined(s: string, pos: nat, path: Path)
    requires pos <= |s| && path != [] && ColonFree(path) && s[pos..] == Joined(path)
    ensures SplitFrom(s, pos) == path
    decreases |path|
  {
    if |path| == 1 {
      SplitLast(s, pos);
    } else {
      var end := pos + |path[0]|;
      JoinedColon(s, pos, path);
      SplitJoined(s, end + 1, path[1..]);
      SplitStep(s, pos, end);
    }
  }

  /** A joined path comes apart into its parts when no part holds a colon and the first is not empty. */
  lemma PartsOfJoined(path: Path)
    requires path != [] && ColonFree(path) && path[0] != ""
    ensures Parts(Joined(path)) == path
  {
    var s := Joined(path);
    assert s[0] == path[0][0];
    assert path[0][0] in path[0];
    assert s[0..] == s;
    SplitJoined(s, 0, path);
  }

  lemma {:induction false} SplitColonFree(s: string, pos: nat)
    requires pos <= |s|
    ensures ColonFree(SplitFrom(s, pos))
    decreases |s| - pos
  {
    var i := ColonFrom(s, pos);
    var end := if i == -1 then |s| else i;
    forall c | c in s[pos..end] ensures c != ':' {
      var k :| 0 <= k < |s[pos..end]| && s[pos..end][k] == c;
      assert s[pos + k] == c;
    }
    if i != -1 {
      SplitColonFree(s, i + 1);
    }
  }

  // ---------------------------------------------------------------- storing a value at a path

  predicate IsIndex(part: string) {
    0 <= IndexOfPart(part) <= INT_MAX
  }

  function Padded(l: seq<QVar>, n: nat): (p: seq<QVar>)
    ensures |p| == if |l| >= n then |l| else n
    ensures forall i :: 0 <= i < |p| ==> p[i] == if i < |l| then l[i] else Null
  {
    if |l| >= n then l else l + seq(n - |l|, _ => Null)
  }

  /** The tree with `v` at `path`: each level on the way becomes a list for an index part and a map for
      any other, keeping its entries if it is one already. */
  function Put(level: QVar, path: Path, v: QVar): QVar
    decreases |path|
  {
    if path == [] then v
    else if IsIndex(path[0]) then
      var idx := IndexOfPart(path[0]);
      var l := Padded(Items(level), idx + 1);
      List(l[idx := Put(l[idx], path[1..], v)])
    else
      Map(Fields(level)[path[0] := Put(Field(Fields(level), path[0]), path[1..], v)])
  }

  method StoreAt(level: QVar, path: Path, v: QVar) returns (out: QVar)
    ensures out == Put(level, path, v)
    decreases |path|
  {
    if |path| == 0 {
      return v;
    }
    var idx := TryInt(path[0]);
    if idx < 0 || idx > INT_MAX {
      var m := if level.Map? then level.m else map[];
      var sub := StoreAt(if path[0] in m then m[path[0]] else Null, path[1..], v);
      out := Map(m[path[0] := sub]);
    } else {
      var l := PadTo(if level.List? then level.l else [], idx + 1);
      var sub := StoreAt(l[idx], path[1..], v);
      out := List(l[idx := sub]);
    }
  }

  method PadTo(items: seq<QVar>, n: nat) returns (l: seq<QVar>)
    ensures l == Padded(items, n)
  {
    l := items;
    while |l| < n
      invariant Padded(l, n) == Padded(items, n)
      decreases n - |l|
    {
      l := l + [Null];
    }
  }

  function Rebuilt(out: QVar, rows: seq<Row>): QVar
    decreases |rows|
  {
    if rows == [] then out
    else
      var path := Parts(rows[0].key);
      Rebuilt(if path == [] then out else Put(out, path, rows[0].value), rows[1..])
  }

  method UnflattenRows(start: QVar, rows: seq<Row>) returns (out: QVar)
    ensures out == Rebuilt(start, rows)
  {
    out := start;
    for i := 0 to |rows|
      invariant Rebuilt(out, rows[i..]) == Rebuilt(start, rows)
    {
      var path := WalkParts(rows[i].key);
      assert rows[i..][1..] == rows[i + 1..];
      if |path| > 0 {
        out := StoreAt(out, path, rows[i].value);
      }
    }
  }

  // ---------------------------------------------------------------- the round trip

  /** Trees that paths can tell apart: no empty containers, no key with a colon in it or one that reads
      as an index, no list beyond the largest index. */
  ghost predicate Regular(t: QVar)
    decreases t
  {
    IsContainer(t) ==>
      && Kids(t) != [] && (t.List? ==> |t.l| <= INT_MAX + 1)
      && forall i :: 0 <= i < |Kids(t)| ==> GoodName(t, Kids(t)[i].0) && Regular(Kids(t)[i].1)
  }

  predicate GoodName(t: QVar, name: string) {
    t.Map? ==> ':' !in name && !IsIndex(name)
  }

  ghost function Stored(out: QVar, entries: seq<Entry>): QVar
    decreases |entries|
  {
    if entries == [] then out else Stored(Put(out, entries[0].path, entries[0].value), entries[1..])
  }

  lemma {:induction false} StoredAppend(out: QVar, a: seq<Entry>, b: seq<Entry>)
    ensures Stored(out, a + b) == Stored(Stored(out, a), b)
    decreases |a|
  {
    if a == [] {
      assert a + b == b;
    } else {
      assert (a + b)[1..] == a[1..] + b;
      StoredAppend(Put(out, a[0].path, a[0].value), a[1..], b);
    }
  }

  lemma {:induction false} StoredUnderField(out: QVar, k: string, entries: seq<Entry>)
    requires entries != [] && !IsIndex(k)
    ensures Stored(out, Under(k, entries)) == Map(Fields(out)[k := Stored(Field(Fields(out), k), entries)])
    decreases |entries|
  {
    var e := entries[0];
    PutUnderField(out, k, e.path, e.value);
    assert Under(k, entries)[1..] == Under(k, entries[1..]);
    if |entries| > 1 {
      StoredUnderField(Put(out, [k] + e.path, e.value), k, entries[1..]);
    }
  }

  lemma PutUnderField(out: QVar, k: string, path: Path, v: QVar)
    requires !IsIndex(k)
    ensures Put(out, [k] + path, v) == Map(Fields(out)[k := Put(Field(Fields(out), k), path, v)])
  {
    assert ([k] + path)[1..] == path;
  }

  lemma {:induction false} StoredUnderIndex(out: QVar, i: nat, entries: seq<Entry>)
    requires entries != [] && i <= INT_MAX && out == (if i == 0 && out == Null then Null else List(Items(out)))
    requires |Items(out)| == i
    ensures Stored(out, Under(IndexPart(i), entries)) == List(Items(out) + [Stored(Null, entries)])
    decreases |entries|
  {
    IndexRoundTrip(i);
    StoredAtLast(Items(out), Null, i, entries, out);
  }

  lemma {:induction false} StoredAtLast(items: seq<QVar>, last: QVar, i: nat, entries: seq<Entry>, out: QVar)
    requires entries != [] && i <= INT_MAX && |items| == i && IndexOfPart(IndexPart(i)) == i
    requires Padded(Items(out), i + 1) == items + [last]
    ensures Stored(out, Under(IndexPart(i), entries)) == List(items + [Stored(last, entries)])
    decreases |entries|
  {
    var e := entries[0];
    var part := IndexPart(i);
    var next := Put(out, [part] + e.path, e.value);
    assert ([part] + e.path)[1..] == e.path;
    assert (items + [last])[i := Put(last, e.path, e.value)] == items + [Put(last, e.path, e.value)];
    assert next == List(items + [Put(last, e.path, e.value)]);
    assert Under(part, entries)[1..] == Under(part, entries[1..]);
    if |entries| > 1 {
      StoredAtLast(items, Put(last, e.path, e.value), i, entries[1..], next);
    }
  }

  lemma {:induction false} RegularHasLeaves(t: QVar)
    requires Regular(t)
    ensures Leaves(t) != []
    decreases t
  {
    if IsContainer(t) {
      RegularHasLeaves(Kids(t)[0].1);
    }
  }

  /** The tree rebuilt from the children before `i`. */
  ghost function Front(t: QVar, i: nat): QVar
    requires i <= |Kids(t)| && IsContainer(t)
  {
    if i == 0 then Null
    else if t.List? then List(t.l[..i])
    else Map(map k | k in t.m && NameBefore(t, i, k) :: t.m[k])
  }

  ghost predicate NameBefore(t: QVar, i: nat, k: string)
    requires i <= |Kids(t)|
  {
    exists j :: 0 <= j < i && Kids(t)[j].0 == k
  }

  lemma NamesDistinct(m: map<string, QVar>, i: nat, j: nat)
    requires i < j < |Kids(Map(m))|
    ensures Kids(Map(m))[i].0 != Kids(Map(m))[j].0
  {
    var keys := SortedKeys(m.Keys);
    LessTotal(keys[i], keys[j]);
    assert Less(keys[i], keys[j]);
  }

  lemma EveryNameOccurs(m: map<string, QVar>, k: string)
    requires k in m
    ensures NameBefore(Map(m), |m|, k)
  {
    var keys := SortedKeys(m.Keys);
    var j :| 0 <= j < |keys| && keys[j] == k;
    assert Kids(Map(m))[j].0 == k;
  }

  lemma NameIsNew(t: QVar, i: nat)
    requires t.Map? && i < |Kids(t)|
    ensures !NameBefore(t, i, Kids(t)[i].0)
  {
    forall j | 0 <= j < i ensures Kids(t)[j].0 != Kids(t)[i].0 {
      NamesDistinct(t.m, j, i);
    }
  }

  lemma NameBeforeStep(t: QVar, i: nat, x: string)
    requires i < |Kids(t)|
    ensures NameBefore(t, i + 1, x) <==> NameBefore(t, i, x) || x == Kids(t)[i].0
  {
    if NameBefore(t, i, x) {
      var j :| 0 <= j < i && Kids(t)[j].0 == x;
      assert 0 <= j < i + 1;
    }
    if x == Kids(t)[i].0 {
      assert 0 <= i < i + 1;
    }
  }

  lemma FrontGrowsMap(t: QVar, i: nat)
    requires t.Map? && i < |Kids(t)|
    ensures Field(Fields(Front(t, i)), Kids(t)[i].0) == Null
    ensures Front(t, i + 1) == Map(Fields(Front(t, i))[Kids(t)[i].0 := Kids(t)[i].1])
  {
    var k := Kids(t)[i].0;
    NameIsNew(t, i);
    var a, b := Fields(Front(t, i + 1)), Fields(Front(t, i))[k := Kids(t)[i].1];
    forall x ensures x in a <==> x in b {
      FrontHas(t, i, x);
      FrontHas(t, i + 1, x);
      NameBeforeStep(t, i, x);
    }
    forall x | x in a ensures a[x] == b[x] {
      FrontHas(t, i, x);
      FrontHas(t, i + 1, x);
      NameBeforeStep(t, i, x);
    }
    assert a == b;
  }

  lemma FrontHas(t: QVar, i: nat, x: string)
    requires t.Map? && i <= |Kids(t)|
    ensures x in Fields(Front(t, i)) <==> x in t.m && NameBefore(t, i, x)
    ensures x in Fields(Front(t, i)) ==> Fields(Front(t, i))[x] == t.m[x]
  {
  }

  lemma {:induction false} StoredLeaves(t: QVar)
    requires Regular(t)
    ensures Stored(Null, Leaves(t)) == t
    decreases t, |Kids(t)| + 1
  {
    if IsContainer(t) {
      StoredLeavesFrom(t, 0);
      assert Leaves(t) == LeavesFrom(t, 0);
      FrontIsAll(t);
    } else {
      assert Leaves(t) == [Entry([], t)];
      assert [Entry([], t)][1..] == [];
    }
  }

  lemma FrontIsMap(t: QVar)
    requires t.Map? && Kids(t) != []
    ensures Front(t, |Kids(t)|) == t
  {
    var a := Fields(Front(t, |Kids(t)|));
    forall k ensures (k in a <==> k in t.m) && (k in a ==> a[k] == t.m[k]) {
      FrontHas(t, |Kids(t)|, k);
      if k in t.m {
        EveryNameOccurs(t.m, k);
      }
    }
    assert a == t.m;
  }

  lemma FrontIsAll(t: QVar)
    requires IsContainer(t) && Kids(t) != []
    ensures Front(t, |Kids(t)|) == t
  {
    if t.Map? {
      FrontIsMap(t);
    } else {
      assert t.l[..|Kids(t)|] == t.l;
    }
  }

  lemma {:induction false} StoredLeavesFrom(t: QVar, i: nat)
    requires Regular(t) && IsContainer(t) && i <= |Kids(t)|
    ensures Stored(Front(t, i), LeavesFrom(t, i)) == Front(t, |Kids(t)|)
    decreases t, |Kids(t)| - i
  {
    if i < |Kids(t)| {
      var name, kid := Kids(t)[i].0, Kids(t)[i].1;
      RegularHasLeaves(kid);
      StoredLeaves(kid);
      StoredAppend(Front(t, i), Under(name, Leaves(kid)), LeavesFrom(t, i + 1));
      StoreKid(t, i);
      StoredLeavesFrom(t, i + 1);
    }
  }

  lemma StoreKid(t: QVar, i: nat)
    requires Regular(t) && IsContainer(t) && i < |Kids(t)|
    requires Leaves(Kids(t)[i].1) != [] && Stored(Null, Leaves(Kids(t)[i].1)) == Kids(t)[i].1
    ensures Stored(Front(t, i), Under(Kids(t)[i].0, Leaves(Kids(t)[i].1))) == Front(t, i + 1)
  {
    var name, kid := Kids(t)[i].0, Kids(t)[i].1;
    assert GoodName(t, name);
    if t.Map? {
      FrontGrowsMap(t, i);
      StoredUnderField(Front(t, i), name, Leaves(kid));
    } else {
      StoreItem(t, i, kid);
    }
  }

  lemma StoreItem(t: QVar, i: nat, kid: QVar)
    requires t.List? && i < |t.l| <= INT_MAX + 1 && kid == t.l[i]
    requires Leaves(kid) != [] && Stored(Null, Leaves(kid)) == kid
    ensures Stored(Front(t, i), Under(IndexPart(i), Leaves(kid))) == Front(t, i + 1)
  {
    FrontGrowsList(t, i);
    StoredUnderIndex(Front(t, i), i, Leaves(kid));
  }

  lemma FrontGrowsList(t: QVar, i: nat)
    requires t.List? && i < |t.l|
    ensures |Items(Front(t, i))| == i
    ensures Front(t, i) == if i == 0 then Null else List(Items(Front(t, i)))
    ensures Front(t, i + 1) == List(Items(Front(t, i)) + [t.l[i]])
  {
    assert t.l[..0] == [];
    assert t.l[..i + 1] == t.l[..i] + [t.l[i]];
  }

  // -- from parts to keys

  /** A path that starts with a child of `t` and holds no colon. */
  ghost predicate LeafPath(t: QVar, path: Path) {
    path != [] && ColonFree(path) && NameBefore(t, |Kids(t)|, path[0])
  }

  lemma {:induction false} LeafPathsColonFree(t: QVar, n: nat)
    requires Regular(t) && n < |Leaves(t)|
    ensures ColonFree(Leaves(t)[n].path)
    ensures IsContainer(t) ==> LeafPath(t, Leaves(t)[n].path)
    decreases t, |Kids(t)| + 1
  {
    if IsContainer(t) {
      LeafPathsColonFreeFrom(t, 0, n);
    }
  }

  lemma {:induction false} LeafPathsColonFreeFrom(t: QVar, i: nat, n: nat)
    requires Regular(t) && IsContainer(t) && i <= |Kids(t)| && n < |LeavesFrom(t, i)|
    ensures LeafPath(t, LeavesFrom(t, i)[n].path)
    decreases t, |Kids(t)| - i
  {
    var name, kid := Kids(t)[i].0, Kids(t)[i].1;
    var mine := Under(name, Leaves(kid));
    if n < |mine| {
      LeafPathsColonFree(kid, n);
      LeafPathUnder(t, i, n);
      assert LeavesFrom(t, i)[n] == mine[n];
    } else {
      LeafPathsColonFreeFrom(t, i + 1, n - |mine|);
      assert LeavesFrom(t, i)[n] == LeavesFrom(t, i + 1)[n - |mine|];
    }
  }

  lemma LeafPathUnder(t: QVar, i: nat, n: nat)
    requires Regular(t) && IsContainer(t) && i < |Kids(t)| && n < |Leaves(Kids(t)[i].1)|
    requires ColonFree(Leaves(Kids(t)[i].1)[n].path)
    ensures LeafPath(t, Under(Kids(t)[i].0, Leaves(Kids(t)[i].1))[n].path)
  {
    UnderAt(Kids(t)[i].0, Leaves(Kids(t)[i].1), n);
    NameColonFree(t, i);
    assert 0 <= i < |Kids(t)|;
  }

  lemma NameColonFree(t: QVar, i: nat)
    requires Regular(t) && IsContainer(t) && i < |Kids(t)|
    ensures ':' !in Kids(t)[i].0
  {
    assert GoodName(t, Kids(t)[i].0);
    if t.List? {
      assert Kids(t)[i].0 == "[" + Dec(i) + "]";
    }
  }

  /** No key on the top level is empty; such a key would be taken for the colon that may lead a path. */
  predicate NoEmptyTopKey(t: QVar) {
    t.Map? ==> "" !in t.m
  }

  lemma {:induction false} RebuiltIsStored(out: QVar, entries: seq<Entry>)
    requires forall n :: 0 <= n < |entries| ==> GoodPath(entries[n].path)
    ensures Rebuilt(out, Rows(entries)) == Stored(out, entries)
    decreases |entries|
  {
    if entries != [] {
      assert GoodPath(entries[0].path);
      PartsOfJoined(entries[0].path);
      assert Rows(entries)[1..] == Rows(entries[1..]);
      RebuiltIsStored(Put(out, entries[0].path, entries[0].value), entries[1..]);
    }
  }

  predicate GoodPath(path: Path) {
    path != [] && ColonFree(path) && path[0] != ""
  }

  /** Unflatten undoes the true listing of every regular container without an empty key on top. */
  lemma RoundTrip(t: QVar)
    requires IsContainer(t) && Regular(t) && NoEmptyTopKey(t)
    ensures Rebuilt(Null, Flatten.TrueRows(t)) == t
  {
    forall n | 0 <= n < |Leaves(t)| ensures GoodPath(Leaves(t)[n].path) {
      LeafPathsColonFree(t, n);
      var j :| 0 <= j < |Kids(t)| && Kids(t)[j].0 == Leaves(t)[n].path[0];
      if t.List? {
        assert Kids(t)[j].0 == "[" + Dec(j) + "]";
      }
    }
    RebuiltIsStored(Null, Leaves(t));
    StoredLeaves(t);
  }

  // ---------------------------------------------------------------- only regular trees come back

  lemma {:induction false} PutRegular(level: QVar, path: Path, v: QVar)
    requires Regular(level) && ColonFree(path) && !IsContainer(v)
    ensures Regular(Put(level, path, v))
    ensures path != [] ==> IsContainer(Put(level, path, v))
    decreases |path|
  {
    if path != [] {
      if IsIndex(path[0]) {
        PutIndexRegular(level, path, v);
      } else {
        PutFieldRegular(level, path, v);
      }
    }
  }

  lemma {:induction false} PutIndexRegular(level: QVar, path: Path, v: QVar)
    requires Regular(level) && ColonFree(path) && !IsContainer(v) && path != [] && IsIndex(path[0])
    ensures Regular(Put(level, path, v))
    decreases |path|, 0
  {
    var idx := IndexOfPart(path[0]);
    var l := Padded(Items(level), idx + 1);
    RegularItems(level);
    assert Regular(l[idx]);
    PutRegular(l[idx], path[1..], v);
    var l' := l[idx := Put(l[idx], path[1..], v)];
    forall i | 0 <= i < |l'| ensures Regular(l'[i]) {
    }
    RegularList(l');
  }

  lemma {:induction false} PutFieldRegular(level: QVar, path: Path, v: QVar)
    requires Regular(level) && ColonFree(path) && !IsContainer(v) && path != [] && !IsIndex(path[0])
    ensures Regular(Put(level, path, v))
    decreases |path|, 0
  {
    var m := Fields(level);
    RegularFields(level);
    PutRegular(Field(m, path[0]), path[1..], v);
    var m' := m[path[0] := Put(Field(m, path[0]), path[1..], v)];
    assert path[0] in m';
    RegularMap(m');
  }

  lemma RegularItems(level: QVar)
    requires Regular(level)
    ensures |Items(level)| <= INT_MAX + 1
    ensures forall i :: 0 <= i < |Items(level)| ==> Regular(Items(level)[i])
  {
    forall i | 0 <= i < |Items(level)| ensures Regular(Items(level)[i]) {
      assert Kids(level)[i].1 == level.l[i];
    }
  }

  lemma RegularList(l: seq<QVar>)
    requires l != [] && |l| <= INT_MAX + 1 && forall i :: 0 <= i < |l| ==> Regular(l[i])
    ensures Regular(List(l))
  {
    var t := List(l);
    forall i | 0 <= i < |Kids(t)| ensures GoodName(t, Kids(t)[i].0) && Regular(Kids(t)[i].1) {
      assert Kids(t)[i].1 == l[i];
    }
  }

  ghost predicate RegularField(m: map<string, QVar>, k: string)
    requires k in m
  {
    ':' !in k && !IsIndex(k) && Regular(m[k])
  }

  lemma RegularFields(level: QVar)
    requires Regular(level)
    ensures forall k :: k in Fields(level) ==> RegularField(Fields(level), k)
  {
    forall k | k in Fields(level) ensures RegularField(Fields(level), k) {
      EveryNameOccurs(level.m, k);
      var j :| 0 <= j < |level.m| && Kids(level)[j].0 == k;
      assert GoodName(level, Kids(level)[j].0) && Regular(Kids(level)[j].1);
    }
  }

  lemma RegularMap(m: map<string, QVar>)
    requires m != map[] && forall k :: k in m ==> RegularField(m, k)
    ensures Regular(Map(m))
  {
    var t := Map(m);
    assert |m| > 0;
    forall i | 0 <= i < |Kids(t)| ensures GoodName(t, Kids(t)[i].0) && Regular(Kids(t)[i].1) {
      assert RegularField(m, Kids(t)[i].0);
    }
  }

  lemma {:induction false} RebuiltRegular(out: QVar, rows: seq<Row>)
    requires Regular(out) && forall i :: 0 <= i < |rows| ==> !IsContainer(rows[i].value)
    ensures Regular(Rebuilt(out, rows))
    decreases |rows|
  {
    if rows != [] {
      var path := Parts(rows[0].key);
      if path != [] {
        SplitColonFree(if rows[0].key[0] == ':' then rows[0].key[1..] else rows[0].key, 0);
        PutRegular(out, path, rows[0].value);
        RebuiltRegular(Put(out, path, rows[0].value), rows[1..]);
      } else {
        RebuiltRegular(out, rows[1..]);
      }
    }
  }

  lemma {:induction false} LeavesAreLeaves(t: QVar, n: nat)
    requires n < |Leaves(t)|
    ensures !IsContainer(Leaves(t)[n].value)
    decreases t, |Kids(t)| + 1
  {
    if IsContainer(t) {
      LeavesAreLeavesFrom(t, 0, n);
    }
  }

  lemma {:induction false} LeavesAreLeavesFrom(t: QVar, i: nat, n: nat)
    requires i <= |Kids(t)| && n < |LeavesFrom(t, i)|
    ensures !IsContainer(LeavesFrom(t, i)[n].value)
    decreases t, |Kids(t)| - i
  {
    var name, kid := Kids(t)[i].0, Kids(t)[i].1;
    var mine := Under(name, Leaves(kid));
    if n < |mine| {
      UnderAt(name, Leaves(kid), n);
      LeavesAreLeaves(kid, n);
      assert LeavesFrom(t, i)[n] == mine[n];
    } else {
      LeavesAreLeavesFrom(t, i + 1, n - |mine|);
      assert LeavesFrom(t, i)[n] == LeavesFrom(t, i + 1)[n - |mine|];
    }
  }

  // -- an empty key on top never comes back

  /** How far the empty key leads down from the root. */
  ghost function Spine(t: QVar): nat
    decreases t
  {
    if t.Map? && "" in t.m then 1 + Spine(t.m[""]) else 0
  }

  /** How many empty parts lead a path. */
  ghost function Lead(path: Path): nat {
    if path != [] && path[0] == "" then 1 + Lead(path[1..]) else 0
  }

  lemma {:induction false} PutSpine(level: QVar, path: Path, v: QVar, bound: nat)
    requires !IsContainer(v) && Spine(level) <= bound && Lead(path) <= bound
    ensures Spine(Put(level, path, v)) <= bound
    decreases |path|
  {
    if path != [] && path[0] == "" {
      PutSpine(Field(Fields(level), ""), path[1..], v, bound - 1);
    }
  }

  lemma {:induction false} RebuiltSpine(out: QVar, rows: seq<Row>, bound: nat)
    requires Spine(out) <= bound
    requires forall i :: 0 <= i < |rows| ==> !IsContainer(rows[i].value) && Lead(Parts(rows[i].key)) <= bound
    ensures Spine(Rebuilt(out, rows)) <= bound
    decreases |rows|
  {
    if rows != [] {
      var path := Parts(rows[0].key);
      PutSpine(out, path, rows[0].value, bound);
      RebuiltSpine(if path == [] then out else Put(out, path, rows[0].value), rows[1..], bound);
    }
  }

  lemma {:induction false} LeafLead(t: QVar, n: nat)
    requires n < |Leaves(t)|
    ensures Lead(Leaves(t)[n].path) <= Spine(t)
    decreases t, |Kids(t)| + 1
  {
    if IsContainer(t) {
      LeafLeadFrom(t, 0, n);
    }
  }

  lemma {:induction false} LeafLeadFrom(t: QVar, i: nat, n: nat)
    requires i <= |Kids(t)| && n < |LeavesFrom(t, i)|
    ensures Lead(LeavesFrom(t, i)[n].path) <= Spine(t)
    decreases t, |Kids(t)| - i
  {
    var name, kid := Kids(t)[i].0, Kids(t)[i].1;
    var mine := Under(name, Leaves(kid));
    if n < |mine| {
      UnderAt(name, Leaves(kid), n);
      LeafLead(kid, n);
      LeadOfChild(t, i, Leaves(kid)[n].path);
      assert LeavesFrom(t, i)[n] == mine[n];
    } else {
      LeafLeadFrom(t, i + 1, n - |mine|);
      assert LeavesFrom(t, i)[n] == LeavesFrom(t, i + 1)[n - |mine|];
    }
  }

  lemma LeadOfChild(t: QVar, i: nat, path: Path)
    requires i < |Kids(t)| && Lead(path) <= Spine(Kids(t)[i].1)
    ensures Lead([Kids(t)[i].0] + path) <= Spine(t)
  {
    assert ([Kids(t)[i].0] + path)[1..] == path;
    if t.List? {
      assert Kids(t)[i].0 == "[" + Dec(i) + "]";
    }
  }

  /** Joining a path and taking it apart again loses one leading empty part, and nothing else. */
  lemma PartsLead(path: Path)
    requires path != [] && ColonFree(path)
    ensures Lead(Parts(Joined(path))) == if Lead(path) == 0 then 0 else Lead(path) - 1
  {
    if path[0] != "" {
      PartsOfJoined(path);
    } else if |path| > 1 {
      var rest := Joined(path[1..]);
      assert Joined(path)[1..] == rest && Joined(path)[0] == ':' && rest[0..] == rest;
      SplitJoined(rest, 0, path[1..]);
    }
  }

  lemma EmptyTopKeyLost(t: QVar)
    requires IsContainer(t) && Regular(t) && !NoEmptyTopKey(t)
    ensures Rebuilt(Null, Flatten.TrueRows(t)) != t
  {
    var rows := Flatten.TrueRows(t);
    forall n | 0 <= n < |rows| ensures !IsContainer(rows[n].value) && Lead(Parts(rows[n].key)) <= Spine(t) - 1 {
      RowsAt(Leaves(t), n);
      LeavesAreLeaves(t, n);
      LeafPathsColonFree(t, n);
      LeafLead(t, n);
      PartsLead(Leaves(t)[n].path);
    }
    RebuiltSpine(Null, rows, Spine(t) - 1);
  }

  /** The true listing of a tree rebuilds it exactly when it is a regular container without an empty key
      on top (or nothing at all). */
  lemma RoundTripIff(t: QVar)
    ensures Rebuilt(Null, Flatten.TrueRows(t)) == t <==> t == Null || (IsContainer(t) && Regular(t) && NoEmptyTopKey(t))
  {
    if !IsContainer(t) {
      assert Flatten.TrueRows(t) == [Row("", t)];
    } else if !Regular(t) {
      forall n | 0 <= n < |Leaves(t)| ensures !IsContainer(Flatten.TrueRows(t)[n].value) {
        LeavesAreLeaves(t, n);
        RowsAt(Leaves(t), n);
      }
      RebuiltRegular(Null, Flatten.TrueRows(t));
    } else if NoEmptyTopKey(t) {
      RoundTrip(t);
    } else {
      EmptyTopKeyLost(t);
    }
  }

  /** Flatten and Unflatten as they are: a regular and clean tree comes back. */
  lemma FlattenRoundTrip(t: QVar)
    requires IsContainer(t) && Regular(t) && NoEmptyTopKey(t) && Flatten.Clean(t)
    ensures Rebuilt(Null, Flatten.Walk(t, "").rows) == t
  {
    Flatten.FlattenTrueIff(t);
    RoundTrip(t);
  }
}
