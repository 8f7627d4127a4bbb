/**
 Flatten keeps one path buffer for the whole walk and cuts it back after each child. After a container
 child it cuts back too little: the keys that follow carry what was left.
 */
module Flatten {
  import opened Variants
  import opened KeyOrder
  import opened TreePaths

  // ---------------------------------------------------------------- the walk with its buffer

  /** The rows a walk adds, and the path buffer it leaves. */
  datatype Walked = Walked(rows: seq<Row>, path: string)

  ghost function Walk(t: QVar, path: string): (w: Walked)
    ensures |w.path| >= if path == "" || IsContainer(t) then |path| else |path| - 1
    decreases t, |Kids(t)| + 1
  {
    if IsContainer(t) then WalkFrom(t, 0, path)
    else
      var key := if path == "" then "" else path[..|path| - 1];
      Walked([Row(key, t)], key)
  }

  ghost function WalkFrom(t: QVar, i: nat, path: string): (w: Walked)
    requires i <= |Kids(t)|
    ensures |w.path| >= |path|
    decreases t, |Kids(t)| - i
  {
    if i == |Kids(t)| then Walked([], path)
    else
      var child := WalkChild(Kids(t)[i].1, path, Kids(t)[i].0);
      var rest := WalkFrom(t, i + 1, child.path);
      Walked(child.rows + rest.rows, rest.path)
  }

  /** The walk over one child and the cut after it. */
  ghost function WalkChild(kid: QVar, path: string, name: string): (w: Walked)
    ensures |w.path| >= |path|
    decreases kid, |Kids(kid)| + 2
  {
    var part := name + ":";
    var child := Walk(kid, path + part);
    Walked(child.rows, child.path[..|child.path| - |part| + 1])
  }

  class Flattener {
    var out: seq<Row>
    var path: string

    constructor ()
      ensures out == [] && path == ""
    {
      out, path := [], "";
    }

    method Visit(input: QVar)
      modifies this
      ensures path == Walk(input, old(path)).path
      ensures out == old(out) + Walk(input, old(path)).rows
      decreases input, 1
    {
      match input {
        case Map(m) =>
          VisitMap(m, input);
        case List(l) =>
          VisitList(l, input);
        case _ =>
          if |path| > 0 {
            path := path[..|path| - 1];
          }
          out := out + [Row(path, input)];
      }
    }

    method VisitMap(m: map<string, QVar>, ghost input: QVar)
      requires input == Map(m)
      modifies this
      ensures path == WalkFrom(input, 0, old(path)).path
      ensures out == old(out) + WalkFrom(input, 0, old(path)).rows
      decreases input, 0
    {
      var keys := KeysInOrder(m.Keys);
      assert forall i :: 0 <= i < |keys| ==> keys[i] in keys;
      ghost var whole := WalkFrom(input, 0, path);
      for i := 0 to |keys|
        invariant |keys| == |Kids(input)|
        invariant StillToWalk(input, i, old(out), whole, out, path)
      {
        assert Kids(input)[i] == (keys[i], m[keys[i]]);
        WalkOneMore(input, i, old(out), whole, out, path);
        VisitChild(keys[i], m[keys[i]]);
      }
      assert out + [] == out;
    }

    method VisitList(l: seq<QVar>, ghost input: QVar)
      requires input == List(l)
      modifies this
      ensures path == WalkFrom(input, 0, old(path)).path
      ensures out == old(out) + WalkFrom(input, 0, old(path)).rows
      decreases input, 0
    {
      ghost var whole := WalkFrom(input, 0, path);
      for i := 0 to |l|
        invariant StillToWalk(input, i, old(out), whole, out, path)
      {
        assert Kids(input)[i] == (IndexPart(i), l[i]);
        WalkOneMore(input, i, old(out), whole, out, path);
        VisitChild("[" + Dec(i) + "]", l[i]);
      }
      assert out + [] == out;
    }

    method VisitChild(name: string, kid: QVar)
      modifies this
      ensures
        var child := WalkChild(kid, old(path), name);
        path == child.path && out == old(out) + child.rows
      decreases kid, 2
    {
      var part := name + ":";
      path := path + part;
      Visit(kid);
      path := path[..|path| - |part| + 1];
    }
  }

  /** The rows so far and the walk over the children from `i` on make up the whole walk. */
  ghost predicate StillToWalk(t: QVar, i: nat, before: seq<Row>, whole: Walked, out: seq<Row>, path: string) {
    && i <= |Kids(t)|
    && out + WalkFrom(t, i, path).rows == before + whole.rows
    && WalkFrom(t, i, path).path == whole.path
  }

  lemma WalkOneMore(t: QVar, i: nat, before: seq<Row>, whole: Walked, out: seq<Row>, path: string)
    requires StillToWalk(t, i, before, whole, out, path) && i < |Kids(t)|
    ensures
      var child := WalkChild(Kids(t)[i].1, path, Kids(t)[i].0);
      StillToWalk(t, i + 1, before, whole, out + child.rows, child.path)
  {
    var child := WalkChild(Kids(t)[i].1, path, Kids(t)[i].0);
    var rest := WalkFrom(t, i + 1, child.path).rows;
    WalkFromStep(t, i, path);
    Assoc(out, child.rows, rest);
  }

  lemma WalkFromStep(t: QVar, i: nat, path: string)
    requires i < |Kids(t)|
    ensures
      var child := WalkChild(Kids(t)[i].1, path, Kids(t)[i].0);
      var rest := WalkFrom(t, i + 1, child.path);
      WalkFrom(t, i, path) == Walked(child.rows + rest.rows, rest.path)
  {
  }

  lemma Assoc<T>(a: seq<T>, b: seq<T>, c: seq<T>)
    ensures (a + b) + c == a + (b + c)
  {
  }

  /** Cutting back after a leaf restores the buffer. */
  lemma LeafRestores(path: string, name: string, kid: QVar)
    requires !IsContainer(kid)
    ensures WalkChild(kid, path, name).path == path
  {
    var part := name + ":";
    var whole := path + part;
    assert whole[..|whole| - 1][..|path|] == path;
  }

  // ---------------------------------------------------------------- the true paths

  ghost function TrueRows(t: QVar): seq<Row> {
    Rows(Leaves(t))
  }

  ghost predicate HasLeaf(t: QVar)
    decreases t, |Kids(t)| + 1
  {
    !IsContainer(t) || HasLeafFrom(t, 0)
  }

  ghost predicate HasLeafFrom(t: QVar, i: nat)
    requires i <= |Kids(t)|
    decreases t, |Kids(t)| - i
  {
    i < |Kids(t)| && (HasLeaf(Kids(t)[i].1) || HasLeafFrom(t, i + 1))
  }

  /** No container child has a later sibling that holds a leaf, here or further down. */
  ghost predicate Clean(t: QVar)
    decreases t, |Kids(t)| + 1
  {
    IsContainer(t) ==> CleanFrom(t, 0)
  }

  ghost predicate CleanFrom(t: QVar, i: nat)
    requires i <= |Kids(t)|
    decreases t, |Kids(t)| - i
  {
    i < |Kids(t)| ==>
      && Clean(Kids(t)[i].1)
      && (IsContainer(Kids(t)[i].1) ==> !HasLeafFrom(t, i + 1))
      && CleanFrom(t, i + 1)
  }

  /** The rows of the true listing below a prefix that ends in ':' (or is empty at the root). */
  ghost function Prefixed(prefix: string, entries: seq<Entry>): (rows: seq<Row>)
    ensures |rows| == |entries|
  {
    if entries == [] then [] else [PrefixedRow(prefix, entries[0])] + Prefixed(prefix, entries[1..])
  }

  lemma {:induction false} PrefixedAt(prefix: string, entries: seq<Entry>, i: nat)
    requires i < |entries|
    ensures Prefixed(prefix, entries)[i] == PrefixedRow(prefix, entries[i])
    decreases i
  {
    if i > 0 {
      PrefixedAt(prefix, entries[1..], i - 1);
    }
  }

  function PrefixedRow(prefix: string, e: Entry): Row {
    Row(if e.path != [] then prefix + Joined(e.path) else if prefix == "" then "" else prefix[..|prefix| - 1], e.value)
  }

  lemma PrefixedRowUnder(prefix: string, part: string, e: Entry)
    ensures PrefixedRow(prefix, Entry([part] + e.path, e.value)) == PrefixedRow(prefix + part + ":", e)
  {
    assert ([part] + e.path)[1..] == e.path;
    var p := prefix + part + ":";
    assert p[..|p| - 1] == prefix + part;
    if e.path != [] {
      assert prefix + (part + ":" + Joined(e.path)) == p + Joined(e.path);
    }
  }

  lemma {:induction false} PrefixedUnder(prefix: string, part: string, entries: seq<Entry>)
    ensures Prefixed(prefix, Under(part, entries)) == Prefixed(prefix + part + ":", entries)
    decreases |entries|
  {
    if entries != [] {
      PrefixedRowUnder(prefix, part, entries[0]);
      PrefixedUnder(prefix, part, entries[1..]);
      assert Under(part, entries)[1..] == Under(part, entries[1..]);
    }
  }

  lemma {:induction false} PrefixedAppend(prefix: string, a: seq<Entry>, b: seq<Entry>)
    ensures Prefixed(prefix, a + b) == Prefixed(prefix, a) + Prefixed(prefix, b)
    decreases |a|
  {
    if a == [] {
      assert a + b == b;
    } else {
      assert (a + b)[1..] == a[1..] + b;
      PrefixedAppend(prefix, a[1..], b);
    }
  }

  lemma TrueRowsPrefixed(t: QVar)
    ensures Prefixed("", Leaves(t)) == TrueRows(t)
  {
    var a, b := Prefixed("", Leaves(t)), TrueRows(t);
    forall i | 0 <= i < |a| ensures a[i] == b[i] {
      PrefixedAt("", Leaves(t), i);
      RowsAt(Leaves(t), i);
      assert "" + Joined(Leaves(t)[i].path) == Joined(Leaves(t)[i].path);
    }
  }

  // ---------------------------------------------------------------- clean trees flatten truly

  lemma {:induction false} NoLeafNoRows(t: QVar, path: string)
    requires !HasLeaf(t)
    ensures Walk(t, path).rows == [] && Leaves(t) == []
    decreases t, |Kids(t)| + 1
  {
    NoLeafNoRowsFrom(t, 0, path);
  }

  lemma {:induction false} NoLeafNoRowsFrom(t: QVar, i: nat, path: string)
    requires i <= |Kids(t)| && !HasLeafFrom(t, i)
    ensures WalkFrom(t, i, path).rows == [] && LeavesFrom(t, i) == []
    decreases t, |Kids(t)| - i
  {
    if i < |Kids(t)| {
      NoLeafNoRows(Kids(t)[i].1, path + (Kids(t)[i].0 + ":"));
      NoLeafNoRowsFrom(t, i + 1, WalkChild(Kids(t)[i].1, path, Kids(t)[i].0).path);
      WalkFromStep(t, i, path);
    }
  }

  lemma {:induction false} CleanWalk(t: QVar, prefix: string)
    requires Clean(t)
    ensures Walk(t, prefix).rows == Prefixed(prefix, Leaves(t))
    decreases t, |Kids(t)| + 1
  {
    if IsContainer(t) {
      CleanWalkFrom(t, 0, prefix);
    } else {
      assert Prefixed(prefix, [Entry([], t)]) == [PrefixedRow(prefix, Entry([], t))];
    }
  }

  lemma {:induction false} CleanWalkFrom(t: QVar, i: nat, prefix: string)
    requires i <= |Kids(t)| && CleanFrom(t, i)
    ensures WalkFrom(t, i, prefix).rows == Prefixed(prefix, LeavesFrom(t, i))
    decreases t, |Kids(t)| - i
  {
    if i < |Kids(t)| {
      var kid := Kids(t)[i].1;
      CleanWalk(kid, prefix + (Kids(t)[i].0 + ":"));
      if IsContainer(kid) {
        NoLeafNoRowsFrom(t, i + 1, WalkChild(kid, prefix, Kids(t)[i].0).path);
      } else {
        LeafRestores(prefix, Kids(t)[i].0, kid);
        CleanWalkFrom(t, i + 1, prefix);
      }
      CleanStep(t, i, prefix);
    }
  }

  lemma CleanStep(t: QVar, i: nat, prefix: string)
    requires i < |Kids(t)|
    requires
      var (name, kid) := Kids(t)[i];
      && Walk(kid, prefix + (name + ":")).rows == Prefixed(prefix + (name + ":"), Leaves(kid))
      && WalkFrom(t, i + 1, WalkChild(kid, prefix, name).path).rows == Prefixed(prefix, LeavesFrom(t, i + 1))
    ensures WalkFrom(t, i, prefix).rows == Prefixed(prefix, LeavesFrom(t, i))
  {
    WalkFromStep(t, i, prefix);
    TrueStep(t, i, prefix);
  }

  lemma TrueStep(t: QVar, i: nat, prefix: string)
    requires i < |Kids(t)|
    ensures
      var (name, kid) := Kids(t)[i];
      Prefixed(prefix, LeavesFrom(t, i))
        == Prefixed(prefix + (name + ":"), Leaves(kid)) + Prefixed(prefix, LeavesFrom(t, i + 1))
  {
    var (name, kid) := Kids(t)[i];
    Assoc(prefix, name, ":");
    PrefixedUnder(prefix, name, Leaves(kid));
    PrefixedAppend(prefix, Under(name, Leaves(kid)), LeavesFrom(t, i + 1));
  }

  // ---------------------------------------------------------------- other trees do not

  function KeyChars(rows: seq<Row>): nat {
    if rows == [] then 0 else |rows[0].key| + KeyChars(rows[1..])
  }

  lemma {:induction false} KeyCharsAppend(a: seq<Row>, b: seq<Row>)
    ensures KeyChars(a + b) == KeyChars(a) + KeyChars(b)
    decreases |a|
  {
    if a == [] {
      assert a + b == b;
    } else {
      assert (a + b)[1..] == a[1..] + b;
      KeyCharsAppend(a[1..], b);
    }
  }

  /** The keys of a walk are never shorter than the true ones; they are longer in all if the buffer
      already is and a leaf follows, or if the tree is not clean. */
  lemma {:induction false} WalkTooLong(t: QVar, path: string, prefix: string)
    requires if prefix == "" then path == "" else |path| >= |prefix|
    ensures KeyChars(Walk(t, path).rows) >= KeyChars(Prefixed(prefix, Leaves(t)))
    ensures (|path| > |prefix| && HasLeaf(t)) || !Clean(t) ==>
      KeyChars(Walk(t, path).rows) > KeyChars(Prefixed(prefix, Leaves(t)))
    decreases t, |Kids(t)| + 1
  {
    if IsContainer(t) {
      WalkTooLongFrom(t, 0, path, prefix);
    } else {
      assert Prefixed(prefix, [Entry([], t)]) == [PrefixedRow(prefix, Entry([], t))];
      assert KeyChars([PrefixedRow(prefix, Entry([], t))]) == |PrefixedRow(prefix, Entry([], t)).key|;
      assert KeyChars(Walk(t, path).rows) == |Walk(t, path).rows[0].key|;
    }
  }

  lemma {:induction false} WalkTooLongFrom(t: QVar, i: nat, path: string, prefix: string)
    requires i <= |Kids(t)| && |path| >= |prefix|
    ensures KeyChars(WalkFrom(t, i, path).rows) >= KeyChars(Prefixed(prefix, LeavesFrom(t, i)))
    ensures (|path| > |prefix| && HasLeafFrom(t, i)) || !CleanFrom(t, i) ==>
      KeyChars(WalkFrom(t, i, path).rows) > KeyChars(Prefixed(prefix, LeavesFrom(t, i)))
    decreases t, |Kids(t)| - i
  {
    if i < |Kids(t)| {
      var name, kid := Kids(t)[i].0, Kids(t)[i].1;
      var next := WalkChild(kid, path, name).path;
      BufferNeverShrinks(path, name, kid);
      WalkTooLong(kid, path + (name + ":"), prefix + (name + ":"));
      WalkTooLongFrom(t, i + 1, next, prefix);
      WalkChars(t, i, path);
      TrueChars(t, i, prefix);
      TooLongSum(
        KeyChars(Walk(kid, path + (name + ":")).rows), KeyChars(WalkFrom(t, i + 1, next).rows),
        KeyChars(Prefixed(prefix + (name + ":"), Leaves(kid))), KeyChars(Prefixed(prefix, LeavesFrom(t, i + 1))),
        |path| > |prefix|, |next| > |prefix|, HasLeaf(kid), HasLeafFrom(t, i + 1),
        Clean(kid), CleanFrom(t, i + 1), IsContainer(kid));
    }
  }

  /** Adding up what the first child and the others contribute. */
  lemma TooLongSum(a: nat, a': nat, b: nat, b': nat, longer: bool, longer': bool, leaf: bool, leaf': bool,
                   clean: bool, clean': bool, container: bool)
    requires a >= b && a' >= b'
    requires (longer && leaf) || !clean ==> a > b
    requires (longer' && leaf') || !clean' ==> a' > b'
    requires longer || container ==> longer'
    ensures a + a' >= b + b'
    ensures (longer && (leaf || leaf')) || !(clean && (container ==> !leaf') && clean') ==> a + a' > b + b'
  {
  }

  lemma BufferNeverShrinks(path: string, name: string, kid: QVar)
    ensures |WalkChild(kid, path, name).path| >= |path|
    ensures IsContainer(kid) ==> |WalkChild(kid, path, name).path| > |path|
  {
  }

  lemma WalkChars(t: QVar, i: nat, path: string)
    requires i < |Kids(t)|
    ensures
      var (name, kid) := Kids(t)[i];
      KeyChars(WalkFrom(t, i, path).rows) ==
        KeyChars(Walk(kid, path + (name + ":")).rows)
        + KeyChars(WalkFrom(t, i + 1, WalkChild(kid, path, name).path).rows)
  {
    var name, kid := Kids(t)[i].0, Kids(t)[i].1;
    WalkFromStep(t, i, path);
    KeyCharsAppend(Walk(kid, path + (name + ":")).rows, WalkFrom(t, i + 1, WalkChild(kid, path, name).path).rows);
  }

  lemma TrueChars(t: QVar, i: nat, prefix: string)
    requires i < |Kids(t)|
    ensures
      var (name, kid) := Kids(t)[i];
      KeyChars(Prefixed(prefix, LeavesFrom(t, i))) ==
        KeyChars(Prefixed(prefix + (name + ":"), Leaves(kid))) + KeyChars(Prefixed(prefix, LeavesFrom(t, i + 1)))
  {
    var (name, kid) := Kids(t)[i];
    TrueStep(t, i, prefix);
    KeyCharsAppend(Prefixed(prefix + (name + ":"), Leaves(kid)), Prefixed(prefix, LeavesFrom(t, i + 1)));
  }

  /** Flatten lists every leaf under its true path exactly when the tree is clean. */
  lemma FlattenTrueIff(t: QVar)
    ensures Walk(t, "").rows == TrueRows(t) <==> Clean(t)
  {
    TrueRowsPrefixed(t);
    if Clean(t) {
      CleanWalk(t, "");
    } else {
      WalkTooLong(t, "", "");
    }
  }

  /** How much the buffer grows over a child: nothing over a leaf, at least one character over a
      container; over a container it grows by that much more than over all its children. */
  ghost function Excess(t: QVar): (n: int)
    ensures n >= -1 && (IsContainer(t) ==> n >= 0)
    decreases t, |Kids(t)| + 1
  {
    if IsContainer(t) then ExcessFrom(t, 0) else -1
  }

  ghost function ExcessFrom(t: QVar, i: nat): nat
    requires i <= |Kids(t)|
    decreases t, |Kids(t)| - i
  {
    if i == |Kids(t)| then 0 else Excess(Kids(t)[i].1) + 1 + ExcessFrom(t, i + 1)
  }

  /** What is left in the buffer: its old contents, and after them the excess, which depends on the
      shape of the tree alone. */
  lemma {:induction false} BufferExcess(t: QVar, path: string)
    requires path != "" || IsContainer(t)
    ensures |Walk(t, path).path| == |path| + Excess(t)
    ensures path[..|path| - 1 + if IsContainer(t) then 1 else 0] <= Walk(t, path).path
    decreases t, |Kids(t)| + 1
  {
    if IsContainer(t) {
      BufferExcessFrom(t, 0, path);
    }
  }

  lemma {:induction false} BufferExcessFrom(t: QVar, i: nat, path: string)
    requires i <= |Kids(t)|
    ensures |WalkFrom(t, i, path).path| == |path| + ExcessFrom(t, i)
    ensures path <= WalkFrom(t, i, path).path
    decreases t, |Kids(t)| - i
  {
    if i < |Kids(t)| {
      ChildBufferExcess(Kids(t)[i].0, Kids(t)[i].1, path);
      BufferExcessFrom(t, i + 1, WalkChild(Kids(t)[i].1, path, Kids(t)[i].0).path);
      ExcessNext(t, i, path);
    }
  }

  lemma {:induction false} ChildBufferExcess(name: string, kid: QVar, path: string)
    ensures |WalkChild(kid, path, name).path| == |path| + Excess(kid) + 1
    ensures path <= WalkChild(kid, path, name).path
    decreases kid, |Kids(kid)| + 2
  {
    BufferExcess(kid, path + (name + ":"));
    ChildExcess(path, name, kid);
  }

  lemma ExcessNext(t: QVar, i: nat, path: string)
    requires i < |Kids(t)|
    requires
      var next := WalkChild(Kids(t)[i].1, path, Kids(t)[i].0).path;
      var last := WalkFrom(t, i + 1, next).path;
      && |next| == |path| + Excess(Kids(t)[i].1) + 1 && path <= next
      && |last| == |next| + ExcessFrom(t, i + 1) && next <= last
    ensures |WalkFrom(t, i, path).path| == |path| + ExcessFrom(t, i)
    ensures path <= WalkFrom(t, i, path).path
  {
    var next := WalkChild(Kids(t)[i].1, path, Kids(t)[i].0).path;
    WalkFromStep(t, i, path);
    PrefixTransitive(path, next, WalkFrom(t, i + 1, next).path);
  }

  lemma ChildExcess(path: string, name: string, kid: QVar)
    requires |Walk(kid, path + (name + ":")).path| == |path + (name + ":")| + Excess(kid)
    requires (path + (name + ":"))[..|path + (name + ":")| - 1 + if IsContainer(kid) then 1 else 0]
      <= Walk(kid, path + (name + ":")).path
    ensures |WalkChild(kid, path, name).path| == |path| + Excess(kid) + 1
    ensures path <= WalkChild(kid, path, name).path
  {
    var after := Walk(kid, path + (name + ":")).path;
    CutKeepsPrefix(path, name + ":", after, if IsContainer(kid) then 1 else 0);
    ChildCut(path, name, kid, after);
  }

  lemma ChildCut(path: string, name: string, kid: QVar, after: string)
    requires Walk(kid, path + (name + ":")).path == after && |after| >= |name|
    ensures WalkChild(kid, path, name).path == after[..|after| - |name + ":"| + 1]
  {
  }

  lemma PrefixTransitive(a: string, b: string, c: string)
    requires a <= b && b <= c
    ensures a <= c
  {
  }

  /** Cutting back after a child keeps what was there before the child. */
  lemma CutKeepsPrefix(path: string, part: string, after: string, more: nat)
    requires part != [] && more <= 1
    requires (path + part)[..|path + part| - 1 + more] <= after
    ensures |after| - |part| + 1 >= |path| && path <= after[..|after| - |part| + 1]
  {
    var kept := (path + part)[..|path + part| - 1 + more];
    assert kept[..|path|] == path;
    assert after[..|kept|] == kept;
    assert after[..|path|] == kept[..|path|];
  }

  /** The smallest tree with a wrong key: {"a": {"x": 1}, "b": 2} lists its "b" as "ab". */
  lemma SiblingOfContainerMislabelled(x: Scalar, y: Scalar)
    ensures
      var t := Map(map["a" := Map(map["x" := Leaf(x)]), "b" := Leaf(y)]);
      Walk(t, "").rows == [Row("a:x", Leaf(x)), Row("ab", Leaf(y))]
  {
    var sub := Map(map["x" := Leaf(x)]);
    var t := Map(map["a" := sub, "b" := Leaf(y)]);
    OuterKids(sub, Leaf(y));
    InnerWalk(x);
    assert "a" + "b" == "ab";
    OneLeafKid(t, 1, "a", "ab");
    WalkFromStep(t, 0, "");
    assert Walk(t, "") == WalkFrom(t, 0, "");
  }

  lemma OuterKids(sub: QVar, leaf: QVar)
    ensures Kids(Map(map["a" := sub, "b" := leaf])) == [("a", sub), ("b", leaf)]
  {
    TwoKeys();
    assert map["a" := sub, "b" := leaf].Keys == {"a", "b"};
  }

  lemma InnerWalk(x: Scalar)
    ensures WalkChild(Map(map["x" := Leaf(x)]), "", "a") == Walked([Row("a:x", Leaf(x))], "a")
  {
    var sub := Map(map["x" := Leaf(x)]);
    OneKey();
    assert sub.m.Keys == {"x"};
    assert Kids(sub) == [("x", Leaf(x))];
    assert "a:" + "x" == "a:x" && "" + ("a" + ":") == "a:" && "a:"[..1] == "a";
    OneLeafKid(sub, 0, "a:", "a:x");
    assert Walk(sub, "a:") == WalkFrom(sub, 0, "a:");
  }

  lemma OneLeafKid(t: QVar, i: nat, path: string, key: string)
    requires |Kids(t)| == i + 1 && !IsContainer(Kids(t)[i].1) && key == path + Kids(t)[i].0
    ensures WalkFrom(t, i, path) == Walked([Row(key, Kids(t)[i].1)], path)
  {
    LeafWalked(Kids(t)[i].0, Kids(t)[i].1, path);
    WalkFromStep(t, i, path);
    assert WalkFrom(t, i + 1, path) == Walked([], path);
  }

  lemma LeafWalked(name: string, kid: QVar, path: string)
    requires !IsContainer(kid)
    ensures WalkChild(kid, path, name) == Walked([Row(path + name, kid)], path)
  {
    var whole := path + (name + ":");
    assert whole[..|whole| - 1] == path + name;
    LeafRestores(path, name, kid);
  }

  lemma TwoKeys()
    ensures SortedKeys({"a", "b"}) == ["a", "b"]
  {
    assert IsLeast({"a", "b"}, "a");
    SortedKeysStep({"a", "b"}, "a");
    assert {"a", "b"} - {"a"} == {"b"};
    assert IsLeast({"b"}, "b");
    SortedKeysStep({"b"}, "b");
    assert {"b"} - {"b"} == {};
  }

  lemma OneKey()
    ensures SortedKeys({"x"}) == ["x"]
  {
    assert IsLeast({"x"}, "x");
    SortedKeysStep({"x"}, "x");
    assert {"x"} - {"x"} == {};
  }
}
