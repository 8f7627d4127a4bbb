/** For which paths get() on a view and get() on its table give the same answers, whatever the message. */
module PathAnswers {
  import opened Variants
  import opened LuaTables
  import opened LazyViews
  import opened LazyRefinement
  import opened PathAccess
  import opened ViewPaths
  import TreePaths

  /** `r` is an answer of get() on the view `w` of a message nobody wrote to; `after` has the views made for it. */
  ghost predicate Asked(s: State, w: nat, path: string, sep: string, after: State, r: Val)
    requires sep != ""
  {
    && Coherent(s) && !s.materialized && w < |s.views|
    && Coherent(after) && after.retained == s.retained
    && Leads(after.views, PathOf(s.views, w), s.views[w].value, ViewKeys(path, sep), r)
  }

  ghost predicate SameAnswer(s: State, r: Val, x: Got)
    requires Linked(s.views)
  {
    match x
    case Undefined => r == Nil
    case Got(v) => SamePlace(s, r, v)
  }

  /** The answer is that of get() on the table of the same position; nil where that one is undefined. */
  ghost predicate Agrees(s: State, w: nat, path: string, sep: string, after: State, r: Val)
    requires sep != "" && Linked(s.views) && w < |s.views| && Linked(after.views)
  {
    SameAnswer(after, r, GetAt(Materialized(s).heap, Msg(PathOf(s.views, w)), path, sep))
  }

  ghost predicate AlwaysAgree(path: string, sep: string)
    requires sep != ""
  {
    forall s: State, w: nat, after: State, r: Val ::
      Asked(s, w, path, sep, after, r) ==> Agrees(s, w, path, sep, after, r)
  }

  lemma WholeAgrees(s: State, w: nat, path: string, sep: string, after: State, r: Val)
    requires sep != "" && IsWhole(path, sep) && Asked(s, w, path, sep, after, r)
    ensures Agrees(s, w, path, sep, after, r)
  {
    ViewIsContainer(s, w);
    assert PathOf(s.views, w) + [] == PathOf(s.views, w);
  }

  // ---------------------------------------------------------------- a path with the index 0

  /** Nothing has an entry 0: lists count from 1. */
  lemma {:induction false} NothingAtZero(t: QVar, keys: seq<Key>)
    requires Num(0) in keys
    ensures Subtree(t, keys).None?
    decreases |keys|
  {
    if keys[0] != Num(0) && Child(t, keys[0]).Some? {
      assert Num(0) in keys[1..];
      NothingAtZero(Child(t, keys[0]).value, keys[1..]);
    }
  }

  lemma ZeroAgrees(s: State, w: nat, path: string, sep: string, after: State, r: Val)
    requires sep != "" && !IsWhole(path, sep) && FindFrom(path, sep, 0) == 0 && Num(0) in KeysAt(path, sep, 0)
    requires Asked(s, w, path, sep, after, r)
    ensures Agrees(s, w, path, sep, after, r)
  {
    var p, t, keys := PathOf(s.views, w), s.views[w].value, KeysAt(path, sep, 0);
    LeadingPart(path, sep);
    assert Num(0) in ViewKeys(path, sep) by {
      var i :| 0 <= i < |keys| && keys[i] == Num(0);
      assert ([Str("")] + keys)[i + 1] == Num(0);
    }
    NothingAtZero(t, ViewKeys(path, sep));
    NothingAtZero(t, keys);
    ViewHoldsItsSubtree(s, w);
    MaterializedHolds(s);
    TableFollowsTree(s.retained, Materialized(s).heap, p, t, keys);
  }

  /** A leading separator is an empty part to a view and no part to a table. */
  lemma LeadingPart(path: string, sep: string)
    requires sep != "" && !IsWhole(path, sep) && FindFrom(path, sep, 0) == 0
    ensures ViewKeys(path, sep) == [Str("")] + KeysAt(path, sep, 0)
  {
    KeysFromStep(path, sep, 0);
    assert path[0..0] == "";
    assert PartKey("") == Str("");
  }

  // ---------------------------------------------------------------- every other path with a leading separator

  /** The keys a path can have: names, and indices from 0 on. */
  ghost predicate PathKeys(keys: seq<Key>) {
    forall i :: 0 <= i < |keys| ==> keys[i].Str? || (keys[i].Num? && keys[i].i >= 0)
  }

  lemma {:induction false} PathHasPathKeys(path: string, sep: string, pos: nat)
    requires sep != "" && pos <= |path|
    ensures PathKeys(KeysFrom(path, sep, pos))
    decreases |path| - pos
  {
    KeysFromStep(path, sep, pos);
    var end := FindFrom(path, sep, pos);
    if end != -1 {
      PathHasPathKeys(path, sep, end + |sep|);
    }
  }

  /** A tree that is one chain along the keys, with a leaf at its end. */
  function Chain(keys: seq<Key>, x: Scalar): QVar
    decreases |keys|
  {
    if keys == [] then Leaf(x)
    else
      var sub := Chain(keys[1..], x);
      match keys[0]
      case Str(name) => Map(map[name := sub])
      case Num(i) => if i < 1 then Null else List(seq(i, j => if j == i - 1 then sub else Null))
      case _ => Null
  }

  lemma {:induction false} ChainHolds(keys: seq<Key>, x: Scalar)
    requires PathKeys(keys) && Num(0) !in keys
    ensures Subtree(Chain(keys, x), keys) == Some(Leaf(x))
    decreases |keys|
  {
    if keys != [] {
      assert keys[0] in keys;
      assert Num(0) !in keys[1..];
      ChainHolds(keys[1..], x);
      assert Child(Chain(keys, x), keys[0]) == Some(Chain(keys[1..], x));
    }
  }

  /** Below the end of the chain there is nothing, whatever keys are followed. */
  lemma {:induction false} ChainEnds(keys: seq<Key>, x: Scalar, more: seq<Key>)
    requires |more| > |keys|
    ensures Subtree(Chain(keys, x), more).None?
    decreases |keys|
  {
    var c := Child(Chain(keys, x), more[0]);
    if keys != [] && c.Some? {
      if c.value == Null {
        assert Child(Null, more[1..][0]).None?;
      } else {
        ChainEnds(keys[1..], x, more[1..]);
      }
    }
  }

  /** The message that tells the two apart. */
  lemma LeadingSeparatorShows(path: string, sep: string, x: Scalar)
    requires sep != "" && !IsWhole(path, sep) && FindFrom(path, sep, 0) == 0 && Num(0) !in KeysAt(path, sep, 0)
    ensures
      var tree := Chain(KeysAt(path, sep, 0), x);
      var s := State(tree, [Root(tree)], false, map[]);
      Asked(s, 0, path, sep, s, Nil) && !Agrees(s, 0, path, sep, s, Nil)
  {
    var keys := KeysAt(path, sep, 0);
    var tree := Chain(keys, x);
    var s := State(tree, [Root(tree)], false, map[]);
    PathHasPathKeys(path, sep, Start(path, sep));
    ChainHolds(keys, x);
    LeadingPart(path, sep);
    ChainEnds(keys, x, ViewKeys(path, sep));
    MaterializedHolds(s);
    PathsAreContainers(tree, []);
    TableFollowsTree(tree, Materialized(s).heap, [], tree, keys);
    if ScalarMidway(tree, keys) {
      ScalarStops(tree, keys);
    }
  }

  /** get() on a view and get() on its table agree for every message if and only if the path is the whole, does
      not start with the separator, or has a part "[0]", under which nothing is ever found. */
  lemma AnswersAgreeIff(path: string, sep: string)
    requires sep != ""
    ensures AlwaysAgree(path, sep) <==>
      IsWhole(path, sep) || FindFrom(path, sep, 0) != 0 || Num(0) in KeysAt(path, sep, 0)
  {
    if IsWhole(path, sep) || FindFrom(path, sep, 0) != 0 || Num(0) in KeysAt(path, sep, 0) {
      forall s: State, w: nat, after: State, r: Val | Asked(s, w, path, sep, after, r)
        ensures Agrees(s, w, path, sep, after, r)
      {
        if IsWhole(path, sep) {
          WholeAgrees(s, w, path, sep, after, r);
        } else if FindFrom(path, sep, 0) != 0 {
          GetPathAgrees(s, w, path, sep, after, r);
        } else {
          ZeroAgrees(s, w, path, sep, after, r);
        }
      }
    } else {
      LeadingSeparatorShows(path, sep, Plain(0));
    }
  }
}
