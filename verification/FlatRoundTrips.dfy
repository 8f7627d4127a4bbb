/** Flatten followed by Unflatten: which trees come back. */
module FlatRoundTrips {
  import opened Variants
  import opened KeyOrder
  import opened TreePaths
  import opened Flatten
  import opened Unflatten

  // ---------------------------------------------------------------- the first part of a key

  function Segment(s: string): string {
    var i := ColonFrom(s, 0);
    if i == -1 then s else s[..i]
  }

  lemma SegmentFirst(s: string)
    ensures SplitFrom(s, 0)[0] == Segment(s)
  {
    assert s[0..] == s;
  }

  /** What follows the first part, after a colon, does not change it. */
  lemma SegmentKept(s: string, more: string)
    requires ':' in s || more == "" || more[0] == ':'
    ensures Segment(s + more) == Segment(s)
  {
    var part := Segment(s);
    if ColonFrom(s, 0) != -1 {
      assert (s + more)[0..|part|] == part;
      FirstColon(s + more, 0, part);
    } else if more != "" {
      assert (s + more)[0..|s|] == s;
      FirstColon(s + more, 0, s);
      assert (s + more)[..|s|] == s;
    } else {
      assert s + more == s;
    }
  }

  lemma SegmentOfPrefix(s: string, k: nat)
    requires k <= |s| && ':' in s[..k]
    ensures Segment(s[..k]) == Segment(s)
  {
    SegmentKept(s[..k], s[k..]);
    assert s[..k] + s[k..] == s;
  }

  lemma SegmentColonFree(s: string)
    requires ':' !in s
    ensures Segment(s) == s
  {
  }

  lemma ColonFreeAppend(a: string, b: string)
    requires ':' !in a && ':' !in b
    ensures ':' !in a + b
  {
  }

  /** The same characters, further down. */
  lemma {:induction false} ColonShift(whole: string, n: nat, s: string, pos: nat)
    requires n <= |whole| && whole[n..] == s && pos <= |s|
    ensures ColonFrom(whole, n + pos) == if ColonFrom(s, pos) == -1 then -1 else n + ColonFrom(s, pos)
    decreases |s| - pos
  {
    if pos < |s| {
      assert whole[n..][pos] == whole[n + pos];
      if s[pos] != ':' {
        ColonShift(whole, n, s, pos + 1);
      }
    }
  }

  lemma {:induction false} SplitShift(whole: string, n: nat, s: string, pos: nat)
    requires n <= |whole| && whole[n..] == s && pos <= |s|
    ensures SplitFrom(whole, n + pos) == SplitFrom(s, pos)
    decreases |s| - pos
  {
    var i := ColonFrom(s, pos);
    ColonShift(whole, n, s, pos);
    if i == -1 {
      SplitEndShift(whole, n, s, pos);
    } else {
      SplitShift(whole, n, s, i + 1);
      SplitStepShift(whole, n, s, pos, i);
    }
  }

  lemma SplitEndShift(whole: string, n: nat, s: string, pos: nat)
    requires n <= |whole| && whole[n..] == s && pos <= |s|
    requires ColonFrom(s, pos) == -1 == ColonFrom(whole, n + pos)
    ensures SplitFrom(whole, n + pos) == SplitFrom(s, pos)
  {
    assert whole[n..][pos..] == whole[n + pos..];
  }

  lemma SplitStepShift(whole: string, n: nat, s: string, pos: nat, i: nat)
    requires n <= |whole| && whole[n..] == s && pos <= i < |s|
    requires ColonFrom(s, pos) == i && ColonFrom(whole, n + pos) == n + i
    requires SplitFrom(whole, n + i + 1) == SplitFrom(s, i + 1)
    ensures SplitFrom(whole, n + pos) == SplitFrom(s, pos)
  {
    var a, b := n + pos, n + i;
    SliceShift(whole, n, s, pos, i);
    calc {
      SplitFrom(whole, a);
    == { SplitStep(whole, a, b); }
      [whole[a..b]] + SplitFrom(whole, b + 1);
    ==
      [s[pos..i]] + SplitFrom(s, i + 1);
    == { SplitStep(s, pos, i); }
      SplitFrom(s, pos);
    }
  }

  lemma SliceShift(whole: string, n: nat, s: string, pos: nat, end: nat)
    requires n <= |whole| && whole[n..] == s && pos <= end <= |s|
    ensures n + end <= |whole| && whole[n + pos..n + end] == s[pos..end]
  {
    assert whole[n..][pos..end] == whole[n + pos..n + end];
  }

  lemma SplitAfter(part: string, s: string)
    requires ':' !in part
    ensures SplitFrom(part + ":" + s, 0) == [part] + SplitFrom(s, 0)
  {
    var whole := part + ":" + s;
    assert whole[0..|part|] == part;
    FirstColon(whole, 0, part);
    SplitStep(whole, 0, |part|);
    assert whole[|part| + 1..] == s;
    SplitShift(whole, |part| + 1, s, 0);
  }

  // ---------------------------------------------------------------- the walk below a prefix

  function Moved(prefix: string, rows: seq<Row>): (r: seq<Row>)
    ensures |r| == |rows|
    ensures forall n :: 0 <= n < |rows| ==> r[n] == Row(prefix + rows[n].key, rows[n].value)
  {
    if rows == [] then [] else [Row(prefix + rows[0].key, rows[0].value)] + Moved(prefix, rows[1..])
  }

  lemma MovedAppend(prefix: string, a: seq<Row>, b: seq<Row>)
    ensures Moved(prefix, a + b) == Moved(prefix, a) + Moved(prefix, b)
  {
    var x, y := Moved(prefix, a + b), Moved(prefix, a) + Moved(prefix, b);
    forall n | 0 <= n < |x| ensures x[n] == y[n] {
    }
  }

  /** What is in the buffer before a walk only goes in front of it. */
  lemma {:induction false} WalkMoved(t: QVar, prefix: string, path: string)
    requires IsContainer(t) || path != ""
    ensures Walk(t, prefix + path) == Walked(Moved(prefix, Walk(t, path).rows), prefix + Walk(t, path).path)
    decreases t, |Kids(t)| + 1
  {
    if IsContainer(t) {
      WalkFromMoved(t, 0, prefix, path);
    } else {
      var whole := prefix + path;
      assert whole[..|whole| - 1] == prefix + path[..|path| - 1];
      assert Walk(t, whole).rows == Moved(prefix, Walk(t, path).rows);
    }
  }

  lemma {:induction false} WalkFromMoved(t: QVar, i: nat, prefix: string, path: string)
    requires i <= |Kids(t)|
    ensures WalkFrom(t, i, prefix + path)
      == Walked(Moved(prefix, WalkFrom(t, i, path).rows), prefix + WalkFrom(t, i, path).path)
    decreases t, |Kids(t)| - i
  {
    if i < |Kids(t)| {
      ChildMoved(Kids(t)[i].1, Kids(t)[i].0, prefix, path);
      WalkFromMoved(t, i + 1, prefix, WalkChild(Kids(t)[i].1, path, Kids(t)[i].0).path);
      RestMoved(t, i, prefix, path);
    }
  }

  lemma ChildWalk(name: string, kid: QVar, path: string, w: Walked)
    requires Walk(kid, path + (name + ":")) == w && |w.path| >= |name|
    ensures WalkChild(kid, path, name) == Walked(w.rows, w.path[..|w.path| - |name|])
  {
  }

  lemma {:induction false} ChildMoved(kid: QVar, name: string, prefix: string, path: string)
    ensures
      var child := WalkChild(kid, path, name);
      WalkChild(kid, prefix + path, name) == Walked(Moved(prefix, child.rows), prefix + child.path)
    decreases kid, |Kids(kid)| + 2
  {
    WalkMoved(kid, prefix, path + (name + ":"));
    var path', rows := Walk(kid, path + (name + ":")).path, Walk(kid, path + (name + ":")).rows;
    assert (prefix + path) + (name + ":") == prefix + (path + (name + ":"));
    CutMoved(prefix, path', |name|);
    ChildWalk(name, kid, path, Walked(rows, path'));
    ChildWalk(name, kid, prefix + path, Walked(Moved(prefix, rows), prefix + path'));
  }

  lemma RestMoved(t: QVar, i: nat, prefix: string, path: string)
    requires i < |Kids(t)|
    requires
      var child := WalkChild(Kids(t)[i].1, path, Kids(t)[i].0);
      var rest := WalkFrom(t, i + 1, child.path);
      && WalkChild(Kids(t)[i].1, prefix + path, Kids(t)[i].0) == Walked(Moved(prefix, child.rows), prefix + child.path)
      && WalkFrom(t, i + 1, prefix + child.path) == Walked(Moved(prefix, rest.rows), prefix + rest.path)
    ensures WalkFrom(t, i, prefix + path)
      == Walked(Moved(prefix, WalkFrom(t, i, path).rows), prefix + WalkFrom(t, i, path).path)
  {
    var child := WalkChild(Kids(t)[i].1, path, Kids(t)[i].0);
    MovedAppend(prefix, child.rows, WalkFrom(t, i + 1, child.path).rows);
    WalkFromStep(t, i, path);
    WalkFromStep(t, i, prefix + path);
  }

  lemma CutMoved(prefix: string, path: string, n: nat)
    requires n <= |path|
    ensures (prefix + path)[..|prefix + path| - n] == prefix + path[..|path| - n]
  {
  }

  // ---------------------------------------------------------------- one child of a level

  /** All names of a level are without colons. */
  ghost predicate ColonFreeNames(t: QVar) {
    forall i :: 0 <= i < |Kids(t)| ==> ':' !in Kids(t)[i].0
  }

  lemma RegularNames(t: QVar)
    requires Regular(t) && IsContainer(t)
    ensures ColonFreeNames(t)
  {
    forall i | 0 <= i < |Kids(t)| ensures ':' !in Kids(t)[i].0 {
      NameColonFree(t, i);
    }
  }

  /** All keys begin with `s`, which a colon or nothing follows. */
  ghost predicate BeginWith(rows: seq<Row>, s: string) {
    forall n :: 0 <= n < |rows| ==> BeginsWith(rows[n].key, s)
  }

  predicate BeginsWith(key: string, s: string) {
    s <= key && (key == s || key[|s|] == ':')
  }

  lemma BeginsSegment(key: string, s: string)
    requires BeginsWith(key, s)
    ensures Segment(key) == Segment(s)
  {
    SegmentKept(s, key[|s|..]);
    assert s + key[|s|..] == key;
  }

  /** The keys under a child begin with the buffer and its name. */
  lemma ChildKeys(name: string, kid: QVar, b: string)
    ensures BeginWith(WalkChild(kid, b, name).rows, b + name)
  {
    var part := name + ":";
    var s := b + name;
    assert b + part == s + ":";
    var rows := Walk(kid, b + part).rows;
    if IsContainer(kid) {
      WalkMoved(kid, s + ":", "");
      assert s + ":" + "" == s + ":";
      forall n | 0 <= n < |rows| ensures BeginsWith(rows[n].key, s) {
        assert rows[n].key == s + ":" + Walk(kid, "").rows[n].key;
      }
    } else {
      assert (s + ":")[..|s + ":"| - 1] == s;
      assert rows == [Row(s, kid)];
    }
  }

  /** The buffer after a container child: the front of something that begins with the child's path. */
  lemma NextBuffer(name: string, kid: QVar, b: string) returns (left: string)
    requires IsContainer(kid)
    ensures WalkChild(kid, b, name).path == (b + name + ":" + left)[..|b| + 1 + |left|]
  {
    left := Walk(kid, "").path;
    Regroup(b, name);
    WalkMoved(kid, b + name + ":", "");
    ChildWalk(name, kid, b, Walk(kid, b + name + ":"));
  }

  lemma Regroup(b: string, name: string)
    ensures b + (name + ":") == b + name + ":" == b + name + ":" + ""
  {
  }

  lemma SegmentOfFront(s: string, more: string, k: nat)
    requires k <= |s + ":" + more| && ':' in (s + ":" + more)[..k]
    ensures Segment((s + ":" + more)[..k]) == Segment(s)
  {
    var whole := s + ":" + more;
    SegmentOfPrefix(whole, k);
    assert whole == s + (":" + more);
    SegmentKept(s, ":" + more);
  }

  // ---------------------------------------------------------------- a level with a container before others

  /** A part that does not reach the child: in a list an index below `bound` or none, in a map another name. */
  predicate Misses(list: bool, bound: nat, z: string, part: string) {
    if list then IsIndex(part) ==> IndexOfPart(part) < bound else part != z
  }

  ghost predicate MissingIn(list: bool, bound: nat, z: string, rows: seq<Row>) {
    forall n :: 0 <= n < |rows| ==> Misses(list, bound, z, Segment(rows[n].key))
  }

  lemma MissingAppend(list: bool, bound: nat, z: string, a: seq<Row>, b: seq<Row>)
    requires MissingIn(list, bound, z, a) && MissingIn(list, bound, z, b)
    ensures MissingIn(list, bound, z, a + b)
  {
  }

  lemma MissingBegin(list: bool, bound: nat, z: string, rows: seq<Row>, s: string)
    requires BeginWith(rows, s) && Misses(list, bound, z, Segment(s))
    ensures MissingIn(list, bound, z, rows)
  {
    forall n | 0 <= n < |rows| ensures Misses(list, bound, z, Segment(rows[n].key)) {
      BeginsSegment(rows[n].key, s);
    }
  }

  /** No later name is shorter than `z`, and in a list each is in brackets. */
  ghost predicate NotShorter(t: QVar, i: nat, z: string) {
    forall j :: i <= j < |Kids(t)| ==>
      if t.List? then Kids(t)[j].0 == IndexPart(j) else |Kids(t)[j].0| >= |z|
  }

  /** Something is left in the buffer, and if it holds a colon then what comes before it misses. */
  predicate LeftOver(list: bool, bound: nat, z: string, b: string) {
    b != "" && (':' in b ==> Misses(list, bound, z, Segment(b)))
  }

  lemma BracketInside(b: string, j: nat)
    requires b != ""
    ensures IndexOfPart(b + IndexPart(j)) == -1
  {
    var s := b + IndexPart(j);
    assert s[|b|] == '[' && s[1..|s| - 1][|b| - 1] == s[|b|];
  }

  /** With something left in the buffer the next name is not written as it is. */
  lemma NameMisses(t: QVar, j: nat, bound: nat, z: string, b: string)
    requires j < |Kids(t)| && ColonFreeNames(t) && NotShorter(t, j, z) && LeftOver(t.List?, bound, z, b)
    ensures Misses(t.List?, bound, z, Segment(b + Kids(t)[j].0))
  {
    var name := Kids(t)[j].0;
    if ':' in b {
      SegmentKept(b, name);
    } else {
      ColonFreeAppend(b, name);
      SegmentColonFree(b + name);
      if t.List? {
        BracketInside(b, j);
      }
    }
  }

  lemma BufferStaysLeft(name: string, kid: QVar, list: bool, bound: nat, z: string, b: string)
    requires Misses(list, bound, z, Segment(b + name)) && (IsContainer(kid) || LeftOver(list, bound, z, b))
    ensures LeftOver(list, bound, z, WalkChild(kid, b, name).path)
  {
    if IsContainer(kid) {
      var left := NextBuffer(name, kid, b);
      FrontLeftOver(list, bound, z, b + name, left, |b| + 1 + |left|);
    } else {
      LeafRestores(b, name, kid);
    }
  }

  lemma FrontLeftOver(list: bool, bound: nat, z: string, s: string, more: string, k: nat)
    requires 0 < k <= |s + ":" + more| && Misses(list, bound, z, Segment(s))
    ensures LeftOver(list, bound, z, (s + ":" + more)[..k])
  {
    if ':' in (s + ":" + more)[..k] {
      SegmentOfFront(s, more, k);
    }
  }

  lemma ChildMisses(t: QVar, j: nat, bound: nat, z: string, b: string)
    requires j < |Kids(t)| && ColonFreeNames(t) && NotShorter(t, j, z) && LeftOver(t.List?, bound, z, b)
    ensures
      var child := WalkChild(Kids(t)[j].1, b, Kids(t)[j].0);
      MissingIn(t.List?, bound, z, child.rows) && LeftOver(t.List?, bound, z, child.path)
  {
    NameMisses(t, j, bound, z, b);
    ChildKeys(Kids(t)[j].0, Kids(t)[j].1, b);
    MissingBegin(t.List?, bound, z, WalkChild(Kids(t)[j].1, b, Kids(t)[j].0).rows, b + Kids(t)[j].0);
    BufferStaysLeft(Kids(t)[j].0, Kids(t)[j].1, t.List?, bound, z, b);
  }

  lemma {:induction false} LaterMiss(t: QVar, j: nat, bound: nat, z: string, b: string)
    requires j <= |Kids(t)| && ColonFreeNames(t) && NotShorter(t, j, z) && LeftOver(t.List?, bound, z, b)
    ensures MissingIn(t.List?, bound, z, WalkFrom(t, j, b).rows)
    decreases |Kids(t)| - j
  {
    if j < |Kids(t)| {
      var child := WalkChild(Kids(t)[j].1, b, Kids(t)[j].0);
      ChildMisses(t, j, bound, z, b);
      LaterMiss(t, j + 1, bound, z, child.path);
      BothMiss(t, j, bound, z, b);
    }
  }

  lemma BothMiss(t: QVar, j: nat, bound: nat, z: string, b: string)
    requires j < |Kids(t)|
    requires
      var child := WalkChild(Kids(t)[j].1, b, Kids(t)[j].0);
      MissingIn(t.List?, bound, z, child.rows) && MissingIn(t.List?, bound, z, WalkFrom(t, j + 1, child.path).rows)
    ensures MissingIn(t.List?, bound, z, WalkFrom(t, j, b).rows)
  {
    var child := WalkChild(Kids(t)[j].1, b, Kids(t)[j].0);
    WalkFromStep(t, j, b);
    MissingAppend(t.List?, bound, z, child.rows, WalkFrom(t, j + 1, child.path).rows);
  }

  // ---------------------------------------------------------------- storing never reaches the child

  ghost function Entries(rows: seq<Row>): (e: seq<Entry>)
    ensures |e| == |rows|
  {
    if rows == [] then [] else [Entry(SplitFrom(rows[0].key, 0), rows[0].value)] + Entries(rows[1..])
  }

  lemma {:induction false} EntriesAppend(a: seq<Row>, b: seq<Row>)
    ensures Entries(a + b) == Entries(a) + Entries(b)
    decreases |a|
  {
    if a == [] {
      assert a + b == b;
    } else {
      assert (a + b)[1..] == a[1..] + b;
      EntriesAppend(a[1..], b);
    }
  }

  lemma {:induction false} EntriesUnder(name: string, rows: seq<Row>)
    requires ':' !in name
    ensures Entries(Moved(name + ":", rows)) == Under(name, Entries(rows))
    decreases |rows|
  {
    if rows != [] {
      SplitAfter(name, rows[0].key);
      assert Moved(name + ":", rows)[1..] == Moved(name + ":", rows[1..]);
      EntriesUnder(name, rows[1..]);
      assert Entries(rows)[1..] == Entries(rows[1..]);
    }
  }

  predicate Untouched(list: bool, bound: nat, z: string, level: QVar) {
    if list then |Items(level)| <= bound else z !in Fields(level)
  }

  lemma PutMisses(list: bool, bound: nat, z: string, level: QVar, path: Path, v: QVar)
    requires path != [] && Misses(list, bound, z, path[0]) && Untouched(list, bound, z, level)
    ensures Untouched(list, bound, z, Put(level, path, v))
  {
  }

  lemma {:induction false} StoredMisses(list: bool, bound: nat, z: string, out: QVar, rows: seq<Row>)
    requires MissingIn(list, bound, z, rows) && Untouched(list, bound, z, out)
    ensures Untouched(list, bound, z, Stored(out, Entries(rows)))
    decreases |rows|
  {
    if rows != [] {
      var path := SplitFrom(rows[0].key, 0);
      SegmentFirst(rows[0].key);
      PutMisses(list, bound, z, out, path, rows[0].value);
      assert Entries(rows)[1..] == Entries(rows[1..]);
      StoredMisses(list, bound, z, Put(out, path, rows[0].value), rows[1..]);
    }
  }

  // ---------------------------------------------------------------- the first container of a level

  /** The first container child, with leaves only before it. */
  ghost predicate IsFirstContainer(t: QVar, i: nat) {
    && i < |Kids(t)| && IsContainer(Kids(t)[i].1)
    && forall j :: 0 <= j < i ==> !IsContainer(Kids(t)[j].1)
  }

  lemma {:induction false} FirstContainer(t: QVar, i: nat) returns (c: nat)
    requires IsContainer(t) && i <= |Kids(t)| && !CleanFrom(t, i)
    requires forall j :: 0 <= j < i ==> !IsContainer(Kids(t)[j].1)
    ensures IsFirstContainer(t, c)
    decreases |Kids(t)| - i
  {
    NotYetClean(t, i);
    if IsContainer(Kids(t)[i].1) {
      c := i;
    } else {
      c := LaterContainer(t, i);
    }
  }

  lemma {:induction false} LaterContainer(t: QVar, i: nat) returns (c: nat)
    requires IsContainer(t) && i < |Kids(t)| && !CleanFrom(t, i)
    requires forall j :: 0 <= j <= i ==> !IsContainer(Kids(t)[j].1)
    ensures IsFirstContainer(t, c)
    decreases |Kids(t)| - i, 0
  {
    LeafStaysClean(t, i);
    c := FirstContainer(t, i + 1);
  }

  lemma NotYetClean(t: QVar, i: nat)
    requires i <= |Kids(t)| && !CleanFrom(t, i)
    ensures i < |Kids(t)|
  {
  }

  lemma LeafStaysClean(t: QVar, i: nat)
    requires i < |Kids(t)| && !IsContainer(Kids(t)[i].1)
    ensures CleanFrom(t, i) <==> CleanFrom(t, i + 1)
  {
    assert Clean(Kids(t)[i].1);
  }

  lemma {:induction false} LastIsUnclean(t: QVar, i: nat, c: nat)
    requires i <= c && c + 1 == |Kids(t)| && IsFirstContainer(t, c) && !CleanFrom(t, i)
    ensures !Clean(Kids(t)[c].1)
    decreases c - i
  {
    if i < c {
      LeafStaysClean(t, i);
      LastIsUnclean(t, i + 1, c);
    } else {
      NothingAfterLast(t, c);
    }
  }

  lemma NothingAfterLast(t: QVar, c: nat)
    requires c + 1 == |Kids(t)|
    ensures CleanFrom(t, c) <==> Clean(Kids(t)[c].1)
  {
    assert CleanFrom(t, c + 1) && !HasLeafFrom(t, c + 1);
  }

  /** The rows of the leaves that come first. */
  ghost function LeafRows(t: QVar, c: nat): (rows: seq<Row>)
    requires c <= |Kids(t)|
    ensures |rows| == c && forall j :: 0 <= j < c ==> rows[j] == Row(Kids(t)[j].0, Kids(t)[j].1)
  {
    seq(c, j requires 0 <= j < c => Row(Kids(t)[j].0, Kids(t)[j].1))
  }

  lemma {:induction false} LeavesFirst(t: QVar, c: nat)
    requires c <= |Kids(t)| && forall j :: 0 <= j < c ==> !IsContainer(Kids(t)[j].1)
    ensures WalkFrom(t, 0, "").rows == LeafRows(t, c) + WalkFrom(t, c, "").rows
    decreases c
  {
    if c == 0 {
      assert WalkFrom(t, 0, "").rows == LeafRows(t, 0) + WalkFrom(t, 0, "").rows;
    } else {
      LeavesFirst(t, c - 1);
      LeafNext(t, c - 1);
    }
  }

  lemma LeafNext(t: QVar, c: nat)
    requires c < |Kids(t)| && !IsContainer(Kids(t)[c].1)
    ensures LeafRows(t, c) + WalkFrom(t, c, "").rows == LeafRows(t, c + 1) + WalkFrom(t, c + 1, "").rows
  {
    LeafStep(t, c);
    LeafRowsSnoc(t, c);
    Assoc(LeafRows(t, c), [Row(Kids(t)[c].0, Kids(t)[c].1)], WalkFrom(t, c + 1, "").rows);
  }

  lemma LeafStep(t: QVar, c: nat)
    requires c < |Kids(t)| && !IsContainer(Kids(t)[c].1)
    ensures WalkFrom(t, c, "").rows == [Row(Kids(t)[c].0, Kids(t)[c].1)] + WalkFrom(t, c + 1, "").rows
  {
    WalkFromStep(t, c, "");
    LeafFirst(Kids(t)[c].0, Kids(t)[c].1);
  }

  lemma LeafRowsSnoc(t: QVar, c: nat)
    requires c < |Kids(t)|
    ensures LeafRows(t, c + 1) == LeafRows(t, c) + [Row(Kids(t)[c].0, Kids(t)[c].1)]
  {
  }

  lemma LeafFirst(name: string, kid: QVar)
    requires !IsContainer(kid)
    ensures WalkChild(kid, "", name) == Walked([Row(name, kid)], "")
  {
    LeafWalked(name, kid, "");
    assert "" + name == name;
  }

  /** The name of a child misses every later one. */
  lemma NameMissesLater(t: QVar, j: nat, k: nat)
    requires j < k < |Kids(t)| && IsContainer(t) && Regular(t)
    ensures Misses(t.List?, k, Kids(t)[k].0, Segment(Kids(t)[j].0))
  {
    NameColonFree(t, j);
    SegmentColonFree(Kids(t)[j].0);
    if t.List? {
      IndexRoundTrip(j);
    } else {
      NamesDistinct(t.m, j, k);
    }
  }

  /** No name before the `c`-th is that of the child `k`. */
  ghost predicate EarlierMiss(t: QVar, c: nat, k: nat)
    requires c <= k < |Kids(t)|
  {
    forall j :: 0 <= j < c ==> Misses(t.List?, k, Kids(t)[k].0, Segment(Kids(t)[j].0))
  }

  lemma NamesMissLater(t: QVar, c: nat, k: nat)
    requires c <= k < |Kids(t)| && IsContainer(t) && Regular(t)
    ensures EarlierMiss(t, c, k)
  {
    forall j | 0 <= j < c ensures Misses(t.List?, k, Kids(t)[k].0, Segment(Kids(t)[j].0)) {
      NameMissesLater(t, j, k);
    }
  }

  lemma LeafRowsMiss(t: QVar, c: nat, k: nat)
    requires c <= k < |Kids(t)| && EarlierMiss(t, c, k)
    ensures MissingIn(t.List?, k, Kids(t)[k].0, LeafRows(t, c))
  {
    var rows := LeafRows(t, c);
    forall j | 0 <= j < c ensures Misses(t.List?, k, Kids(t)[k].0, Segment(rows[j].key)) {
      assert rows[j] == Row(Kids(t)[j].0, Kids(t)[j].1);
    }
  }

  lemma {:induction false} Shortest(t: QVar, i: nat) returns (z: nat)
    requires t.Map? && i < |Kids(t)|
    ensures i <= z < |Kids(t)| && NotShorter(t, i, Kids(t)[z].0)
    decreases |Kids(t)| - i
  {
    z := i;
    if i + 1 < |Kids(t)| {
      var y := Shortest(t, i + 1);
      ShorterOfTwo(t, i, y);
      if |Kids(t)[y].0| < |Kids(t)[i].0| {
        z := y;
      }
    }
  }

  lemma ShorterOfTwo(t: QVar, i: nat, y: nat)
    requires t.Map? && i < y < |Kids(t)| && NotShorter(t, i + 1, Kids(t)[y].0)
    ensures NotShorter(t, i, if |Kids(t)[y].0| < |Kids(t)[i].0| then Kids(t)[y].0 else Kids(t)[i].0)
  {
  }

  /** A child after the first container that none of the rows reaches. */
  lemma Unreached(t: QVar, c: nat) returns (z: nat)
    requires IsFirstContainer(t, c) && c + 1 < |Kids(t)| && IsContainer(t)
    ensures c < z < |Kids(t)| && NotShorter(t, c + 1, Kids(t)[z].0)
  {
    if t.Map? {
      z := Shortest(t, c + 1);
    } else {
      z := |Kids(t)| - 1;
    }
  }

  /** The rows of the first container, and what it leaves in the buffer. */
  lemma FirstMisses(name: string, kid: QVar, list: bool, bound: nat, z: string)
    requires IsContainer(kid) && Misses(list, bound, z, Segment(name))
    ensures MissingIn(list, bound, z, WalkChild(kid, "", name).rows)
    ensures LeftOver(list, bound, z, WalkChild(kid, "", name).path)
  {
    assert "" + name == name;
    ChildKeys(name, kid, "");
    MissingBegin(list, bound, z, WalkChild(kid, "", name).rows, name);
    BufferStaysLeft(name, kid, list, bound, z, "");
  }

  lemma FromFirstMiss(t: QVar, c: nat, bound: nat, z: string)
    requires c < |Kids(t)| && IsContainer(Kids(t)[c].1) && ColonFreeNames(t)
    requires NotShorter(t, c + 1, z) && Misses(t.List?, bound, z, Segment(Kids(t)[c].0))
    ensures MissingIn(t.List?, bound, z, WalkFrom(t, c, "").rows)
  {
    FirstMisses(Kids(t)[c].0, Kids(t)[c].1, t.List?, bound, z);
    LaterMiss(t, c + 1, bound, z, WalkChild(Kids(t)[c].1, "", Kids(t)[c].0).path);
    BothMiss(t, c, bound, z, "");
  }

  lemma RowsMiss(t: QVar, c: nat, z: nat)
    requires Regular(t) && IsContainer(t) && IsFirstContainer(t, c)
    requires c < z < |Kids(t)| && NotShorter(t, c + 1, Kids(t)[z].0)
    ensures MissingIn(t.List?, z, Kids(t)[z].0, Walk(t, "").rows)
  {
    RegularNames(t);
    NameMissesLater(t, c, z);
    FromFirstMiss(t, c, z, Kids(t)[z].0);
    NamesMissLater(t, c, z);
    LeafRowsMiss(t, c, z);
    LeavesFirst(t, c);
    MissingAppend(t.List?, z, Kids(t)[z].0, LeafRows(t, c), WalkFrom(t, c, "").rows);
  }

  /** A container with a later sibling: some child is never written. */
  lemma LevelLost(t: QVar, c: nat)
    requires Regular(t) && IsContainer(t) && IsFirstContainer(t, c) && c + 1 < |Kids(t)|
    ensures Stored(Null, Entries(Walk(t, "").rows)) != t
  {
    var z := Unreached(t, c);
    RowsMiss(t, c, z);
    StoredMisses(t.List?, z, Kids(t)[z].0, Null, Walk(t, "").rows);
    if t.Map? {
      assert Kids(t)[z].0 in t.m;
    }
  }

  // ---------------------------------------------------------------- down the last child

  function At(level: QVar, part: string): QVar {
    if IsIndex(part) then
      (if IndexOfPart(part) < |Items(level)| then Items(level)[IndexOfPart(part)] else Null)
    else Field(Fields(level), part)
  }

  lemma PutAt(level: QVar, part: string, path: Path, v: QVar)
    ensures At(Put(level, [part] + path, v), part) == Put(At(level, part), path, v)
  {
    assert ([part] + path)[1..] == path;
  }

  lemma {:induction false} StoredUnderAt(out: QVar, part: string, sub: seq<Entry>)
    ensures At(Stored(out, Under(part, sub)), part) == Stored(At(out, part), sub)
    decreases |sub|
  {
    if sub != [] {
      PutAt(out, part, sub[0].path, sub[0].value);
      assert Under(part, sub)[1..] == Under(part, sub[1..]);
      StoredUnderAt(Put(out, [part] + sub[0].path, sub[0].value), part, sub[1..]);
    }
  }

  lemma KidAt(t: QVar, c: nat)
    requires Regular(t) && IsContainer(t) && c < |Kids(t)|
    ensures At(t, Kids(t)[c].0) == Kids(t)[c].1
    ensures forall out :: Untouched(t.List?, c, Kids(t)[c].0, out) ==> At(out, Kids(t)[c].0) == Null
  {
    assert GoodName(t, Kids(t)[c].0);
    if t.List? {
      IndexRoundTrip(c);
    }
  }

  /** Only the last child is a container: it comes back with the whole or not at all. */
  lemma LastChildDecides(t: QVar, c: nat)
    requires Regular(t) && IsContainer(t) && IsFirstContainer(t, c) && c + 1 == |Kids(t)|
    ensures At(Stored(Null, Entries(Walk(t, "").rows)), Kids(t)[c].0)
      == Stored(Null, Entries(Walk(Kids(t)[c].1, "").rows))
  {
    var (name, kid) := Kids(t)[c];
    var first, sub := LeafRows(t, c), Walk(kid, "").rows;
    LeavesFirst(t, c);
    WalkFromStep(t, c, "");
    WalkMoved(kid, name + ":", "");
    assert "" + (name + ":") == name + ":" + "";
    assert WalkFrom(t, c, "").rows == Moved(name + ":", sub);
    EntriesAppend(first, Moved(name + ":", sub));
    NameColonFree(t, c);
    EntriesUnder(name, sub);
    StoredAppend(Null, Entries(first), Under(name, Entries(sub)));
    NamesMissLater(t, c, c);
    LeafRowsMiss(t, c, c);
    StoredMisses(t.List?, c, name, Null, first);
    KidAt(t, c);
    StoredUnderAt(Stored(Null, Entries(first)), name, Entries(sub));
  }

  lemma {:induction false} UncleanLost(t: QVar)
    requires Regular(t) && IsContainer(t) && !Clean(t)
    ensures Stored(Null, Entries(Walk(t, "").rows)) != t
    decreases t
  {
    var c := FirstContainer(t, 0);
    if c + 1 < |Kids(t)| {
      LevelLost(t, c);
    } else {
      LastIsUnclean(t, 0, c);
      assert Regular(Kids(t)[c].1);
      UncleanLost(Kids(t)[c].1);
      LastChildDecides(t, c);
      KidAt(t, c);
    }
  }

  // ---------------------------------------------------------------- colons that lead a key

  function Colons(s: string): nat {
    if s != "" && s[0] == ':' then 1 + Colons(s[1..]) else 0
  }

  /** How many empty parts lead a key. */
  ghost function LeadOf(s: string): nat {
    Lead(SplitFrom(s, 0))
  }

  lemma LeadStep(s: string)
    ensures LeadOf("") == 1
    ensures s != "" && s[0] == ':' ==> LeadOf(s) == 1 + LeadOf(s[1..])
    ensures s != "" && s[0] != ':' ==> LeadOf(s) == 0
  {
    if s != "" && s[0] == ':' {
      SplitAfter("", s[1..]);
      assert "" + ":" + s[1..] == s;
      assert ([""] + SplitFrom(s[1..], 0))[1..] == SplitFrom(s[1..], 0);
    } else if s != "" {
      SegmentFirst(s);
    }
    assert SplitFrom("", 0) == [""];
    assert [""][1..] == [];
  }

  /** Behind a name that is not empty no more colons lead. */
  lemma {:induction false} ColonsBefore(b: string, name: string, more: string)
    requires name != "" && ':' !in name
    ensures Colons(b + name + more) == Colons(b) == LeadOf(b + name + more)
    decreases |b|
  {
    var s := b + name + more;
    LeadStep(s);
    if b == "" {
      assert s[0] == name[0];
    } else if b[0] == ':' {
      assert s[1..] == b[1..] + name + more;
      ColonsBefore(b[1..], name, more);
    }
  }

  lemma {:induction false} ColonsOfFront(s: string, k: nat)
    requires k <= |s|
    ensures Colons(s[..k]) <= Colons(s)
    decreases |s|
  {
    if k > 0 && s[0] == ':' {
      assert s[..k][1..] == s[1..][..k - 1];
      ColonsOfFront(s[1..], k - 1);
    }
  }

  ghost predicate LedBy(rows: seq<Row>, m: nat) {
    forall n :: 0 <= n < |rows| ==> LeadOf(rows[n].key) <= m
  }

  /** From the `j`-th on the names are neither empty nor hold a colon. */
  ghost predicate PlainNames(t: QVar, j: nat) {
    forall i :: j <= i < |Kids(t)| ==> Kids(t)[i].0 != "" && ':' !in Kids(t)[i].0
  }

  lemma ChildLed(name: string, kid: QVar, b: string)
    requires name != "" && ':' !in name
    ensures LedBy(WalkChild(kid, b, name).rows, Colons(b))
    ensures Colons(WalkChild(kid, b, name).path) <= Colons(b)
  {
    var rows := WalkChild(kid, b, name).rows;
    ChildKeys(name, kid, b);
    forall n | 0 <= n < |rows| ensures LeadOf(rows[n].key) <= Colons(b) {
      var key := rows[n].key;
      assert BeginsWith(key, b + name);
      assert key == b + name + key[|b + name|..];
      ColonsBefore(b, name, key[|b + name|..]);
    }
    if IsContainer(kid) {
      var left := NextBuffer(name, kid, b);
      assert b + name + ":" + left == b + name + (":" + left);
      ColonsBefore(b, name, ":" + left);
      ColonsOfFront(b + name + ":" + left, |b| + 1 + |left|);
    } else {
      LeafRestores(b, name, kid);
    }
  }

  lemma {:induction false} LaterLed(t: QVar, j: nat, b: string, m: nat)
    requires j <= |Kids(t)| && PlainNames(t, j) && Colons(b) <= m
    ensures LedBy(WalkFrom(t, j, b).rows, m) && Colons(WalkFrom(t, j, b).path) <= m
    decreases |Kids(t)| - j
  {
    if j < |Kids(t)| {
      ChildLed(Kids(t)[j].0, Kids(t)[j].1, b);
      LaterLed(t, j + 1, WalkChild(Kids(t)[j].1, b, Kids(t)[j].0).path, m);
      BothLed(t, j, b, m);
    }
  }

  lemma BothLed(t: QVar, j: nat, b: string, m: nat)
    requires j < |Kids(t)|
    requires
      var child := WalkChild(Kids(t)[j].1, b, Kids(t)[j].0);
      var rest := WalkFrom(t, j + 1, child.path);
      LedBy(child.rows, m) && LedBy(rest.rows, m) && Colons(rest.path) <= m
    ensures LedBy(WalkFrom(t, j, b).rows, m) && Colons(WalkFrom(t, j, b).path) <= m
  {
    WalkFromStep(t, j, b);
  }

  lemma NamesPlain(t: QVar)
    requires Regular(t) && IsContainer(t)
    ensures if NoEmptyTopKey(t) then PlainNames(t, 0) else |Kids(t)| > 0 && Kids(t)[0].0 == "" && PlainNames(t, 1)
  {
    RegularNames(t);
    if t.List? {
      forall i | 0 <= i < |Kids(t)| ensures Kids(t)[i].0 != "" {
        assert Kids(t)[i].0 == IndexPart(i);
      }
    } else if "" in t.m {
      EmptyNameFirst(t);
    }
  }

  lemma EmptyNameFirst(t: QVar)
    requires t.Map? && "" in t.m
    ensures |Kids(t)| > 0 && Kids(t)[0].0 == "" && forall i :: 0 < i < |Kids(t)| ==> Kids(t)[i].0 != ""
  {
    var keys := SortedKeys(t.m.Keys);
    forall i | 0 < i < |Kids(t)| ensures Kids(t)[i].0 != "" {
      assert Less(keys[0], keys[i]);
    }
    EveryNameOccurs(t.m, "");
  }

  /** The rows and the buffer of the child under the empty key. */
  lemma EmptyNameLed(kid: QVar)
    requires IsContainer(kid) ==> LedBy(Walk(kid, "").rows, Spine(kid)) && Colons(Walk(kid, "").path) <= Spine(kid)
    ensures LedBy(WalkChild(kid, "", "").rows, 1 + Spine(kid))
    ensures Colons(WalkChild(kid, "", "").path) <= 1 + Spine(kid)
  {
    LeadStep("");
    if IsContainer(kid) {
      var w := Walk(kid, "");
      WalkMoved(kid, ":", "");
      assert ":" + "" == ":" == "" + ("" + ":");
      ChildWalk("", kid, "", Walked(Moved(":", w.rows), ":" + w.path));
      var rows := WalkChild(kid, "", "").rows;
      forall n | 0 <= n < |rows| ensures LeadOf(rows[n].key) <= 1 + Spine(kid) {
        assert rows[n].key == ":" + w.rows[n].key && (":" + w.rows[n].key)[1..] == w.rows[n].key;
        LeadStep(rows[n].key);
      }
      assert (":" + w.path)[1..] == w.path;
      assert (":" + w.path)[..|":" + w.path| - 0] == ":" + w.path;
    } else {
      LeafFirst("", kid);
    }
  }

  /** No key of a listing is led by more empty parts than the tree has empty keys down from the root. */
  lemma {:induction false} WalkLed(t: QVar)
    requires Regular(t) && IsContainer(t)
    ensures LedBy(Walk(t, "").rows, Spine(t)) && Colons(Walk(t, "").path) <= Spine(t)
    decreases t
  {
    NamesPlain(t);
    if NoEmptyTopKey(t) {
      LaterLed(t, 0, "", 0);
    } else {
      var kid := Kids(t)[0].1;
      assert Regular(kid);
      if IsContainer(kid) {
        WalkLed(kid);
      }
      EmptyNameLed(kid);
      WalkLedBelow(t);
    }
  }

  lemma WalkLedBelow(t: QVar)
    requires t.Map? && |Kids(t)| > 0 && Kids(t)[0].0 == "" && PlainNames(t, 1)
    requires
      var child := WalkChild(Kids(t)[0].1, "", "");
      LedBy(child.rows, 1 + Spine(Kids(t)[0].1)) && Colons(child.path) <= 1 + Spine(Kids(t)[0].1)
    ensures LedBy(Walk(t, "").rows, Spine(t)) && Colons(Walk(t, "").path) <= Spine(t)
  {
    assert t.m[""] == Kids(t)[0].1;
    LaterLed(t, 1, WalkChild(Kids(t)[0].1, "", "").path, Spine(t));
    BothLed(t, 0, "", Spine(t));
  }

  // ---------------------------------------------------------------- which trees come back

  ghost predicate Scalars(rows: seq<Row>) {
    forall n :: 0 <= n < |rows| ==> !IsContainer(rows[n].value)
  }

  lemma {:induction false} WalkedScalars(t: QVar, path: string)
    ensures Scalars(Walk(t, path).rows)
    decreases t, |Kids(t)| + 1
  {
    if IsContainer(t) {
      WalkedScalarsFrom(t, 0, path);
    }
  }

  lemma {:induction false} WalkedScalarsFrom(t: QVar, i: nat, path: string)
    requires i <= |Kids(t)|
    ensures Scalars(WalkFrom(t, i, path).rows)
    decreases t, |Kids(t)| - i
  {
    if i < |Kids(t)| {
      var child := WalkChild(Kids(t)[i].1, path, Kids(t)[i].0);
      WalkedScalars(Kids(t)[i].1, path + (Kids(t)[i].0 + ":"));
      WalkedScalarsFrom(t, i + 1, child.path);
      WalkFromStep(t, i, path);
      ScalarsAppend(child.rows, WalkFrom(t, i + 1, child.path).rows);
    }
  }

  lemma ScalarsAppend(a: seq<Row>, b: seq<Row>)
    requires Scalars(a) && Scalars(b)
    ensures Scalars(a + b)
  {
  }

  /** Keys that are not led by a colon are stored as they are split. */
  lemma {:induction false} RebuiltAsSplit(out: QVar, rows: seq<Row>)
    requires LedBy(rows, 0)
    ensures Rebuilt(out, rows) == Stored(out, Entries(rows))
    decreases |rows|
  {
    if rows != [] {
      LeadStep(rows[0].key);
      assert Entries(rows)[1..] == Entries(rows[1..]);
      RebuiltAsSplit(Put(out, SplitFrom(rows[0].key, 0), rows[0].value), rows[1..]);
    }
  }

  lemma EmptyTopKeyNeverBack(t: QVar)
    requires Regular(t) && IsContainer(t) && !NoEmptyTopKey(t)
    ensures Rebuilt(Null, Walk(t, "").rows) != t
  {
    var rows := Walk(t, "").rows;
    WalkLed(t);
    WalkedScalars(t, "");
    forall n | 0 <= n < |rows| ensures !IsContainer(rows[n].value) && Lead(Parts(rows[n].key)) <= Spine(t) - 1 {
      LeadStep(rows[n].key);
    }
    RebuiltSpine(Null, rows, Spine(t) - 1);
  }

  lemma PlainTopBackIff(t: QVar)
    requires Regular(t) && IsContainer(t) && NoEmptyTopKey(t)
    ensures Rebuilt(Null, Walk(t, "").rows) == t <==> Clean(t)
  {
    if Clean(t) {
      FlattenRoundTrip(t);
    } else {
      NamesPlain(t);
      LaterLed(t, 0, "", 0);
      RebuiltAsSplit(Null, Walk(t, "").rows);
      UncleanLost(t);
    }
  }

  /** Flatten and then Unflatten give a tree back exactly when it is a regular and clean container without an
      empty key on top (or nothing at all). */
  lemma FlattenRoundTripIff(t: QVar)
    ensures Rebuilt(Null, Walk(t, "").rows) == t <==>
      t == Null || (IsContainer(t) && Regular(t) && NoEmptyTopKey(t) && Clean(t))
  {
    if !IsContainer(t) {
      assert Walk(t, "").rows == [Row("", t)];
    } else if !Regular(t) {
      WalkedScalars(t, "");
      RebuiltRegular(Null, Walk(t, "").rows);
    } else if NoEmptyTopKey(t) {
      PlainTopBackIff(t);
    } else {
      EmptyTopKeyNeverBack(t);
    }
  }
}
