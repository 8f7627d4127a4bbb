/** The order of string keys in a QVariantMap. */
module KeyOrder {
  import opened Variants

  /** QString order: by code unit, a proper prefix first. */
  predicate Less(a: string, b: string)
    decreases |a|
  {
    b != [] && (a == [] || a[0] < b[0] || (a[0] == b[0] && Less(a[1..], b[1..])))
  }

  lemma {:induction false} LessTotal(a: string, b: string)
    ensures !(Less(a, b) && Less(b, a))
    ensures a == b || Less(a, b) || Less(b, a)
    ensures !Less(a, a)
    decreases |a|
  {
    if a != [] {
      LessTotal(a[1..], a[1..]);
    }
    if a != [] && b != [] && a[0] == b[0] {
      LessTotal(a[1..], b[1..]);
      assert a == [a[0]] + a[1..] && b == [b[0]] + b[1..];
    }
  }

  lemma {:induction false} LessTransitive(a: string, b: string, c: string)
    requires Less(a, b) && Less(b, c)
    ensures Less(a, c)
    decreases |a|
  {
    if a != [] && a[0] == b[0] && b[0] == c[0] {
      LessTransitive(a[1..], b[1..], c[1..]);
    }
  }

  predicate After(control: Option<string>, k: string) {
    control.None? || Less(control.value, k)
  }

  /** `next` is the first key of the map after `control` (QVariantMap::upperBound). */
  ghost predicate IsUpperBound(keys: set<string>, control: Option<string>, next: Option<string>) {
    match next
    case None => forall k :: k in keys ==> !After(control, k)
    case Some(n) =>
      && n in keys && After(control, n)
      && forall k :: k in keys && After(control, k) ==> k == n || Less(n, k)
  }

  method UpperBound(keys: set<string>, control: Option<string>) returns (next: Option<string>)
    ensures IsUpperBound(keys, control, next)
  {
    next := None;
    var todo := keys;
    while todo != {}
      invariant todo <= keys
      invariant IsUpperBound(keys - todo, control, next)
      decreases todo
    {
      var k :| k in todo;
      if After(control, k) && (next.None? || Less(k, next.value)) {
        forall j | j in keys - todo && After(control, j) ensures Less(k, j) {
          if next.value != j { LessTransitive(k, next.value, j); }
        }
        next := Some(k);
      } else if next.Some? {
        LessTotal(k, next.value);
      }
      todo := todo - {k};
    }
  }

  // ---------------------------------------------------------------- all keys in order

  ghost predicate Sorted(keys: seq<string>) {
    forall i, j :: 0 <= i < j < |keys| ==> Less(keys[i], keys[j])
  }

  /** The keys of a map in the order its iterators go through them. */
  ghost function SortedKeys(keys: set<string>): (s: seq<string>)
    ensures Sorted(s) && |s| == |keys| && forall k :: k in s <==> k in keys
    decreases |keys|
  {
    if keys == {} then []
    else
      LeastExists(keys);
      var k :| IsLeast(keys, k);
      var rest := SortedKeys(keys - {k});
      assert forall j :: 0 <= j < |rest| ==> rest[j] in rest;
      [k] + rest
  }

  ghost predicate IsLeast(keys: set<string>, k: string) {
    k in keys && forall j :: j in keys ==> j == k || Less(k, j)
  }

  lemma {:induction false} LeastExists(keys: set<string>)
    requires keys != {}
    ensures exists k :: IsLeast(keys, k)
    decreases |keys|
  {
    var x :| x in keys;
    if keys == {x} {
      assert IsLeast(keys, x);
    } else {
      LeastExists(keys - {x});
      var y :| IsLeast(keys - {x}, y);
      LessTotal(x, y);
      if Less(x, y) {
        forall j | j in keys ensures j == x || Less(x, j) {
          if j != x && j != y { LessTransitive(x, y, j); }
        }
        assert IsLeast(keys, x);
      } else {
        assert IsLeast(keys, y);
      }
    }
  }

  lemma SortedKeysStep(keys: set<string>, k: string)
    requires IsLeast(keys, k)
    ensures SortedKeys(keys) == [k] + SortedKeys(keys - {k})
  {
    LeastExists(keys);
    forall j | IsLeast(keys, j) ensures j == k {
      LessTotal(j, k);
    }
  }

  lemma FirstIsLeast(keys: set<string>, next: Option<string>)
    requires keys != {} && IsUpperBound(keys, None, next)
    ensures next.Some? && IsLeast(keys, next.value)
  {
    var k :| k in keys;
    assert After(None, k);
    if next.Some? {
      forall j | j in keys ensures j == next.value || Less(next.value, j) {
        assert After(None, j);
      }
    }
  }

  ghost predicate GoneThrough(keys: set<string>, s: seq<string>, todo: set<string>) {
    s + SortedKeys(todo) == SortedKeys(keys)
  }

  lemma OneMoreKey(keys: set<string>, s: seq<string>, todo: set<string>, k: string)
    requires GoneThrough(keys, s, todo) && IsLeast(todo, k)
    ensures GoneThrough(keys, s + [k], todo - {k})
  {
    SortedKeysStep(todo, k);
    assert s + ([k] + SortedKeys(todo - {k})) == s + [k] + SortedKeys(todo - {k});
  }

  /** Iterating a map from begin to end. */
  method KeysInOrder(keys: set<string>) returns (s: seq<string>)
    ensures s == SortedKeys(keys)
  {
    s := [];
    var todo := keys;
    assert [] + SortedKeys(keys) == SortedKeys(keys);
    while todo != {}
      invariant GoneThrough(keys, s, todo)
      decreases todo
    {
      var next := UpperBound(todo, None);
      FirstIsLeast(todo, next);
      OneMoreKey(keys, s, todo, next.value);
      s := s + [next.value];
      todo := todo - {next.value};
    }
    assert s + [] == s;
  }
}
