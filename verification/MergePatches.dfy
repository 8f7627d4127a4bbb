/**
 MergePatch: applying a patch to a message tree as section 2 of RFC 7396 defines it, with the number of
 replaced values and a diff of what changed.
 */
module MergePatches {
  import opened Variants
  import opened KeyOrder
  import opened TreePaths

  // ---------------------------------------------------------------- what a patch means

  /** Section 2 of RFC 7396, with an invalid value for JSON null. */
  function Merge(target: QVar, patch: QVar): QVar
    decreases patch
  {
    match patch
    case Map(p) =>
      var o := Fields(target);
      Map(map k | k in o.Keys + p.Keys && (k in p ==> p[k] != Null) ::
        if k in p then Merge(Field(o, k), p[k]) else o[k])
    case _ => patch
  }

  /** The diff: an entry for every name in the patch, valid only where a value was replaced. Entries that
      were in the diff before stay unless they are replaced. */
  function Diffed(diff: QVar, target: QVar, patch: QVar): QVar
    decreases patch
  {
    match patch
    case Map(p) =>
      var o, d := Fields(target), Fields(diff);
      Map(map k | k in d.Keys + p.Keys ::
        if k !in p then d[k]
        else if p[k] != Null then Diffed(Field(d, k), Field(o, k), p[k])
        else if k in o then Null
        else Field(d, k))
    case _ => if target != patch then patch else diff
  }

  /** The number of values replaced. Removed names and emptied containers do not count. */
  ghost function Count(target: QVar, patch: QVar): nat
    decreases patch, |Kids(patch)| + 1
  {
    if patch.Map? then CountFrom(Fields(target), patch, 0) else if target != patch then 1 else 0
  }

  ghost function CountFrom(o: map<string, QVar>, patch: QVar, i: nat): nat
    requires i <= |Kids(patch)|
    decreases patch, |Kids(patch)| - i
  {
    if i == |Kids(patch)| then 0 else NameCount(o, Kids(patch)[i].0, Kids(patch)[i].1) + CountFrom(o, patch, i + 1)
  }

  ghost function NameCount(o: map<string, QVar>, name: string, sub: QVar): nat
    decreases sub, |Kids(sub)| + 2
  {
    if sub == Null then 0 else Count(Field(o, name), sub)
  }

  // ---------------------------------------------------------------- the loop over the patch

  function Lookup(m: map<string, QVar>, k: string): Option<QVar> {
    if k in m then Some(m[k]) else None
  }

  ghost predicate SameBut(k: string, before: map<string, QVar>, after: map<string, QVar>) {
    forall j :: j != k ==> Lookup(after, j) == Lookup(before, j)
  }

  /** `cur` is `goal` on the names in `done` and still `start` on all others. */
  ghost predicate Halfway(start: map<string, QVar>, goal: map<string, QVar>, done: seq<string>,
                          cur: map<string, QVar>)
  {
    forall k :: Lookup(cur, k) == if k in done then Lookup(goal, k) else Lookup(start, k)
  }

  lemma HalfwayStep(start: map<string, QVar>, goal: map<string, QVar>, done: seq<string>, cur: map<string, QVar>,
                    k: string, next: map<string, QVar>)
    requires Halfway(start, goal, done, cur) && SameBut(k, cur, next) && Lookup(next, k) == Lookup(goal, k)
    ensures Halfway(start, goal, done + [k], next)
  {
    forall j ensures Lookup(next, j) == if j in done + [k] then Lookup(goal, j) else Lookup(start, j) {
      assert j in done + [k] <==> j in done || j == k;
    }
  }

  lemma HalfwayAll(start: map<string, QVar>, goal: map<string, QVar>, done: seq<string>, cur: map<string, QVar>)
    requires Halfway(start, goal, done, cur)
    requires forall k :: k !in done ==> Lookup(goal, k) == Lookup(start, k)
    ensures cur == goal
  {
    forall k ensures Lookup(cur, k) == Lookup(goal, k) {
    }
    forall k ensures k in cur <==> k in goal {
      assert Lookup(cur, k) == Lookup(goal, k);
    }
    forall k | k in cur ensures cur[k] == goal[k] {
      assert Lookup(cur, k) == Lookup(goal, k);
    }
  }

  method MergePatch(target: QVar, patch: QVar, diff: Option<QVar>)
    returns (out: QVar, changes: Option<QVar>, count: nat)
    ensures out == Merge(target, patch)
    ensures changes == if diff.None? then None else Some(Diffed(diff.value, target, patch))
    ensures count == Count(target, patch)
    decreases patch, 2
  {
    if patch.Map? {
      var outMap := if target.Map? then target.m else map[];
      var diffMap := if diff.Some? && diff.value.Map? then diff.value.m else map[];
      outMap, diffMap, count := MergeNames(outMap, patch, diff.Some?, diffMap);
      out := Map(outMap);
      changes := if diff.Some? then Some(Map(diffMap)) else None;
    } else {
      out, changes, count := target, diff, 0;
      if target != patch {
        out := patch;
        changes := if diff.Some? then Some(patch) else None;
        count := 1;
      }
    }
  }

  // The state of the loop over the names of a patch after those in `done`.

  ghost predicate MergedUpTo(target: map<string, QVar>, patch: QVar, done: seq<string>, out: map<string, QVar>)
    requires patch.Map?
  {
    Halfway(target, Merge(Map(target), patch).m, done, out)
  }

  ghost predicate DiffedUpTo(diff: map<string, QVar>, target: map<string, QVar>, patch: QVar, done: seq<string>,
                             changes: map<string, QVar>)
    requires patch.Map?
  {
    Halfway(diff, Diffed(Map(diff), Map(target), patch).m, done, changes)
  }

  ghost predicate CountedUpTo(target: map<string, QVar>, patch: QVar, i: nat, count: nat) {
    i <= |Kids(patch)| && count + CountFrom(target, patch, i) == CountFrom(target, patch, 0)
  }

  /** What merging one name does to the tree and to the diff. */
  ghost predicate NameMerged(target: map<string, QVar>, patch: QVar, k: string, out: map<string, QVar>)
    requires patch.Map?
  {
    SameBut(k, target, out) && Lookup(out, k) == Lookup(Merge(Map(target), patch).m, k)
  }

  ghost predicate NameDiffed(diff: map<string, QVar>, target: map<string, QVar>, patch: QVar, k: string,
                             changes: map<string, QVar>)
    requires patch.Map?
  {
    SameBut(k, diff, changes) && Lookup(changes, k) == Lookup(Diffed(Map(diff), Map(target), patch).m, k)
  }

  method MergeNames(target: map<string, QVar>, patch: QVar, wanted: bool, diff: map<string, QVar>)
    returns (out: map<string, QVar>, changes: map<string, QVar>, count: nat)
    requires patch.Map?
    ensures Map(out) == Merge(Map(target), patch)
    ensures wanted ==> Map(changes) == Diffed(Map(diff), Map(target), patch)
    ensures count == CountFrom(target, patch, 0)
    decreases patch, 1
  {
    var keys := NamesInOrder(patch);
    out, changes, count := target, diff, 0;
    for i := 0 to |keys|
      invariant MergedUpTo(target, patch, keys[..i], out)
      invariant wanted ==> DiffedUpTo(diff, target, patch, keys[..i], changes)
      invariant CountedUpTo(target, patch, i, count)
    {
      assert IsTurn(patch, keys, i);
      out, changes, count := MergeNext(target, patch, wanted, diff, keys[..i], keys[i], i, out, changes, count);
    }
    assert keys[..|keys|] == keys;
    AllMerged(target, patch, keys, out);
    if wanted {
      AllDiffed(diff, target, patch, keys, changes);
    }
    CountedAll(target, patch, |keys|, count);
  }

  /** `keys` are the names of the patch, in the order of its children. */
  ghost predicate IsListing(patch: QVar, keys: seq<string>)
    requires patch.Map?
  {
    && |keys| == |Kids(patch)|
    && (forall i :: 0 <= i < |keys| ==> IsTurn(patch, keys, i))
    && forall k :: k !in keys ==> k !in patch.m
  }

  ghost predicate IsTurn(patch: QVar, keys: seq<string>, i: nat)
    requires patch.Map? && i < |keys| == |Kids(patch)|
  {
    && keys[i] in patch.m && Kids(patch)[i] == (keys[i], patch.m[keys[i]])
    && keys[i] !in keys[..i] && keys[..i + 1] == keys[..i] + [keys[i]]
  }

  method NamesInOrder(patch: QVar) returns (keys: seq<string>)
    requires patch.Map?
    ensures IsListing(patch, keys)
  {
    keys := KeysInOrder(patch.m.Keys);
    SortedIsListing(patch, keys);
  }

  lemma SortedIsListing(patch: QVar, keys: seq<string>)
    requires patch.Map? && keys == SortedKeys(patch.m.Keys)
    ensures IsListing(patch, keys)
  {
    forall i | 0 <= i < |keys| ensures i < |Kids(patch)| && IsTurn(patch, keys, i) {
      TurnAt(patch, keys, i);
    }
  }

  lemma TurnAt(patch: QVar, keys: seq<string>, i: nat)
    requires patch.Map? && keys == SortedKeys(patch.m.Keys) && i < |keys|
    ensures |keys| == |Kids(patch)| && IsTurn(patch, keys, i)
  {
    NameNotYet(keys, i, patch.m.Keys);
    KidOfMap(patch, keys, i);
    OneKeyMore(keys, i);
  }

  lemma OneKeyMore(keys: seq<string>, i: nat)
    requires i < |keys|
    ensures keys[..i + 1] == keys[..i] + [keys[i]]
  {
  }

  lemma CountedAll(target: map<string, QVar>, patch: QVar, n: nat, count: nat)
    requires CountedUpTo(target, patch, n, count) && n == |Kids(patch)|
    ensures count == CountFrom(target, patch, 0)
  {
  }

  /** One turn of the loop. */
  method MergeNext(ghost target: map<string, QVar>, patch: QVar, wanted: bool, ghost diff: map<string, QVar>,
                   ghost done: seq<string>, k: string, ghost i: nat,
                   out: map<string, QVar>, changes: map<string, QVar>, count: nat)
    returns (out': map<string, QVar>, changes': map<string, QVar>, count': nat)
    requires patch.Map? && k in patch.m && k !in done
    requires i < |Kids(patch)| && Kids(patch)[i] == (k, patch.m[k])
    requires MergedUpTo(target, patch, done, out)
    requires wanted ==> DiffedUpTo(diff, target, patch, done, changes)
    requires CountedUpTo(target, patch, i, count)
    ensures MergedUpTo(target, patch, done + [k], out')
    ensures wanted ==> DiffedUpTo(diff, target, patch, done + [k], changes')
    ensures CountedUpTo(target, patch, i + 1, count')
    decreases patch, 0, 1
  {
    var n;
    out', changes', n := MergeName(out, patch, k, wanted, changes);
    OneMoreMerged(target, patch, done, k, out, out');
    if wanted {
      OneMoreDiffed(diff, target, patch, done, k, out, changes, changes');
    }
    OneMoreCounted(target, patch, i, out, count, n);
    count' := count + n;
  }

  method MergeName(target: map<string, QVar>, patch: QVar, k: string, wanted: bool, diff: map<string, QVar>)
    returns (out: map<string, QVar>, changes: map<string, QVar>, n: nat)
    requires patch.Map? && k in patch.m
    ensures NameMerged(target, patch, k, out)
    ensures wanted ==> NameDiffed(diff, target, patch, k, changes)
    ensures n == NameCount(target, k, patch.m[k])
    decreases patch, 0, 0
  {
    MergedNameIs(target, patch, k);
    DiffedNameIs(diff, target, patch, k);
    out, changes, n := target, diff, 0;
    // asking the diff for the name makes an entry there
    var slot := if wanted then Some(Field(changes, k)) else None;
    if patch.m[k] == Null {
      if k in out {
        out := out - {k};
        slot := if wanted then Some(Null) else None;
      }
    } else {
      var merged;
      merged, slot, n := MergePatch(Field(out, k), patch.m[k], slot);
      out := out[k := merged];
    }
    if wanted {
      changes := changes[k := slot.value];
    }
  }

  lemma MergedNameIs(target: map<string, QVar>, patch: QVar, k: string)
    requires patch.Map? && k in patch.m
    ensures Lookup(Merge(Map(target), patch).m, k)
         == if patch.m[k] == Null then None else Some(Merge(Field(target, k), patch.m[k]))
  {
  }

  lemma DiffedNameIs(diff: map<string, QVar>, target: map<string, QVar>, patch: QVar, k: string)
    requires patch.Map? && k in patch.m
    ensures Lookup(Diffed(Map(diff), Map(target), patch).m, k)
         == Some(if patch.m[k] != Null then Diffed(Field(diff, k), Field(target, k), patch.m[k])
                 else if k in target then Null
                 else Field(diff, k))
  {
  }

  lemma OutsidePatch(diff: map<string, QVar>, target: map<string, QVar>, patch: QVar, k: string)
    requires patch.Map? && k !in patch.m
    ensures Lookup(Merge(Map(target), patch).m, k) == Lookup(target, k)
    ensures Lookup(Diffed(Map(diff), Map(target), patch).m, k) == Lookup(diff, k)
  {
  }

  lemma AllMerged(target: map<string, QVar>, patch: QVar, keys: seq<string>, out: map<string, QVar>)
    requires patch.Map? && IsListing(patch, keys) && MergedUpTo(target, patch, keys, out)
    ensures Map(out) == Merge(Map(target), patch)
  {
    var goal := Merge(Map(target), patch).m;
    forall k | k !in keys ensures Lookup(goal, k) == Lookup(target, k) {
      OutsidePatch(map[], target, patch, k);
    }
    HalfwayAll(target, goal, keys, out);
  }

  lemma AllDiffed(diff: map<string, QVar>, target: map<string, QVar>, patch: QVar, keys: seq<string>,
                  changes: map<string, QVar>)
    requires patch.Map? && IsListing(patch, keys) && DiffedUpTo(diff, target, patch, keys, changes)
    ensures Map(changes) == Diffed(Map(diff), Map(target), patch)
  {
    var goal := Diffed(Map(diff), Map(target), patch).m;
    forall k | k !in keys ensures Lookup(goal, k) == Lookup(diff, k) {
      OutsidePatch(diff, target, patch, k);
    }
    HalfwayAll(diff, goal, keys, changes);
  }

  /** A name that was not merged yet is merged the same from the state halfway as from the start. */
  lemma OneMoreMerged(target: map<string, QVar>, patch: QVar, done: seq<string>, k: string,
                      out: map<string, QVar>, out': map<string, QVar>)
    requires patch.Map? && k in patch.m && k !in done
    requires MergedUpTo(target, patch, done, out) && NameMerged(out, patch, k, out')
    ensures MergedUpTo(target, patch, done + [k], out')
    ensures Lookup(out, k) == Lookup(target, k)
  {
    assert Lookup(out, k) == Lookup(target, k);
    MergedNameSame(patch, k, out, target);
    HalfwayStep(target, Merge(Map(target), patch).m, done, out, k, out');
  }

  lemma OneMoreDiffed(diff: map<string, QVar>, target: map<string, QVar>, patch: QVar, done: seq<string>, k: string,
                      out: map<string, QVar>, changes: map<string, QVar>, changes': map<string, QVar>)
    requires patch.Map? && k in patch.m && k !in done && Lookup(out, k) == Lookup(target, k)
    requires DiffedUpTo(diff, target, patch, done, changes) && NameDiffed(changes, out, patch, k, changes')
    ensures DiffedUpTo(diff, target, patch, done + [k], changes')
  {
    assert Lookup(changes, k) == Lookup(diff, k);
    DiffedNameSame(patch, k, out, target, changes, diff);
    HalfwayStep(diff, Diffed(Map(diff), Map(target), patch).m, done, changes, k, changes');
  }

  lemma OneMoreCounted(target: map<string, QVar>, patch: QVar, i: nat, out: map<string, QVar>, count: nat, n: nat)
    requires i < |Kids(patch)| && CountedUpTo(target, patch, i, count)
    requires Lookup(out, Kids(patch)[i].0) == Lookup(target, Kids(patch)[i].0)
    requires n == NameCount(out, Kids(patch)[i].0, Kids(patch)[i].1)
    ensures CountedUpTo(target, patch, i + 1, count + n)
  {
    SameField(out, target, Kids(patch)[i].0);
    CountFromStep(target, patch, i);
  }

  lemma SameField(a: map<string, QVar>, b: map<string, QVar>, k: string)
    requires Lookup(a, k) == Lookup(b, k)
    ensures Field(a, k) == Field(b, k)
  {
  }

  lemma KidOfMap(t: QVar, keys: seq<string>, i: nat)
    requires t.Map? && keys == SortedKeys(t.m.Keys) && i < |keys| && keys[i] in t.m
    ensures i < |Kids(t)| && Kids(t)[i] == (keys[i], t.m[keys[i]])
  {
  }

  lemma CountFromEnd(o: map<string, QVar>, patch: QVar)
    ensures CountFrom(o, patch, |Kids(patch)|) == 0
  {
  }

  lemma CountFromStep(o: map<string, QVar>, patch: QVar, i: nat)
    requires i < |Kids(patch)|
    ensures CountFrom(o, patch, i) == NameCount(o, Kids(patch)[i].0, Kids(patch)[i].1) + CountFrom(o, patch, i + 1)
  {
  }

  lemma MergedNameSame(patch: QVar, k: string, a: map<string, QVar>, b: map<string, QVar>)
    requires patch.Map? && k in patch.m && Lookup(a, k) == Lookup(b, k)
    ensures Lookup(Merge(Map(a), patch).m, k) == Lookup(Merge(Map(b), patch).m, k)
  {
    assert Field(a, k) == Field(b, k);
  }

  lemma DiffedNameSame(patch: QVar, k: string, a: map<string, QVar>, b: map<string, QVar>,
                       c: map<string, QVar>, d: map<string, QVar>)
    requires patch.Map? && k in patch.m && Lookup(a, k) == Lookup(b, k) && Lookup(c, k) == Lookup(d, k)
    ensures Lookup(Diffed(Map(c), Map(a), patch).m, k) == Lookup(Diffed(Map(d), Map(b), patch).m, k)
  {
    assert Field(a, k) == Field(b, k) && Field(c, k) == Field(d, k);
    assert k in a <==> k in b;
  }

  lemma NameNotYet(keys: seq<string>, i: nat, all: set<string>)
    requires keys == SortedKeys(all) && i < |keys|
    ensures keys[i] !in keys[..i] && keys[i] in all
  {
    assert keys[i] in keys;
    forall j | 0 <= j < i ensures keys[j] != keys[i] {
      LessTotal(keys[j], keys[i]);
    }
  }

  // ---------------------------------------------------------------- idempotence

  lemma {:induction false} MergeTwice(t: QVar, patch: QVar)
    ensures Merge(Merge(t, patch), patch) == Merge(t, patch)
    decreases patch
  {
    if patch.Map? {
      var once, twice := Merge(t, patch).m, Merge(Merge(t, patch), patch).m;
      forall k | k in patch.m && patch.m[k] != Null ensures k in twice && twice[k] == once[k] {
        MergeTwice(Field(Fields(t), k), patch.m[k]);
      }
      assert twice == once;
    }
  }

  lemma {:induction false} CountAfter(t: QVar, patch: QVar)
    ensures Count(Merge(t, patch), patch) == 0
    decreases patch
  {
    if patch.Map? {
      var o, after := Fields(t), Fields(Merge(t, patch));
      forall i | 0 <= i < |Kids(patch)| ensures NothingCounted(after, patch, i) {
        CountAfter(Field(o, Kids(patch)[i].0), Kids(patch)[i].1);
        assert MergedFields(o, patch, after);
      }
      NothingCountedSum(after, patch, 0);
    }
  }

  ghost predicate NothingCounted(after: map<string, QVar>, patch: QVar, i: nat)
    requires i < |Kids(patch)|
  {
    NameCount(after, Kids(patch)[i].0, Kids(patch)[i].1) == 0
  }

  lemma {:induction false} NothingCountedSum(after: map<string, QVar>, patch: QVar, i: nat)
    requires i <= |Kids(patch)| && forall j :: 0 <= j < |Kids(patch)| ==> NothingCounted(after, patch, j)
    ensures CountFrom(after, patch, i) == 0
    decreases |Kids(patch)| - i
  {
    if i < |Kids(patch)| {
      assert NothingCounted(after, patch, i);
      NothingCountedSum(after, patch, i + 1);
      CountFromStep(after, patch, i);
    } else {
      CountFromEnd(after, patch);
    }
  }

  ghost predicate MergedFields(o: map<string, QVar>, patch: QVar, after: map<string, QVar>)
    requires patch.Map?
  {
    forall k :: k in patch.m && patch.m[k] != Null ==> Field(after, k) == Merge(Field(o, k), patch.m[k])
  }

  // ---------------------------------------------------------------- the diff stands for the change

  /** A diff without its invalid entries. */
  function Pruned(d: QVar): QVar
    decreases d
  {
    match d
    case Map(m) => Map(map k | k in m && m[k] != Null :: Pruned(m[k]))
    case _ => d
  }

  /** Applying a diff that was started empty: an invalid one says that nothing changed. */
  function ApplyDiff(t: QVar, diff: QVar): QVar {
    if diff == Null then t else Merge(t, Pruned(diff))
  }

  /** The patch removes a name that is there, at any depth, or the whole tree. */
  ghost predicate Deletes(t: QVar, patch: QVar)
    decreases patch
  {
    match patch
    case Map(p) =>
      exists k :: k in p && if p[k] == Null then k in Fields(t) else Deletes(Field(Fields(t), k), p[k])
    case Null => t != Null
    case _ => false
  }

  /** The pruned diff of one name: an entry only where something was replaced or a map was patched. */
  lemma PrunedAt(t: QVar, patch: QVar, k: string)
    requires patch.Map?
    ensures
      var d := Pruned(Diffed(Null, t, patch)).m;
      && (k !in patch.m || patch.m[k] == Null ==> k !in d)
      && (k in patch.m && patch.m[k] != Null ==>
            var sub := Diffed(Null, Field(Fields(t), k), patch.m[k]);
            Lookup(d, k) == if sub == Null then None else Some(Pruned(sub)))
  {
  }

  lemma PruneKeepsValid(d: QVar)
    ensures Pruned(d) == Null <==> d == Null
  {
  }

  /** Applying the diff name by name. */
  lemma ApplyDiffAt(t: QVar, patch: QVar, k: string)
    requires patch.Map?
    ensures
      var applied, o := Fields(ApplyDiff(t, Diffed(Null, t, patch))), Fields(t);
      Lookup(applied, k) ==
        if k !in patch.m || patch.m[k] == Null then Lookup(o, k)
        else
          var sub := Diffed(Null, Field(o, k), patch.m[k]);
          if sub == Null then Lookup(o, k) else Some(ApplyDiff(Field(o, k), sub))
  {
    PrunedAt(t, patch, k);
    if k in patch.m && patch.m[k] != Null {
      PruneKeepsValid(Diffed(Null, Field(Fields(t), k), patch.m[k]));
    }
  }

  ghost predicate DeletesName(t: QVar, patch: QVar, k: string)
    requires patch.Map?
  {
    k in patch.m && if patch.m[k] == Null then k in Fields(t) else Deletes(Field(Fields(t), k), patch.m[k])
  }

  lemma DeletesSomeName(t: QVar, patch: QVar)
    requires patch.Map?
    ensures Deletes(t, patch) <==> exists k :: DeletesName(t, patch, k)
  {
    if Deletes(t, patch) {
      var k :| k in patch.m && if patch.m[k] == Null then k in Fields(t) else Deletes(Field(Fields(t), k), patch.m[k]);
      assert DeletesName(t, patch, k);
    }
  }

  /** One name of a patch: the diff gives what the patch gives unless the patch removes something there. */
  lemma DiffOfName(t: QVar, patch: QVar, k: string)
    requires patch.Map?
    requires k in patch.m && patch.m[k] != Null ==>
      var sub, o := patch.m[k], Field(Fields(t), k);
      ApplyDiff(o, Diffed(Null, o, sub)) == Merge(o, sub) <==> !Deletes(o, sub)
    ensures
      var applied := Fields(ApplyDiff(t, Diffed(Null, t, patch)));
      Lookup(applied, k) == Lookup(Merge(t, patch).m, k) <==> !DeletesName(t, patch, k)
  {
    ApplyDiffAt(t, patch, k);
  }

  /** The diff turns the old tree into the new one exactly when the patch removes nothing. */
  lemma {:induction false} DiffIsChangeIff(t: QVar, patch: QVar)
    ensures ApplyDiff(t, Diffed(Null, t, patch)) == Merge(t, patch) <==> !Deletes(t, patch)
    decreases patch
  {
    if patch.Map? {
      var applied, merged := ApplyDiff(t, Diffed(Null, t, patch)).m, Merge(t, patch).m;
      forall k ensures Lookup(applied, k) == Lookup(merged, k) <==> !DeletesName(t, patch, k) {
        if k in patch.m {
          DiffIsChangeIff(Field(Fields(t), k), patch.m[k]);
        }
        DiffOfName(t, patch, k);
      }
      DeletesSomeName(t, patch);
      if forall k :: Lookup(applied, k) == Lookup(merged, k) {
        HalfwayAll(merged, merged, [], applied);
      }
    }
  }

  // ---------------------------------------------------------------- the count

  /** The valid values a diff holds. */
  ghost function ValidLeaves(d: QVar): nat
    decreases d, |Kids(d)| + 1
  {
    if d.Map? then ValidFrom(d, 0) else if d == Null then 0 else 1
  }

  ghost function ValidFrom(d: QVar, i: nat): nat
    requires i <= |Kids(d)|
    decreases d, |Kids(d)| - i
  {
    if i == |Kids(d)| then 0 else ValidLeaves(Kids(d)[i].1) + ValidFrom(d, i + 1)
  }

  /** The diff has the names of the patch, each with the diff of its own. */
  ghost predicate NamesMatch(t: QVar, patch: QVar, d: QVar) {
    |Kids(d)| == |Kids(patch)| && forall i :: 0 <= i < |Kids(patch)| ==> NameMatches(t, patch, d, i)
  }

  ghost predicate NameMatches(t: QVar, patch: QVar, d: QVar, i: nat)
    requires i < |Kids(d)| && i < |Kids(patch)|
  {
    Kids(d)[i].1 == SubDiff(t, Kids(patch)[i].0, Kids(patch)[i].1)
  }

  function SubDiff(t: QVar, name: string, sub: QVar): QVar {
    if sub == Null then Null else Diffed(Null, Field(Fields(t), name), sub)
  }

  lemma DiffAt(t: QVar, patch: QVar, k: string)
    requires patch.Map? && k in patch.m
    ensures k in Diffed(Null, t, patch).m && Diffed(Null, t, patch).m[k] == SubDiff(t, k, patch.m[k])
  {
  }

  lemma DiffNamesMatch(t: QVar, patch: QVar)
    requires patch.Map?
    ensures NamesMatch(t, patch, Diffed(Null, t, patch))
  {
    var d, keys := Diffed(Null, t, patch), SortedKeys(patch.m.Keys);
    assert d.m.Keys == patch.m.Keys;
    forall i | 0 <= i < |Kids(patch)| ensures i < |Kids(d)| && NameMatches(t, patch, d, i) {
      assert keys[i] in keys;
      KidOfMap(patch, keys, i);
      KidOfMap(d, keys, i);
      DiffAt(t, patch, keys[i]);
    }
  }

  /** The returned count is the number of valid values in the diff, except when a whole tree is removed. */
  lemma {:induction false} CountIsValidLeavesIff(t: QVar, patch: QVar)
    ensures ValidLeaves(Diffed(Null, t, patch)) == Count(t, patch) <==> !(patch == Null && t != Null)
    decreases patch
  {
    if patch.Map? {
      var d, o := Diffed(Null, t, patch), Fields(t);
      DiffNamesMatch(t, patch);
      forall i | 0 <= i < |Kids(patch)| ensures CountedName(o, patch, d, i) {
        CountIsValidLeavesIff(Field(o, Kids(patch)[i].0), Kids(patch)[i].1);
        NameCounted(t, patch, d, i);
      }
      CountedNamesSum(o, patch, d, 0);
    }
  }

  ghost predicate CountedName(o: map<string, QVar>, patch: QVar, d: QVar, i: nat)
    requires i < |Kids(patch)| && i < |Kids(d)|
  {
    ValidLeaves(Kids(d)[i].1) == NameCount(o, Kids(patch)[i].0, Kids(patch)[i].1)
  }

  ghost predicate CountedNames(o: map<string, QVar>, patch: QVar, d: QVar) {
    |Kids(d)| == |Kids(patch)| && forall j :: 0 <= j < |Kids(patch)| ==> CountedName(o, patch, d, j)
  }

  lemma {:induction false} CountedNamesSum(o: map<string, QVar>, patch: QVar, d: QVar, i: nat)
    requires CountedNames(o, patch, d) && i <= |Kids(patch)|
    ensures ValidFrom(d, i) == CountFrom(o, patch, i)
    decreases |Kids(patch)| - i
  {
    if i == |Kids(patch)| {
      CountedNamesEnd(o, patch, d, i);
    } else {
      CountedNamesOn(o, patch, d, i);
    }
  }

  lemma {:induction false} CountedNamesOn(o: map<string, QVar>, patch: QVar, d: QVar, i: nat)
    requires CountedNames(o, patch, d) && i < |Kids(patch)|
    ensures ValidFrom(d, i) == CountFrom(o, patch, i)
    decreases |Kids(patch)| - i, 0
  {
    CountedNamesSum(o, patch, d, i + 1);
    CountedNamesNext(o, patch, d, i);
  }

  lemma CountedNamesEnd(o: map<string, QVar>, patch: QVar, d: QVar, i: nat)
    requires i == |Kids(patch)| == |Kids(d)|
    ensures ValidFrom(d, i) == CountFrom(o, patch, i)
  {
  }

  lemma CountedNamesNext(o: map<string, QVar>, patch: QVar, d: QVar, i: nat)
    requires CountedNames(o, patch, d) && i < |Kids(patch)|
    requires ValidFrom(d, i + 1) == CountFrom(o, patch, i + 1)
    ensures ValidFrom(d, i) == CountFrom(o, patch, i)
  {
    assert CountedName(o, patch, d, i);
    CountFromStep(o, patch, i);
    ValidFromStep(d, i);
  }

  lemma NameCounted(t: QVar, patch: QVar, d: QVar, i: nat)
    requires i < |Kids(patch)| && NamesMatch(t, patch, d)
    requires
      var (name, sub) := Kids(patch)[i];
      var o := Field(Fields(t), name);
      ValidLeaves(Diffed(Null, o, sub)) == Count(o, sub) <==> !(sub == Null && o != Null)
    ensures CountedName(Fields(t), patch, d, i)
  {
    assert NameMatches(t, patch, d, i);
  }

  lemma ValidFromStep(d: QVar, i: nat)
    requires i < |Kids(d)|
    ensures ValidFrom(d, i) == ValidLeaves(Kids(d)[i].1) + ValidFrom(d, i + 1)
  {
  }

  // ---------------------------------------------------------------- what a count of 0 leaves open

  /** Some valid value of the patch that is no map differs from what is there (or a whole tree is removed). */
  ghost predicate Replaces(t: QVar, patch: QVar)
    decreases patch
  {
    match patch
    case Map(p) => exists k :: k in p && p[k] != Null && Replaces(Field(Fields(t), k), p[k])
    case _ => t != patch
  }

  ghost predicate ReplacesAtName(t: QVar, patch: QVar, k: string)
    requires patch.Map?
  {
    k in patch.m && patch.m[k] != Null && Replaces(Field(Fields(t), k), patch.m[k])
  }

  lemma ReplacesAtSomeName(t: QVar, patch: QVar)
    requires patch.Map?
    ensures Replaces(t, patch) <==> exists k :: ReplacesAtName(t, patch, k)
  {
    if Replaces(t, patch) {
      var k :| k in patch.m && patch.m[k] != Null && Replaces(Field(Fields(t), k), patch.m[k]);
      assert ReplacesAtName(t, patch, k);
    }
  }

  /** Some map of the patch meets a value that is no map, so that a map is put there. */
  ghost predicate NewMap(t: QVar, patch: QVar)
    decreases patch
  {
    match patch
    case Map(p) => !t.Map? || exists k :: k in p && p[k] != Null && NewMap(Field(Fields(t), k), p[k])
    case _ => false
  }

  ghost predicate NewMapAtName(t: QVar, patch: QVar, k: string)
    requires patch.Map?
  {
    k in patch.m && patch.m[k] != Null && NewMap(Field(Fields(t), k), patch.m[k])
  }

  ghost predicate CountsName(t: QVar, patch: QVar, k: string)
    requires patch.Map?
  {
    k in patch.m && NameCount(Fields(t), k, patch.m[k]) > 0
  }

  lemma NewMapAtSomeName(t: QVar, patch: QVar)
    requires patch.Map? && t.Map?
    ensures NewMap(t, patch) <==> exists k :: NewMapAtName(t, patch, k)
  {
    if NewMap(t, patch) {
      var k :| k in patch.m && patch.m[k] != Null && NewMap(Field(Fields(t), k), patch.m[k]);
      assert NewMapAtName(t, patch, k);
    }
  }

  /** The names `keys` of the patch from number `i` on, one of which counts. */
  ghost predicate CountsFrom(t: QVar, patch: QVar, keys: seq<string>, i: nat)
    requires patch.Map?
  {
    exists j :: i <= j < |keys| && CountsName(t, patch, keys[j])
  }

  lemma CountsFromNext(t: QVar, patch: QVar, keys: seq<string>, i: nat, rest: nat)
    requires patch.Map? && i < |keys| && keys[i] in patch.m
    requires rest > 0 <==> CountsFrom(t, patch, keys, i + 1)
    ensures NameCount(Fields(t), keys[i], patch.m[keys[i]]) + rest > 0 <==> CountsFrom(t, patch, keys, i)
  {
    if CountsFrom(t, patch, keys, i + 1) {
      var j :| i + 1 <= j < |keys| && CountsName(t, patch, keys[j]);
    }
    if CountsFrom(t, patch, keys, i) && !CountsName(t, patch, keys[i]) {
      var j :| i <= j < |keys| && CountsName(t, patch, keys[j]);
      assert j != i;
    }
  }

  lemma {:induction false} CountsFromName(t: QVar, patch: QVar, keys: seq<string>, i: nat)
    requires patch.Map? && IsListing(patch, keys) && i <= |keys|
    ensures CountFrom(Fields(t), patch, i) > 0 <==> CountsFrom(t, patch, keys, i)
    decreases |keys| - i
  {
    if i < |keys| {
      assert IsTurn(patch, keys, i);
      CountsFromName(t, patch, keys, i + 1);
      CountsFromNext(t, patch, keys, i, CountFrom(Fields(t), patch, i + 1));
      CountFromStep(Fields(t), patch, i);
    }
  }

  lemma CountsSomeName(t: QVar, patch: QVar)
    requires patch.Map?
    ensures Count(t, patch) > 0 <==> exists k :: CountsName(t, patch, k)
  {
    var keys := SortedKeys(patch.m.Keys);
    SortedIsListing(patch, keys);
    CountsFromName(t, patch, keys, 0);
    if k :| CountsName(t, patch, k) {
      assert k in keys;
    }
  }

  /** The count is above 0 exactly if the patch replaces something. */
  lemma {:induction false} CountsIffReplaces(t: QVar, patch: QVar)
    ensures Count(t, patch) > 0 <==> Replaces(t, patch)
    decreases patch
  {
    if patch.Map? {
      forall k ensures CountsName(t, patch, k) <==> ReplacesAtName(t, patch, k) {
        if k in patch.m {
          CountsIffReplaces(Field(Fields(t), k), patch.m[k]);
        }
      }
      CountsSomeName(t, patch);
      ReplacesAtSomeName(t, patch);
    }
  }

  /** One name of a patch on a map. */
  lemma UnchangedName(t: QVar, patch: QVar, k: string)
    requires patch.Map? && t.Map?
    requires k in patch.m && patch.m[k] != Null ==>
      var o, sub := Field(t.m, k), patch.m[k];
      Merge(o, sub) == o <==> !Replaces(o, sub) && !Deletes(o, sub) && !NewMap(o, sub)
    ensures Lookup(Merge(t, patch).m, k) == Lookup(t.m, k) <==>
      !ReplacesAtName(t, patch, k) && !DeletesName(t, patch, k) && !NewMapAtName(t, patch, k)
  {
    if k in patch.m {
      MergedNameIs(t.m, patch, k);
    } else {
      OutsidePatch(map[], t.m, patch, k);
    }
  }

  /** A patch leaves the tree as it is exactly if it replaces nothing, removes nothing and puts no map where
      there was none. */
  lemma {:induction false} UnchangedIff(t: QVar, patch: QVar)
    ensures Merge(t, patch) == t <==> !Replaces(t, patch) && !Deletes(t, patch) && !NewMap(t, patch)
    decreases patch
  {
    if patch.Map? && t.Map? {
      var merged := Merge(t, patch).m;
      forall k ensures Lookup(merged, k) == Lookup(t.m, k) <==>
          !ReplacesAtName(t, patch, k) && !DeletesName(t, patch, k) && !NewMapAtName(t, patch, k) {
        if k in patch.m {
          UnchangedIff(Field(t.m, k), patch.m[k]);
        }
        UnchangedName(t, patch, k);
      }
      ReplacesAtSomeName(t, patch);
      DeletesSomeName(t, patch);
      NewMapAtSomeName(t, patch);
      if forall k :: Lookup(merged, k) == Lookup(t.m, k) {
        HalfwayAll(merged, t.m, [], merged);
      }
    }
  }

  /** The count answers whether anything changed, except exactly where the patch replaces nothing but removes
      something or puts a map where there was none. */
  lemma CountTellsChangeIff(t: QVar, patch: QVar)
    ensures (Count(t, patch) > 0 <==> Merge(t, patch) != t)
       <==> Replaces(t, patch) || !(Deletes(t, patch) || NewMap(t, patch))
  {
    UnchangedIff(t, patch);
    CountsIffReplaces(t, patch);
  }

  /** A removal is not counted, so a caller that asks the count sees no change. */
  lemma RemovalNotCounted(k: string, x: QVar)
    ensures
      var t, patch := Map(map[k := x]), Map(map[k := Null]);
      Count(t, patch) == 0 && Merge(t, patch) != t
  {
    var t, patch := Map(map[k := x]), Map(map[k := Null]);
    assert k in t.m && k !in Merge(t, patch).m;
    assert Kids(patch)[0].1 == Null;
    CountFromStep(Fields(t), patch, 0);
    assert CountFrom(Fields(t), patch, 1) == 0;
  }

  /** Nor is the empty map that takes the place of a scalar. */
  lemma EmptyMapNotCounted(x: Scalar)
    ensures
      var t, patch := Leaf(x), Map(map[]);
      Count(t, patch) == 0 && Merge(t, patch) != t && !Deletes(t, patch)
  {
    CountTellsChangeIff(Leaf(x), Map(map[]));
    assert |Kids(Map(map[]))| == 0;
  }
}
