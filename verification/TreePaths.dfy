/** The leaves of a message tree and the paths that lead to them. */
module TreePaths {
  import opened Variants
  import opened KeyOrder

  // ---------------------------------------------------------------- list indices in paths

  const DIGITS: string := "0123456789"

  predicate AllDigits(s: string) {
    forall i :: 0 <= i < |s| ==> '0' <= s[i] <= '9'
  }

  /** std::to_string for an unsigned number. */
  function Dec(n: nat): (s: string)
    ensures s != [] && AllDigits(s)
  {
    if n < 10 then [DIGITS[n]] else Dec(n / 10) + [DIGITS[n % 10]]
  }

  function DigitValue(c: char): int
    requires '0' <= c <= '9'
  {
    c as int - '0' as int
  }

  function DecValue(s: string): nat
    requires AllDigits(s)
  {
    if s == [] then 0 else DecValue(s[..|s| - 1]) * 10 + DigitValue(s[|s| - 1])
  }

  predicate IsIndexPart(part: string) {
    |part| >= 3 && part[0] == '[' && part[|part| - 1] == ']'
    && AllDigits(part[1..|part| - 1])
  }

  function IndexOfPart(part: string): int {
    if IsIndexPart(part) then DecValue(part[1..|part| - 1]) else -1
  }

  function IndexPart(n: nat): string {
    "[" + Dec(n) + "]"
  }

  /** tryInt: -1 for anything but a "[digits]" part. */
  method TryInt(part: string) returns (res: int)
    ensures res == IndexOfPart(part)
  {
    if |part| < 3 || part[0] != '[' || part[|part| - 1] != ']' {
      return -1;
    }
    var digits := part[1..|part| - 1];
    res := 0;
    for i := 0 to |digits|
      invariant AllDigits(digits[..i])
      invariant res == DecValue(digits[..i])
    {
      var ch := digits[i];
      if '0' <= ch <= '9' {
        assert digits[..i + 1][..i] == digits[..i];
        res := res * 10 + (ch as int - '0' as int);
      } else {
        return -1;
      }
    }
    assert digits[..|digits|] == digits;
  }

  lemma {:induction false} DecValueOfDec(n: nat)
    ensures DecValue(Dec(n)) == n
    decreases n
  {
    if n >= 10 {
      DecValueOfDec(n / 10);
      assert Dec(n)[..|Dec(n)| - 1] == Dec(n / 10);
    } else {
      assert Dec(n)[..0] == [];
    }
  }

  /** Printing an index and reading it back. */
  lemma IndexRoundTrip(n: nat)
    ensures IndexOfPart(IndexPart(n)) == n
  {
    var part := IndexPart(n);
    assert part[1..|part| - 1] == Dec(n);
    DecValueOfDec(n);
  }

  // ---------------------------------------------------------------- children and leaves

  /** The children of a container with their path parts, in iteration order. */
  ghost function Kids(t: QVar): (kids: seq<(string, QVar)>)
    ensures forall i :: 0 <= i < |kids| ==> kids[i].1 < t
    ensures t.Map? ==>
      |kids| == |t.m| && forall i :: 0 <= i < |kids| ==> kids[i].0 in t.m && kids[i].1 == t.m[kids[i].0]
    ensures t.List? ==> |kids| == |t.l|
  {
    match t
    case Map(m) =>
      var keys := SortedKeys(m.Keys);
      assert forall i :: 0 <= i < |keys| ==> keys[i] in keys;
      seq(|keys|, i requires 0 <= i < |keys| => (keys[i], m[keys[i]]))
    case List(l) => seq(|l|, i requires 0 <= i < |l| => (IndexPart(i), l[i]))
    case _ => []
  }

  type Path = seq<string>

  /** A leaf and the parts of the path to it. */
  datatype Entry = Entry(path: Path, value: QVar)

  function Under(part: string, entries: seq<Entry>): (r: seq<Entry>)
    ensures |r| == |entries|
  {
    if entries == [] then []
    else [Entry([part] + entries[0].path, entries[0].value)] + Under(part, entries[1..])
  }

  lemma {:induction false} UnderAt(part: string, entries: seq<Entry>, i: nat)
    requires i < |entries|
    ensures Under(part, entries)[i] == Entry([part] + entries[i].path, entries[i].value)
    decreases i
  {
    if i > 0 {
      UnderAt(part, entries[1..], i - 1);
    }
  }

  /** The leaves of a tree in iteration order. */
  ghost function Leaves(t: QVar): seq<Entry>
    decreases t, |Kids(t)| + 1
  {
    if IsContainer(t) then LeavesFrom(t, 0) else [Entry([], t)]
  }

  ghost function LeavesFrom(t: QVar, i: nat): seq<Entry>
    requires i <= |Kids(t)|
    decreases t, |Kids(t)| - i
  {
    if i == |Kids(t)| then []
    else Under(Kids(t)[i].0, Leaves(Kids(t)[i].1)) + LeavesFrom(t, i + 1)
  }

  /** The parts of a path joined with ':'. */
  function Joined(path: Path): string {
    if path == [] then "" else if |path| == 1 then path[0] else path[0] + ":" + Joined(path[1..])
  }

  /** One row of a flat listing. */
  datatype Row = Row(key: string, value: QVar)

  function Rows(entries: seq<Entry>): (rows: seq<Row>)
    ensures |rows| == |entries|
  {
    if entries == [] then [] else [Row(Joined(entries[0].path), entries[0].value)] + Rows(entries[1..])
  }

  lemma {:induction false} RowsAt(entries: seq<Entry>, i: nat)
    requires i < |entries|
    ensures Rows(entries)[i] == Row(Joined(entries[i].path), entries[i].value)
    decreases i
  {
    if i > 0 {
      RowsAt(entries[1..], i - 1);
    }
  }
}
