/**
 Framing of byte streams: a receiver keeps the bytes it could not use yet, and cuts frames off the
 front of what it has. What it delivers must not depend on how the stream was chunked.
 */
module Framing {
  newtype byte = x: int | 0 <= x < 256

  type Bytes = seq<byte>

  datatype Cut = More | Frame(frame: Bytes, rest: Bytes)

  ghost predicate Shrinks(cut: Bytes -> Cut) {
    forall b :: cut(b).Frame? ==> |cut(b).rest| < |b|
  }

  /** A frame that is complete stays the same frame whatever bytes follow. */
  ghost predicate Stable(cut: Bytes -> Cut) {
    forall b, more :: StableAt(cut, b, more)
  }

  ghost predicate StableAt(cut: Bytes -> Cut, b: Bytes, more: Bytes) {
    cut(b).Frame? ==> cut(b + more) == Frame(cut(b).frame, cut(b).rest + more)
  }

  ghost function Drain(cut: Bytes -> Cut, b: Bytes): (r: (seq<Bytes>, Bytes))
    requires Shrinks(cut)
    ensures cut(r.1) == More
    decreases |b|
  {
    match cut(b)
    case More => ([], b)
    case Frame(f, rest) => var (fs, tail) := Drain(cut, rest); ([f] + fs, tail)
  }

  lemma DrainOne(cut: Bytes -> Cut, b: Bytes, f: Bytes, rest: Bytes)
    requires Shrinks(cut) && cut(b) == Frame(f, rest)
    ensures Drain(cut, b) == ([f] + Drain(cut, rest).0, Drain(cut, rest).1)
  {
  }

  /** Each chunk is appended to the retained bytes, and what is complete is cut off. */
  ghost function Feed(cut: Bytes -> Cut, buffer: Bytes, chunks: seq<Bytes>): (seq<Bytes>, Bytes)
    requires Shrinks(cut)
    decreases |chunks|
  {
    if chunks == [] then ([], buffer)
    else
      var (fs, tail) := Drain(cut, buffer + chunks[0]);
      var (gs, last) := Feed(cut, tail, chunks[1..]);
      (fs + gs, last)
  }

  function Flat(chunks: seq<Bytes>): Bytes {
    if chunks == [] then [] else chunks[0] + Flat(chunks[1..])
  }

  /** Draining in two goes is draining in one. */
  lemma {:induction false} DrainAppend(cut: Bytes -> Cut, b: Bytes, more: Bytes)
    requires Shrinks(cut) && Stable(cut)
    ensures
      var (fs, tail) := Drain(cut, b);
      var (gs, last) := Drain(cut, tail + more);
      Drain(cut, b + more) == (fs + gs, last)
    decreases |b|
  {
    match cut(b)
    case More =>
      assert [] + Drain(cut, b + more).0 == Drain(cut, b + more).0;
    case Frame(f, rest) =>
      assert StableAt(cut, b, more);
      DrainAppend(cut, rest, more);
      var (fs, tail) := Drain(cut, rest);
      var (gs, last) := Drain(cut, tail + more);
      assert [f] + (fs + gs) == ([f] + fs) + gs;
  }

  /** The frames delivered and the bytes retained depend on the stream alone. */
  lemma {:induction false} ChunkingIndependent(cut: Bytes -> Cut, buffer: Bytes, chunks: seq<Bytes>)
    requires Shrinks(cut) && Stable(cut) && cut(buffer) == More
    ensures Feed(cut, buffer, chunks) == Drain(cut, buffer + Flat(chunks))
    decreases |chunks|
  {
    if chunks == [] {
      assert buffer + [] == buffer;
    } else {
      var (fs, tail) := Drain(cut, buffer + chunks[0]);
      ChunkingIndependent(cut, tail, chunks[1..]);
      DrainAppend(cut, buffer + chunks[0], Flat(chunks[1..]));
      assert buffer + Flat(chunks) == buffer + chunks[0] + Flat(chunks[1..]);
    }
  }

  // ---------------------------------------------------------------- frames ended by a delimiter

  function IndexOf(b: Bytes, d: byte): (i: int)
    ensures i == -1 <==> d !in b
    ensures i != -1 ==> 0 <= i < |b| && b[i] == d && d !in b[..i]
  {
    if b == [] then -1
    else if b[0] == d then 0
    else
      var i := IndexOf(b[1..], d);
      assert i != -1 ==> b[..i + 1] == [b[0]] + b[1..][..i];
      assert b == [b[0]] + b[1..];
      if i == -1 then -1 else i + 1
  }

  function CutAt(d: byte): Bytes -> Cut {
    (b: Bytes) => var i := IndexOf(b, d); if i == -1 then More else Frame(b[..i], b[i + 1..])
  }

  lemma IndexOfIs(b: Bytes, d: byte, i: nat)
    requires i < |b| && b[i] == d && d !in b[..i]
    ensures IndexOf(b, d) == i
  {
    var j := IndexOf(b, d);
    assert d in b;
    forall k | 0 <= k < i ensures b[k] != d {
      assert b[..i][k] == b[k];
    }
    forall k | 0 <= k < j ensures b[k] != d {
      assert b[..j][k] == b[k];
    }
  }

  lemma CutAtWorks(d: byte)
    ensures Shrinks(CutAt(d)) && Stable(CutAt(d))
  {
    var cut := CutAt(d);
    forall b, more ensures StableAt(cut, b, more) {
      var i := IndexOf(b, d);
      if i != -1 {
        assert (b + more)[..i] == b[..i] && (b + more)[i] == b[i];
        IndexOfIs(b + more, d, i);
        assert (b + more)[i + 1..] == b[i + 1..] + more;
      }
    }
  }

  /** Each payload followed by the delimiter. */
  function Delimited(payloads: seq<Bytes>, d: byte): Bytes {
    if payloads == [] then [] else payloads[0] + [d] + Delimited(payloads[1..], d)
  }

  lemma DelimitedCons(p: Bytes, payloads: seq<Bytes>, d: byte)
    ensures Delimited([p] + payloads, d) == p + [d] + Delimited(payloads, d)
  {
    assert ([p] + payloads)[1..] == payloads;
  }

  lemma CutOffFirst(p: Bytes, d: byte, rest: Bytes)
    requires d !in p
    ensures CutAt(d)(p + [d] + rest) == Frame(p, rest)
  {
    var s := p + [d] + rest;
    assert s[..|p|] == p && s[|p|] == d && s[|p| + 1..] == rest;
    IndexOfIs(s, d, |p|);
  }

  lemma {:induction false} DrainDelimited(payloads: seq<Bytes>, d: byte, tail: Bytes)
    requires forall i :: 0 <= i < |payloads| ==> d !in payloads[i]
    requires d !in tail
    ensures Shrinks(CutAt(d)) && Drain(CutAt(d), Delimited(payloads, d) + tail) == (payloads, tail)
    decreases |payloads|
  {
    CutAtWorks(d);
    if payloads == [] {
      assert [] + tail == tail;
    } else {
      var rest := Delimited(payloads[1..], d) + tail;
      assert Delimited(payloads, d) + tail == payloads[0] + [d] + rest;
      CutOffFirst(payloads[0], d, rest);
      DrainDelimited(payloads[1..], d, tail);
      DrainOne(CutAt(d), payloads[0] + [d] + rest, payloads[0], rest);
      assert payloads == [payloads[0]] + payloads[1..];
    }
  }

  ghost predicate Splits(b: Bytes, d: byte, frames: seq<Bytes>, tail: Bytes) {
    && b == Delimited(frames, d) + tail && d !in tail
    && forall i :: 0 <= i < |frames| ==> d !in frames[i]
  }

  lemma SplitsNil(b: Bytes, d: byte)
    requires d !in b
    ensures Splits(b, d, [], b)
  {
    assert [] + b == b;
  }

  lemma SplitsCons(b: Bytes, d: byte, i: nat, frames: seq<Bytes>, tail: Bytes)
    requires i < |b| && b[i] == d && d !in b[..i] && Splits(b[i + 1..], d, frames, tail)
    ensures Splits(b, d, [b[..i]] + frames, tail)
  {
    DelimitedCons(b[..i], frames, d);
    assert b == b[..i] + [d] + b[i + 1..];
    assert b[..i] + [d] + Delimited(frames, d) + tail == b[..i] + [d] + (Delimited(frames, d) + tail);
  }

  /** Every stream is its frames, each with its delimiter, and a tail without one. */
  lemma {:induction false} DrainSplits(b: Bytes, d: byte)
    ensures Shrinks(CutAt(d)) && Splits(b, d, Drain(CutAt(d), b).0, Drain(CutAt(d), b).1)
    decreases |b|
  {
    CutAtWorks(d);
    var i := IndexOf(b, d);
    if i == -1 {
      SplitsNil(b, d);
    } else {
      var rest := b[i + 1..];
      DrainSplits(rest, d);
      DrainOne(CutAt(d), b, b[..i], rest);
      SplitsCons(b, d, i, Drain(CutAt(d), rest).0, Drain(CutAt(d), rest).1);
    }
  }

  lemma {:induction false} DelimitedAppend(a: seq<Bytes>, b: seq<Bytes>, d: byte)
    ensures Delimited(a + b, d) == Delimited(a, d) + Delimited(b, d)
    decreases |a|
  {
    if a == [] {
      assert a + b == b;
    } else {
      assert (a + b)[1..] == a[1..] + b;
      DelimitedAppend(a[1..], b, d);
    }
  }

  // ---------------------------------------------------------------- loops that cut frames off

  /** The frames `done` are cut off, and `buffer` still drains to the others. */
  ghost predicate StillDrains(cut: Bytes -> Cut, whole: Bytes, done: seq<Bytes>, buffer: Bytes)
    requires Shrinks(cut)
  {
    Drain(cut, whole) == (done + Drain(cut, buffer).0, Drain(cut, buffer).1)
  }

  lemma DrainMore(cut: Bytes -> Cut, whole: Bytes, done: seq<Bytes>, buffer: Bytes, f: Bytes, rest: Bytes)
    requires Shrinks(cut) && cut(buffer) == Frame(f, rest) && StillDrains(cut, whole, done, buffer)
    ensures StillDrains(cut, whole, done + [f], rest)
  {
    DrainOne(cut, buffer, f, rest);
    assert done + ([f] + Drain(cut, rest).0) == done + [f] + Drain(cut, rest).0;
  }

  /** The frames `done` are cut off and `buffer` is what is left. */
  ghost predicate DrainedSoFar(d: byte, whole: Bytes, done: seq<Bytes>, buffer: Bytes) {
    && whole == Delimited(done, d) + buffer
    && forall i :: 0 <= i < |done| ==> d !in done[i]
  }

  lemma DrainedStart(d: byte, whole: Bytes)
    ensures DrainedSoFar(d, whole, [], whole)
  {
    assert [] + whole == whole;
  }

  lemma DrainedOneMore(d: byte, whole: Bytes, done: seq<Bytes>, f: Bytes, rest: Bytes)
    requires DrainedSoFar(d, whole, done, f + [d] + rest) && d !in f
    ensures DrainedSoFar(d, whole, done + [f], rest)
  {
    DelimitedAppend(done, [f], d);
    assert Delimited([f], d) == f + [d] + [];
    assert Delimited(done, d) + (f + [d] + rest) == Delimited(done, d) + (f + [d] + []) + rest;
  }

  lemma DrainedAll(d: byte, whole: Bytes, done: seq<Bytes>, buffer: Bytes)
    requires DrainedSoFar(d, whole, done, buffer) && d !in buffer
    ensures Shrinks(CutAt(d)) && Drain(CutAt(d), whole) == (done, buffer)
  {
    DrainDelimited(done, d, buffer);
  }

  lemma CutInTwo(d: byte, buffer: Bytes, end: nat)
    requires end == IndexOf(buffer, d)
    ensures buffer == buffer[..end] + [d] + buffer[end + 1..] && d !in buffer[..end]
  {
  }
}
