/**
 Line framing of text payloads, where a receiver drops what grows past a limit without a terminator.
 */
module LineFrames {
  import opened Variants
  import opened Framing

  const NL: byte := 0x0A
  const CR: byte := 0x0D
  const MAX_LINE_BYTES: nat := 4096

  function WithoutCr(line: Bytes): Bytes {
    if line != [] && line[|line| - 1] == CR then line[..|line| - 1] else line
  }

  function Lines(frames: seq<Bytes>): (lines: seq<Bytes>)
    ensures |lines| == |frames|
    ensures forall i :: 0 <= i < |frames| ==> lines[i] == WithoutCr(frames[i])
  {
    if frames == [] then [] else [WithoutCr(frames[0])] + Lines(frames[1..])
  }

  lemma LinesAppend(a: seq<Bytes>, b: seq<Bytes>)
    ensures Lines(a + b) == Lines(a) + Lines(b)
  {
  }

  function Kept(tail: Bytes): Bytes {
    if |tail| > MAX_LINE_BYTES then [] else tail
  }

  /** One call of the line parser with a chunk appended to the retained buffer. */
  ghost function Received(buffer: Bytes, chunk: Bytes): (seq<Bytes>, Bytes)
    requires Shrinks(CutAt(NL))
  {
    var (frames, tail) := Drain(CutAt(NL), buffer + chunk);
    (Lines(frames), Kept(tail))
  }

  ghost function ReceivedAll(buffer: Bytes, chunks: seq<Bytes>): (seq<Bytes>, Bytes)
    requires Shrinks(CutAt(NL))
    decreases |chunks|
  {
    if chunks == [] then ([], buffer)
    else
      var (lines, kept) := Received(buffer, chunks[0]);
      var (more, last) := ReceivedAll(kept, chunks[1..]);
      (lines + more, last)
  }

  ghost predicate Parsed(whole: Bytes, lines: seq<Bytes>, rest: Bytes) {
    Shrinks(CutAt(NL)) && Received(whole, []) == (lines, rest)
  }

  lemma LinesOneMore(frames: seq<Bytes>, frame: Bytes)
    ensures Lines(frames + [frame]) == Lines(frames) + [WithoutCr(frame)]
  {
    LinesAppend(frames, [frame]);
  }

  lemma ParsedAll(whole: Bytes, frames: seq<Bytes>, buffer: Bytes)
    requires Shrinks(CutAt(NL)) && Drain(CutAt(NL), whole) == (frames, buffer)
    ensures Parsed(whole, Lines(frames), Kept(buffer))
  {
    assert whole + [] == whole;
  }

  /** parseLineFrames; `rest` is the buffer after it. */
  method ParseLineFrames(whole: Bytes) returns (result: seq<Bytes>, rest: Bytes)
    ensures Parsed(whole, result, rest)
    ensures |rest| <= MAX_LINE_BYTES
  {
    var buffer := whole;
    ghost var frames: seq<Bytes> := [];
    result := [];
    DrainedStart(NL, whole);
    var end := IndexOf(buffer, NL);
    while end >= 0
      invariant end == IndexOf(buffer, NL)
      invariant DrainedSoFar(NL, whole, frames, buffer)
      invariant result == Lines(frames)
      decreases |buffer|
    {
      CutInTwo(NL, buffer, end);
      DrainedOneMore(NL, whole, frames, buffer[..end], buffer[end + 1..]);
      result := AppendLine(buffer[..end], result, frames);
      frames := frames + [buffer[..end]];
      buffer := buffer[end + 1..];
      end := IndexOf(buffer, NL);
    }
    DrainedAll(NL, whole, frames, buffer);
    ParsedAll(whole, frames, buffer);
    if |buffer| > MAX_LINE_BYTES {
      buffer := [];
    }
    rest := buffer;
  }

  method AppendLine(frame: Bytes, lines: seq<Bytes>, ghost frames: seq<Bytes>) returns (lines': seq<Bytes>)
    requires lines == Lines(frames)
    ensures lines' == Lines(frames + [frame])
  {
    LinesOneMore(frames, frame);
    var line := frame;
    if |line| > 0 && line[|line| - 1] == CR {
      line := line[..|line| - 1];
    }
    lines' := lines + [line];
  }

  /** dumpLineFrames: a payload with a newline in it is refused. */
  method DumpLineFrame(payload: Bytes) returns (frame: Option<Bytes>)
    ensures frame == if NL in payload then None else Some(payload + [NL])
  {
    if NL in payload {
      return None;
    }
    frame := Some(payload + [NL]);
  }

  // ---------------------------------------------------------------- chunking

  /** The retained buffer stays within the limit after every call. */
  lemma {:induction false} BufferBounded(buffer: Bytes, chunks: seq<Bytes>)
    requires Shrinks(CutAt(NL)) && |buffer| <= MAX_LINE_BYTES
    ensures |ReceivedAll(buffer, chunks).1| <= MAX_LINE_BYTES
    decreases |chunks|
  {
    if chunks != [] {
      BufferBounded(Received(buffer, chunks[0]).1, chunks[1..]);
    }
  }

  /** No line is longer than the limit, and what follows the last one exceeds it by one byte at most. */
  ghost predicate Short(s: Bytes)
    requires Shrinks(CutAt(NL))
  {
    var (frames, tail) := Drain(CutAt(NL), s);
    (forall i :: 0 <= i < |frames| ==> |frames[i]| <= MAX_LINE_BYTES) && |tail| <= MAX_LINE_BYTES + 1
  }

  lemma FirstFrameReaches(t: Bytes, more: Bytes)
    requires Shrinks(CutAt(NL)) && NL !in t
    ensures
      var (frames, tail) := Drain(CutAt(NL), t + more);
      if frames == [] then tail == t + more else |frames[0]| >= |t|
  {
    var s := t + more;
    var i := IndexOf(s, NL);
    assert forall j :: 0 <= j < |t| ==> s[j] == t[j];
    if i != -1 {
      DrainOne(CutAt(NL), s, s[..i], s[i + 1..]);
    }
  }

  lemma {:induction false} NothingReceived(chunks: seq<Bytes>)
    requires Shrinks(CutAt(NL)) && Flat(chunks) == []
    ensures ReceivedAll([], chunks) == ([], [])
    decreases |chunks|
  {
    if chunks != [] {
      assert chunks[0] == [] && Flat(chunks[1..]) == [];
      assert Drain(CutAt(NL), []) == ([], []);
      NothingReceived(chunks[1..]);
    }
  }

  lemma {:induction false} ShortIsChunkable(buffer: Bytes, chunks: seq<Bytes>)
    requires Shrinks(CutAt(NL)) && NL !in buffer && |buffer| <= MAX_LINE_BYTES
    requires Short(buffer + Flat(chunks))
    ensures ReceivedAll(buffer, chunks) == Received(buffer, Flat(chunks))
    decreases |chunks|
  {
    if chunks == [] {
      assert buffer + [] == buffer;
      assert IndexOf(buffer, NL) == -1;
    } else {
      CutAtWorks(NL);
      var c, rest := chunks[0], Flat(chunks[1..]);
      assert buffer + Flat(chunks) == buffer + c + rest;
      DrainAppend(CutAt(NL), buffer + c, rest);
      var (frames, tail) := Drain(CutAt(NL), buffer + c);
      DrainSplits(buffer + c, NL);
      ChunkStep(frames, tail, rest);
      var (gs, last) := Drain(CutAt(NL), tail + rest);
      LinesAppend(frames, gs);
      if |tail| <= MAX_LINE_BYTES {
        ShortIsChunkable(tail, chunks[1..]);
      } else {
        NothingReceived(chunks[1..]);
        assert Lines(frames) + [] == Lines(frames);
      }
    }
  }

  /** After one chunk of a short stream: what remains is short, or is dropped with nothing to come. */
  lemma ChunkStep(frames: seq<Bytes>, tail: Bytes, rest: Bytes)
    requires Shrinks(CutAt(NL)) && NL !in tail
    requires
      var (gs, last) := Drain(CutAt(NL), tail + rest);
      (forall i :: 0 <= i < |frames + gs| ==> |(frames + gs)[i]| <= MAX_LINE_BYTES) && |last| <= MAX_LINE_BYTES + 1
    ensures Short(tail + rest)
    ensures |tail| > MAX_LINE_BYTES ==>
      rest == [] && Drain(CutAt(NL), tail + rest) == ([], tail) && |tail| == MAX_LINE_BYTES + 1
  {
    var (gs, last) := Drain(CutAt(NL), tail + rest);
    forall i | 0 <= i < |gs| ensures |gs[i]| <= MAX_LINE_BYTES {
      assert (frames + gs)[|frames| + i] == gs[i];
    }
    FirstFrameReaches(tail, rest);
    if |tail| > MAX_LINE_BYTES {
      assert tail + [] == tail;
    }
  }

  predicate NlFree(frames: seq<Bytes>) {
    forall i :: 0 <= i < |frames| ==> NL !in frames[i]
  }

  lemma NlFreeAppend(a: seq<Bytes>, b: seq<Bytes>)
    requires NlFree(a) && NlFree(b)
    ensures NlFree(a + b)
  {
  }

  lemma NlFreeSlices(frames: seq<Bytes>, i: nat)
    requires NlFree(frames) && i < |frames|
    ensures NlFree(frames[..i]) && NL !in frames[i] && NlFree(frames[i + 1..])
    ensures frames == frames[..i] + ([frames[i]] + frames[i + 1..])
  {
  }

  /** Received in these chunks, the stream gives something else than in one piece. */
  ghost predicate ChunkingShows(chunks: seq<Bytes>, s: Bytes)
    requires Shrinks(CutAt(NL))
  {
    Flat(chunks) == s && ReceivedAll([], chunks) != Received([], s)
  }

  lemma ReceivedDelimited(frames: seq<Bytes>, tail: Bytes)
    requires Shrinks(CutAt(NL)) && NL !in tail
    requires NlFree(frames)
    ensures Received([], Delimited(frames, NL) + tail) == (Lines(frames), Kept(tail))
  {
    DrainDelimited(frames, NL, tail);
    assert [] + (Delimited(frames, NL) + tail) == Delimited(frames, NL) + tail;
  }

  /** The chunking that shows: cut a long line just past the limit. */
  lemma LongLineShows(before: seq<Bytes>, line: Bytes, after: seq<Bytes>, tail: Bytes) returns (chunks: seq<Bytes>)
    requires Shrinks(CutAt(NL)) && NL !in line && NL !in tail && |line| > MAX_LINE_BYTES
    requires NlFree(before) && NlFree(after)
    ensures ChunkingShows(chunks, Delimited(before + ([line] + after), NL) + tail)
  {
    var n := MAX_LINE_BYTES + 1;
    var one := Delimited(before, NL) + line[..n];
    var two := Delimited([line[n..]] + after, NL) + tail;
    NlFreeAppend([line[n..]], after);
    NlFreeAppend([line], after);
    NlFreeAppend(before, [line] + after);
    CutLine(before, line, after, tail, n);
    FlatOfTwo(one, two);
    ReceivedDelimited(before, line[..n]);
    ReceivedDelimited([line[n..]] + after, tail);
    ReceivedDelimited(before + ([line] + after), tail);
    TwoChunks(one, two);
    OtherLine(before, line, after, n);
    chunks := [one, two];
  }

  lemma FlatOfTwo(one: Bytes, two: Bytes)
    ensures Flat([one, two]) == one + two
  {
    assert [one, two][1..] == [two] && [two][1..] == [];
    assert Flat([two]) == two + Flat([]) == two + [] == two;
  }

  /** Without its first bytes a long line is another line. */
  lemma OtherLine(before: seq<Bytes>, line: Bytes, after: seq<Bytes>, n: nat)
    requires 1 < n <= |line|
    ensures Lines(before) + Lines([line[n..]] + after) != Lines(before + ([line] + after))
  {
    var i := |before|;
    assert (Lines(before) + Lines([line[n..]] + after))[i] == WithoutCr(line[n..]);
    assert Lines(before + ([line] + after))[i] == WithoutCr(line);
  }

  /** Two chunks, the first of which leaves nothing behind. */
  lemma TwoChunks(one: Bytes, two: Bytes)
    requires Shrinks(CutAt(NL)) && Received([], one).1 == []
    ensures ReceivedAll([], [one, two]) == (Received([], one).0 + Received([], two).0, Received([], two).1)
  {
    assert [one, two][1..] == [two] && [two][1..] == [];
    assert Received([], two).0 + [] == Received([], two).0;
    assert ReceivedAll([], [two]) == Received([], two);
  }

  lemma CutLine(before: seq<Bytes>, line: Bytes, after: seq<Bytes>, tail: Bytes, n: nat)
    requires n <= |line|
    ensures Delimited(before + ([line] + after), NL) + tail
      == Delimited(before, NL) + line[..n] + (Delimited([line[n..]] + after, NL) + tail)
  {
    DelimitedAppend(before, [line] + after, NL);
    DelimitedCons(line, after, NL);
    DelimitedCons(line[n..], after, NL);
    var a, b := Delimited(before, NL), Delimited(after, NL);
    Regroup(a, line[..n], line[n..], b, tail);
    assert line == line[..n] + line[n..];
  }

  lemma Regroup(a: Bytes, head: Bytes, rest: Bytes, b: Bytes, tail: Bytes)
    ensures a + ((head + rest) + [NL] + b) + tail == a + head + ((rest + [NL] + b) + tail)
  {
  }


  lemma LongTailShows(frames: seq<Bytes>, tail: Bytes) returns (chunks: seq<Bytes>)
    requires Shrinks(CutAt(NL)) && NL !in tail && |tail| > MAX_LINE_BYTES + 1
    requires NlFree(frames)
    ensures ChunkingShows(chunks, Delimited(frames, NL) + tail)
  {
    var n := |tail| - 1;
    var one, two := Delimited(frames, NL) + tail[..n], [tail[n]];
    FlatOfTwo(one, two);
    assert tail == tail[..n] + two;
    assert one + two == Delimited(frames, NL) + tail;
    ReceivedDelimited(frames, tail[..n]);
    ReceivedDelimited(frames, tail);
    ReceivedDelimited([], two);
    assert [] + two == two;
    TwoChunks(one, two);
    chunks := [one, two];
  }

  /** Some way to cut the stream into chunks changes the lines delivered or the bytes kept exactly when
      the stream is not short. */
  lemma ChunkingShowsIff(s: Bytes)
    ensures Shrinks(CutAt(NL))
    ensures (exists chunks :: ChunkingShows(chunks, s)) <==> !Short(s)
  {
    CutAtWorks(NL);
    if Short(s) {
      assert [] + s == s;
      forall chunks ensures !ChunkingShows(chunks, s) {
        if Flat(chunks) == s {
          ShortIsChunkable([], chunks);
        }
      }
    } else {
      var chunks := LongShows(s);
    }
  }

  lemma LongShows(s: Bytes) returns (chunks: seq<Bytes>)
    requires Shrinks(CutAt(NL)) && !Short(s)
    ensures ChunkingShows(chunks, s)
  {
    DrainSplits(s, NL);
    var (frames, tail) := Drain(CutAt(NL), s);
    if |tail| > MAX_LINE_BYTES + 1 {
      chunks := LongTailShows(frames, tail);
    } else {
      var i :| 0 <= i < |frames| && |frames[i]| > MAX_LINE_BYTES;
      NlFreeSlices(frames, i);
      chunks := LongLineShows(frames[..i], frames[i], frames[i + 1..], tail);
    }
  }

  /** Payloads within the limit, without a newline and without a carriage return at their end, all
      arrive, in order, whatever the chunks. */
  lemma LinesArrive(payloads: seq<Bytes>, chunks: seq<Bytes>)
    requires forall i :: 0 <= i < |payloads| ==>
      NL !in payloads[i] && |payloads[i]| <= MAX_LINE_BYTES && WithoutCr(payloads[i]) == payloads[i]
    requires Flat(chunks) == Delimited(payloads, NL)
    ensures Shrinks(CutAt(NL)) && ReceivedAll([], chunks) == (payloads, [])
  {
    CutAtWorks(NL);
    DrainDelimited(payloads, NL, []);
    assert Delimited(payloads, NL) + [] == Delimited(payloads, NL) == [] + Delimited(payloads, NL);
    ShortIsChunkable([], chunks);
    assert Lines(payloads) == payloads;
  }
}
