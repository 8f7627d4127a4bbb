/** SLIP ("PROTOCOL" section of RFC 1055): the escape codec and the frame parser over it. */
module Slip {
  import opened Variants
  import opened Framing

  const ESC: byte := 0xDB
  const END: byte := 0xC0
  const ESC_ESC: byte := 0xDD
  const ESC_END: byte := 0xDC

  datatype ReadError = NoError | UnterminatedEscape | InvalidEscape

  /** What one payload byte becomes on the wire. */
  function Stuffed(ch: byte): Bytes {
    if ch == ESC then [ESC, ESC_ESC] else if ch == END then [ESC, ESC_END] else [ch]
  }

  function Escaped(msg: Bytes): Bytes {
    if msg == [] then [] else Stuffed(msg[0]) + Escaped(msg[1..])
  }

  lemma {:induction false} EscapedAppend(a: Bytes, b: Bytes)
    ensures Escaped(a + b) == Escaped(a) + Escaped(b)
    decreases |a|
  {
    if a == [] {
      assert a + b == b;
    } else {
      assert (a + b)[1..] == a[1..] + b;
      EscapedAppend(a[1..], b);
    }
  }

  lemma {:induction false} EscapedPlain(a: Bytes)
    requires ESC !in a && END !in a
    ensures Escaped(a) == a
    decreases |a|
  {
    if a != [] {
      assert a[0] in a;
      EscapedPlain(a[1..]);
    }
  }

  lemma EscapedRun(msg: Bytes, pos: nat, i: nat)
    requires pos <= i <= |msg| && ESC !in msg[pos..i] && END !in msg[pos..i]
    ensures Escaped(msg[..pos]) + msg[pos..i] == Escaped(msg[..i])
  {
    assert msg[..i] == msg[..pos] + msg[pos..i];
    EscapedAppend(msg[..pos], msg[pos..i]);
    EscapedPlain(msg[pos..i]);
  }

  lemma EscapedNext(msg: Bytes, i: nat)
    requires i < |msg|
    ensures Escaped(msg[..i]) + Stuffed(msg[i]) == Escaped(msg[..i + 1])
  {
    assert msg[..i + 1] == msg[..i] + [msg[i]];
    EscapedAppend(msg[..i], [msg[i]]);
    assert Escaped([msg[i]]) == Stuffed(msg[i]) + Escaped([]);
  }

  /** slipa::Write: runs of ordinary bytes go out as they are collected, special bytes as pairs. */
  method Write(msg: Bytes) returns (out: Bytes)
    ensures out == Escaped(msg)
    ensures END !in out
  {
    out := [];
    var collected := 0;
    var pos := 0;
    for i := 0 to |msg|
      invariant 0 <= pos && 0 <= collected && pos + collected == i
      invariant out == Escaped(msg[..pos])
      invariant ESC !in msg[pos..i] && END !in msg[pos..i]
    {
      var ch := msg[i];
      if ch == ESC || ch == END {
        EscapedRun(msg, pos, i);
        EscapedNext(msg, i);
        out := out + msg[pos..pos + collected];
        pos, collected := pos + collected, 0;
        pos := pos + 1;
        out := out + (if ch == ESC then [ESC, ESC_ESC] else [ESC, ESC_END]);
      } else {
        assert msg[pos..i + 1] == msg[pos..i] + [ch];
        collected := collected + 1;
      }
    }
    EscapedRun(msg, pos, |msg|);
    assert msg[..|msg|] == msg;
    out := out + msg[pos..pos + collected];
    EscapedNeverContainsEnd(msg);
  }

  /** The decoding of a frame, read from the left; the first bad escape decides the error. */
  function Unescaped(msg: Bytes): (ReadError, Bytes) {
    if msg == [] then (NoError, [])
    else if msg[0] != ESC then
      var (err, out) := Unescaped(msg[1..]);
      (err, [msg[0]] + out)
    else if |msg| == 1 then (UnterminatedEscape, [])
    else if msg[1] == ESC_END || msg[1] == ESC_ESC then
      var (err, out) := Unescaped(msg[2..]);
      (err, [if msg[1] == ESC_END then END else ESC] + out)
    else (InvalidEscape, [])
  }

  function WithoutFinalEnd(msg: Bytes): Bytes {
    if msg != [] && msg[|msg| - 1] == END then msg[..|msg| - 1] else msg
  }

  lemma {:induction false} UnescapedPlainPrefix(a: Bytes, b: Bytes)
    requires ESC !in a
    ensures Unescaped(a + b) == (Unescaped(b).0, a + Unescaped(b).1)
    decreases |a|
  {
    if a == [] {
      assert a + b == b && a + Unescaped(b).1 == Unescaped(b).1;
    } else {
      assert a[0] in a;
      assert (a + b)[1..] == a[1..] + b;
      UnescapedPlainPrefix(a[1..], b);
      assert [a[0]] + (a[1..] + Unescaped(b).1) == a + Unescaped(b).1;
    }
  }

  /** The decoding up to the next escape, and over it. */
  lemma UnescapedRun(msg: Bytes, pos: nat, next: nat)
    requires pos <= next < |msg| && ESC !in msg[pos..next] && msg[next] == ESC
    ensures
      var run := msg[pos..next];
      var whole := Unescaped(msg[pos..]);
      if next == |msg| - 1 then whole == (UnterminatedEscape, run)
      else if msg[next + 1] == ESC_END then
        whole == (Unescaped(msg[next + 2..]).0, run + ([END] + Unescaped(msg[next + 2..]).1))
      else if msg[next + 1] == ESC_ESC then
        whole == (Unescaped(msg[next + 2..]).0, run + ([ESC] + Unescaped(msg[next + 2..]).1))
      else whole == (InvalidEscape, run)
  {
    assert msg[pos..] == msg[pos..next] + msg[next..];
    UnescapedPlainPrefix(msg[pos..next], msg[next..]);
    assert msg[pos..next] + [] == msg[pos..next];
    if next + 2 <= |msg| {
      assert msg[next..][2..] == msg[next + 2..];
    }
  }

  lemma UnescapedPlain(b: Bytes)
    requires ESC !in b
    ensures Unescaped(b) == (NoError, b)
  {
    assert b + [] == b;
    UnescapedPlainPrefix(b, []);
  }

  /** slipa::Read. */
  method Read(frame: Bytes) returns (err: ReadError, out: Bytes)
    ensures err == Unescaped(WithoutFinalEnd(frame)).0
    ensures err == NoError ==> out == Unescaped(WithoutFinalEnd(frame)).1
  {
    var msg := frame;
    if |msg| > 0 && msg[|msg| - 1] == END {
      msg := msg[..|msg| - 1];
    }
    err, out := ReadEscapes(msg);
  }

  /** Everything before `pos` is read, and `out` is what came of it. */
  ghost predicate ReadSoFar(msg: Bytes, pos: nat, out: Bytes) {
    pos <= |msg| && Unescaped(msg) == (Unescaped(msg[pos..]).0, out + Unescaped(msg[pos..]).1)
  }

  lemma ReadStart(msg: Bytes)
    ensures ReadSoFar(msg, 0, [])
  {
    assert msg[0..] == msg && [] + Unescaped(msg).1 == Unescaped(msg).1;
  }

  lemma ReadOverEscape(msg: Bytes, pos: nat, next: nat, out: Bytes)
    requires ReadSoFar(msg, pos, out)
    requires pos <= next < |msg| - 1 && ESC !in msg[pos..next] && msg[next] == ESC
    requires msg[next + 1] == ESC_END || msg[next + 1] == ESC_ESC
    ensures ReadSoFar(msg, next + 2, out + msg[pos..next] + [if msg[next + 1] == ESC_END then END else ESC])
  {
    UnescapedRun(msg, pos, next);
    var run, ch := msg[pos..next], if msg[next + 1] == ESC_END then END else ESC;
    var rest := Unescaped(msg[next + 2..]).1;
    assert out + (run + ([ch] + rest)) == out + run + [ch] + rest;
  }

  lemma ReadEnds(msg: Bytes, pos: nat, out: Bytes)
    requires ReadSoFar(msg, pos, out) && ESC !in msg[pos..]
    ensures Unescaped(msg) == (NoError, out + msg[pos..])
  {
    UnescapedPlain(msg[pos..]);
  }

  method ReadEscapes(msg: Bytes) returns (err: ReadError, out: Bytes)
    ensures err == Unescaped(msg).0
    ensures err == NoError ==> out == Unescaped(msg).1
  {
    out := [];
    err := NoError;
    var pos := 0;
    ReadStart(msg);
    while pos < |msg|
      invariant ReadSoFar(msg, pos, out)
    {
      var next := FindFrom(msg, ESC, pos);
      if next == -1 {
        ReadEnds(msg, pos, out);
        out := out + msg[pos..];
        return;
      }
      if next == |msg| - 1 {
        UnescapedRun(msg, pos, next);
        err := UnterminatedEscape;
        return;
      }
      ghost var before := out;
      if pos != next {
        out := out + msg[pos..next];
      }
      assert out == before + msg[pos..next];
      if msg[next + 1] == ESC_END {
        ReadOverEscape(msg, pos, next, before);
        out := out + [END];
      } else if msg[next + 1] == ESC_ESC {
        ReadOverEscape(msg, pos, next, before);
        out := out + [ESC];
      } else {
        UnescapedRun(msg, pos, next);
        err := InvalidEscape;
        return;
      }
      pos := next + 2;
    }
    ReadEnds(msg, pos, out);
    assert out + msg[pos..] == out;
  }

  /** string_view::find_first_of for one byte, from a position on. */
  method FindFrom(msg: Bytes, d: byte, pos: nat) returns (next: int)
    requires pos <= |msg|
    ensures next == -1 ==> d !in msg[pos..]
    ensures next != -1 ==> pos <= next < |msg| && msg[next] == d && d !in msg[pos..next]
  {
    next := pos;
    while next < |msg|
      invariant pos <= next <= |msg|
      invariant d !in msg[pos..next]
    {
      if msg[next] == d {
        return;
      }
      assert msg[pos..next + 1] == msg[pos..next] + [msg[next]];
      next := next + 1;
    }
    assert msg[pos..] == msg[pos..next];
    next := -1;
  }

  // ---------------------------------------------------------------- the codec is a bijection

  lemma {:induction false} EscapedNeverContainsEnd(msg: Bytes)
    ensures END !in Escaped(msg)
    decreases |msg|
  {
    if msg != [] {
      EscapedNeverContainsEnd(msg[1..]);
    }
  }

  lemma {:induction false} UnescapedOfEscaped(msg: Bytes)
    ensures Unescaped(Escaped(msg)) == (NoError, msg)
    decreases |msg|
  {
    if msg != [] {
      UnescapedOfEscaped(msg[1..]);
      var rest := Escaped(msg[1..]);
      if msg[0] == ESC || msg[0] == END {
        assert Escaped(msg)[2..] == rest;
      } else {
        assert Escaped(msg)[1..] == rest;
      }
      assert msg == [msg[0]] + msg[1..];
    }
  }

  /** Reading back what was written, with or without the END that closes the frame. */
  lemma ReadOfWrite(msg: Bytes)
    ensures Unescaped(WithoutFinalEnd(Escaped(msg))) == (NoError, msg)
    ensures Unescaped(WithoutFinalEnd(Escaped(msg) + [END])) == (NoError, msg)
  {
    EscapedNeverContainsEnd(msg);
    UnescapedOfEscaped(msg);
    assert Escaped(msg) != [] ==> Escaped(msg)[|Escaped(msg)| - 1] in Escaped(msg);
    assert (Escaped(msg) + [END])[..|Escaped(msg)|] == Escaped(msg);
  }

  lemma {:induction false} EscapedOfUnescaped(frame: Bytes)
    requires END !in frame && Unescaped(frame).0 == NoError
    ensures Escaped(Unescaped(frame).1) == frame
    decreases |frame|
  {
    if frame != [] {
      assert frame[0] in frame;
      if frame[0] != ESC {
        EscapedOfUnescaped(frame[1..]);
        var out := Unescaped(frame[1..]).1;
        assert ([frame[0]] + out)[1..] == out;
        assert frame == [frame[0]] + frame[1..];
      } else {
        EscapedOfUnescaped(frame[2..]);
        var out := Unescaped(frame[2..]).1;
        var ch: byte := if frame[1] == ESC_END then END else ESC;
        assert ([ch] + out)[1..] == out;
        assert frame == [frame[0], frame[1]] + frame[2..];
      }
    }
  }

  /** On frames without END the reader accepts exactly what the writer can produce, and then gives
      back the one message it came from. */
  lemma ReadIsInverse(frame: Bytes, msg: Bytes)
    requires END !in frame
    ensures Unescaped(WithoutFinalEnd(frame)) == (NoError, msg) <==> frame == Escaped(msg)
  {
    assert frame != [] ==> frame[|frame| - 1] in frame;
    UnescapedOfEscaped(msg);
    if Unescaped(frame) == (NoError, msg) {
      EscapedOfUnescaped(frame);
    }
  }

  // ---------------------------------------------------------------- frames and messages

  /** What the payload parser makes of one frame: no message when the escapes or the payload are
      malformed. */
  function Decoded<M>(frame: Bytes, fromProto: Bytes -> Option<M>): Option<M> {
    var (err, out) := Unescaped(WithoutFinalEnd(frame));
    if err == NoError then fromProto(out) else None
  }

  function Messages<M>(frames: seq<Bytes>, fromProto: Bytes -> Option<M>): seq<M> {
    if frames == [] then []
    else
      (match Decoded(frames[0], fromProto) case Some(m) => [m] case None => [])
      + Messages(frames[1..], fromProto)
  }

  lemma {:induction false} MessagesAppend<M>(a: seq<Bytes>, b: seq<Bytes>, fromProto: Bytes -> Option<M>)
    ensures Messages(a + b, fromProto) == Messages(a, fromProto) + Messages(b, fromProto)
    decreases |a|
  {
    if a == [] {
      assert a + b == b;
    } else {
      assert (a + b)[1..] == a[1..] + b;
      MessagesAppend(a[1..], b, fromProto);
    }
  }

  /** dumpSlipFrames without a checksum. */
  method DumpSlipFrame(payload: Bytes) returns (frame: Bytes)
    ensures frame == Escaped(payload) + [END]
  {
    frame := Write(payload);
    frame := frame + [END];
  }

  /** parseSlipFrames: cuts the frames off the front of the buffer; `rest` is the buffer after it,
      `errors` how many frames were only worth a log line. */
  method ParseSlipFrames<M>(whole: Bytes, fromProto: Bytes -> Option<M>)
    returns (result: seq<M>, rest: Bytes, errors: nat)
    ensures Parsed(whole, fromProto, result, rest, errors)
  {
    var buffer := whole;
    ghost var done: seq<Bytes> := [];
    result, errors := [], 0;
    DrainedStart(END, whole);
    var end := IndexOf(buffer, END);
    while end >= 0
      invariant end == IndexOf(buffer, END)
      invariant DrainedSoFar(END, whole, done, buffer)
      invariant Handled(done, fromProto, result, errors)
      decreases |buffer|
    {
      CutInTwo(END, buffer, end);
      DrainedOneMore(END, whole, done, buffer[..end], buffer[end + 1..]);
      result, errors := HandleFrame(buffer[..end], fromProto, result, errors, done);
      done := done + [buffer[..end]];
      buffer := buffer[end + 1..];
      end := IndexOf(buffer, END);
    }
    DrainedAll(END, whole, done, buffer);
    ParsedAll(whole, fromProto, done, result, buffer, errors);
    rest := buffer;
  }

  /** All frames of `whole` are cut off, `rest` is what follows them, and every frame gave a message
      or counts as an error. */
  ghost predicate Parsed<M>(whole: Bytes, fromProto: Bytes -> Option<M>, result: seq<M>, rest: Bytes, errors: nat) {
    && Shrinks(CutAt(END))
    && Drain(CutAt(END), whole).1 == rest && END !in rest
    && Handled(Drain(CutAt(END), whole).0, fromProto, result, errors)
  }

  lemma ParsedAll<M>(whole: Bytes, fromProto: Bytes -> Option<M>, frames: seq<Bytes>, result: seq<M>, rest: Bytes,
                     errors: nat)
    requires Shrinks(CutAt(END)) && Drain(CutAt(END), whole) == (frames, rest) && END !in rest
    requires Handled(frames, fromProto, result, errors)
    ensures Parsed(whole, fromProto, result, rest, errors)
  {
  }

  ghost predicate Handled<M>(frames: seq<Bytes>, fromProto: Bytes -> Option<M>, result: seq<M>, errors: nat) {
    result == Messages(frames, fromProto) && errors == |frames| - |result|
  }

  method HandleFrame<M>(src: Bytes, fromProto: Bytes -> Option<M>, result: seq<M>, errors: nat, ghost done: seq<Bytes>)
    returns (result': seq<M>, errors': nat)
    requires Handled(done, fromProto, result, errors)
    ensures Handled(done + [src], fromProto, result', errors')
  {
    MessagesOneMore(done, src, fromProto);
    var parsed := ParseFrame(src, fromProto);
    if parsed.Some? {
      result', errors' := result + [parsed.value], errors;
    } else {
      result', errors' := result, errors + 1;
    }
  }

  method ParseFrame<M>(src: Bytes, fromProto: Bytes -> Option<M>) returns (m: Option<M>)
    ensures m == Decoded(src, fromProto)
  {
    var err, recv := Read(src);
    if err != NoError {
      return None;
    }
    m := fromProto(recv);
  }

  /** A stream receiver that keeps its buffer between chunks. */
  class Receiver<M> {
    const fromProto: Bytes -> Option<M>
    var buffer: Bytes
    var errors: nat

    constructor (parser: Bytes -> Option<M>)
      ensures fromProto == parser && buffer == [] && errors == 0
    {
      fromProto := parser;
      buffer := [];
      errors := 0;
    }

    method Receive(chunk: Bytes) returns (result: seq<M>)
      modifies this
      ensures Shrinks(CutAt(END))
      ensures
        var (frames, rest) := Drain(CutAt(END), old(buffer) + chunk);
        && buffer == rest && END !in buffer
        && result == Messages(frames, fromProto)
        && errors == old(errors) + |frames| - |result|
    {
      var more;
      result, buffer, more := ParseSlipFrames(buffer + chunk, fromProto);
      errors := errors + more;
    }
  }

  lemma MessagesOneMore<M>(done: seq<Bytes>, frame: Bytes, fromProto: Bytes -> Option<M>)
    ensures Messages(done + [frame], fromProto) == Messages(done, fromProto) +
      match Decoded(frame, fromProto) case Some(m) => [m] case None => []
  {
    MessagesAppend(done, [frame], fromProto);
    assert [frame][1..] == [];
  }

  /** The messages a receiver delivers over a sequence of chunks, and the bytes it retains. */
  ghost function Received<M>(chunks: seq<Bytes>, fromProto: Bytes -> Option<M>): (seq<M>, Bytes)
    requires Shrinks(CutAt(END))
  {
    var (frames, rest) := Feed(CutAt(END), [], chunks);
    (Messages(frames, fromProto), rest)
  }

  function Encoded<M>(msgs: seq<M>, intoProto: M -> Bytes): Bytes {
    if msgs == [] then [] else Escaped(intoProto(msgs[0])) + [END] + Encoded(msgs[1..], intoProto)
  }

  ghost predicate Inverse<M(!new)>(intoProto: M -> Bytes, fromProto: Bytes -> Option<M>) {
    forall m :: fromProto(intoProto(m)) == Some(m)
  }

  function Payloads<M>(msgs: seq<M>, intoProto: M -> Bytes): seq<Bytes> {
    if msgs == [] then [] else [Escaped(intoProto(msgs[0]))] + Payloads(msgs[1..], intoProto)
  }

  lemma {:induction false} EncodedIsDelimited<M(!new)>(
      msgs: seq<M>, intoProto: M -> Bytes, fromProto: Bytes -> Option<M>)
    requires Inverse(intoProto, fromProto)
    ensures Encoded(msgs, intoProto) == Delimited(Payloads(msgs, intoProto), END)
    ensures forall i :: 0 <= i < |Payloads(msgs, intoProto)| ==> END !in Payloads(msgs, intoProto)[i]
    ensures Messages(Payloads(msgs, intoProto), fromProto) == msgs
    decreases |msgs|
  {
    if msgs != [] {
      EncodedIsDelimited(msgs[1..], intoProto, fromProto);
      EscapedNeverContainsEnd(intoProto(msgs[0]));
      ReadOfWrite(intoProto(msgs[0]));
      assert Payloads(msgs, intoProto)[1..] == Payloads(msgs[1..], intoProto);
    }
  }

  /** Whatever the messages and however their concatenated frames are cut into chunks: exactly those
      messages arrive, in order, and nothing is left over. */
  lemma MessagesArrive<M(!new)>(msgs: seq<M>, chunks: seq<Bytes>, intoProto: M -> Bytes, fromProto: Bytes -> Option<M>)
    requires Inverse(intoProto, fromProto)
    requires Flat(chunks) == Encoded(msgs, intoProto)
    ensures Shrinks(CutAt(END)) && Received(chunks, fromProto) == (msgs, [])
  {
    EncodedIsDelimited(msgs, intoProto, fromProto);
    FramesArrive(chunks, Payloads(msgs, intoProto), fromProto);
  }

  lemma FramesArrive<M>(chunks: seq<Bytes>, frames: seq<Bytes>, fromProto: Bytes -> Option<M>)
    requires Flat(chunks) == Delimited(frames, END)
    requires forall i :: 0 <= i < |frames| ==> END !in frames[i]
    ensures Shrinks(CutAt(END)) && Received(chunks, fromProto) == (Messages(frames, fromProto), [])
  {
    CutAtWorks(END);
    ChunkingIndependent(CutAt(END), [], chunks);
    assert [] + Flat(chunks) == Delimited(frames, END) + [];
    DrainDelimited(frames, END, []);
  }

  /** A malformed frame between good ones, in any chunking, loses only itself. */
  lemma MalformedLosesOnlyItself<M(!new)>(
      before: seq<M>, bad: Bytes, after: seq<M>, chunks: seq<Bytes>,
      intoProto: M -> Bytes, fromProto: Bytes -> Option<M>)
    requires Inverse(intoProto, fromProto)
    requires END !in bad && Decoded(bad, fromProto) == None
    requires Flat(chunks) == Encoded(before, intoProto) + bad + [END] + Encoded(after, intoProto)
    ensures Shrinks(CutAt(END)) && Received(chunks, fromProto) == (before + after, [])
  {
    EncodedIsDelimited(before, intoProto, fromProto);
    EncodedIsDelimited(after, intoProto, fromProto);
    var a, b := Payloads(before, intoProto), Payloads(after, intoProto);
    BadInTheMiddle(a, bad, b);
    FramesArrive(chunks, a + ([bad] + b), fromProto);
    MessagesAppend(a, [bad] + b, fromProto);
    BadGivesNothing(bad, b, fromProto);
  }

  lemma BadInTheMiddle(a: seq<Bytes>, bad: Bytes, b: seq<Bytes>)
    ensures Delimited(a, END) + bad + [END] + Delimited(b, END) == Delimited(a + ([bad] + b), END)
  {
    DelimitedAppend(a, [bad] + b, END);
    DelimitedCons(bad, b, END);
  }

  lemma BadGivesNothing<M>(bad: Bytes, b: seq<Bytes>, fromProto: Bytes -> Option<M>)
    requires Decoded(bad, fromProto) == None
    ensures Messages([bad] + b, fromProto) == Messages(b, fromProto)
  {
    assert ([bad] + b)[1..] == b;
  }
}
