/**
 Length framing: a 4-byte big-endian length before each payload. The receiver computes in 32 bits.
 */
module LengthFrames {
  import opened Variants
  import opened Framing

  const TWO31: nat := 0x8000_0000
  const TWO32: nat := 0x1_0000_0000

  /** quint32(x) and int(x). */
  function U32(x: int): nat {
    x % TWO32
  }

  function I32(x: int): int {
    var u := x % TWO32;
    if u < TWO31 then u else u - TWO32
  }

  function Header(len: nat): (h: Bytes)
    requires len < TWO32
    ensures |h| == 4
  {
    [(len / 0x100_0000) as byte, (len / 0x1_0000 % 0x100) as byte, (len / 0x100 % 0x100) as byte, (len % 0x100) as byte]
  }

  function HeaderValue(b: Bytes): (len: nat)
    requires |b| >= 4
    ensures len < TWO32
  {
    b[0] as nat * 0x100_0000 + b[1] as nat * 0x1_0000 + b[2] as nat * 0x100 + b[3] as nat
  }

  lemma FourBytes(len: nat)
    ensures len == len / 0x100_0000 * 0x100_0000 + len / 0x1_0000 % 0x100 * 0x1_0000
                 + len / 0x100 % 0x100 * 0x100 + len % 0x100
  {
    var a, b, c := len / 0x100, len / 0x1_0000, len / 0x100_0000;
    assert len == a * 0x100 + len % 0x100;
    assert a == b * 0x100 + a % 0x100;
    assert b == c * 0x100 + b % 0x100;
  }

  lemma HeaderRoundTrip(len: nat, rest: Bytes)
    requires len < TWO32
    ensures HeaderValue(Header(len) + rest) == len
  {
    FourBytes(len);
    var h := Header(len) + rest;
    assert h[0] == Header(len)[0] && h[1] == Header(len)[1] && h[2] == Header(len)[2] && h[3] == Header(len)[3];
  }

  /** QByteArray::mid(pos, n): a negative or too long n means all the rest. */
  function Mid(b: Bytes, pos: nat, n: int): Bytes
    requires pos <= |b|
  {
    if n < 0 || n > |b| - pos then b[pos..] else b[pos..pos + n]
  }

  /** QByteArray::remove(0, n): nothing happens for n <= 0. */
  function RemoveFront(b: Bytes, n: int): Bytes {
    if n <= 0 then b else if n >= |b| then [] else b[n..]
  }

  /** Frame for a payload that is already encoded. */
  method FramePayload(payload: Bytes) returns (out: Bytes)
    requires |payload| < TWO32
    ensures out == Framed(payload)
  {
    var len := |payload|;
    out := [(len / 0x100_0000) as byte, (len / 0x1_0000 % 0x100) as byte,
            (len / 0x100 % 0x100) as byte, (len % 0x100) as byte];
    out := out + payload;
  }

  function Framed(payload: Bytes): Bytes
    requires |payload| < TWO32
  {
    Header(|payload|) + payload
  }

  /** One turn of the loop of DrainFrames, in its 32-bit arithmetic. */
  function Turn(b: Bytes): Cut {
    if |b| < 4 then More
    else
      var need := U32(4 + HeaderValue(b));
      if U32(|b|) < need then More
      else Frame(Mid(b, 4, I32(HeaderValue(b))), RemoveFront(b, I32(need)))
  }

  /** What the framing means: the length counts the bytes that follow it. */
  function CutLength(b: Bytes): Cut {
    if |b| < 4 || |b| < 4 + HeaderValue(b) then More
    else Frame(b[4..4 + HeaderValue(b)], b[4 + HeaderValue(b)..])
  }

  /** The receiver reads a header as it is meant exactly when 4 + length does not wrap around. */
  lemma TurnIsCutIff(b: Bytes)
    requires |b| < TWO31
    ensures Turn(b) == CutLength(b) <==> |b| < 4 || HeaderValue(b) < TWO32 - 4
  {
    if |b| >= 4 {
      if HeaderValue(b) < TWO32 - 4 {
        PlainTurn(b);
      } else {
        WrappedTurn(b);
      }
    }
  }

  lemma PlainTurn(b: Bytes)
    requires 4 <= |b| < TWO31 && HeaderValue(b) < TWO32 - 4
    ensures Turn(b) == CutLength(b)
  {
    assert U32(4 + HeaderValue(b)) == 4 + HeaderValue(b);
  }

  lemma WrappedTurn(b: Bytes)
    requires 4 <= |b| < TWO31 && HeaderValue(b) >= TWO32 - 4
    ensures Turn(b) != CutLength(b)
  {
    assert U32(4 + HeaderValue(b)) == 4 + HeaderValue(b) - TWO32;
  }

  /** The one header on which the loop makes no progress and never ends. */
  lemma StallsIff(b: Bytes)
    requires |b| < TWO31
    ensures Turn(b).Frame? && |Turn(b).rest| >= |b| <==> |b| >= 4 && HeaderValue(b) == TWO32 - 4
  {
    if |b| >= 4 {
      var len := HeaderValue(b);
      if len < TWO32 - 4 {
        assert U32(4 + len) == 4 + len;
      } else {
        assert U32(4 + len) == 4 + len - TWO32;
      }
    }
  }

  lemma CutLengthWorks()
    ensures Shrinks(CutLength) && Stable(CutLength)
  {
    forall b, more ensures StableAt(CutLength, b, more) {
      if CutLength(b).Frame? {
        var n := 4 + HeaderValue(b);
        assert (b + more)[0] == b[0] && (b + more)[1] == b[1] && (b + more)[2] == b[2] && (b + more)[3] == b[3];
        assert (b + more)[4..n] == b[4..n];
        assert (b + more)[n..] == b[n..] + more;
      }
    }
  }

  /** No header met while draining wraps around. */
  ghost predicate Sane(b: Bytes)
    decreases |b|
  {
    |b| >= 4 ==>
      HeaderValue(b) < TWO32 - 4 && (CutLength(b).Frame? ==> Sane(CutLength(b).rest))
  }

  /** The turns of the loop, one after the other, up to the one that ends it or changes nothing. */
  ghost function Turns(b: Bytes): (seq<Bytes>, Bytes)
    decreases |b|
  {
    match Turn(b)
    case More => ([], b)
    case Frame(f, rest) =>
      if |rest| >= |b| then ([], b) else var (fs, tail) := Turns(rest); ([f] + fs, tail)
  }

  /** The loop comes to the header that it never gets over. */
  ghost predicate MeetsStall(b: Bytes)
    decreases |b|
  {
    Turn(b).Frame? && (|Turn(b).rest| >= |b| || MeetsStall(Turn(b).rest))
  }

  /** The loop goes on for `n` turns. */
  ghost predicate RunsOn(b: Bytes, n: nat)
    decreases n
  {
    n == 0 || (Turn(b).Frame? && RunsOn(Turn(b).rest, n - 1))
  }

  ghost predicate NeverEnds(b: Bytes) {
    forall n: nat :: RunsOn(b, n)
  }

  lemma StalledTurn(b: Bytes)
    requires |b| < TWO31 && Turn(b).Frame? && |Turn(b).rest| >= |b|
    ensures Turn(b).rest == b
  {
    StallsIff(b);
  }

  lemma {:induction false} StalledRunsOn(b: Bytes, n: nat)
    requires |b| < TWO31 && MeetsStall(b)
    ensures RunsOn(b, n)
    decreases n
  {
    if n > 0 {
      if |Turn(b).rest| >= |b| {
        StalledTurn(b);
      }
      StalledRunsOn(Turn(b).rest, n - 1);
    }
  }

  lemma {:induction false} RunsOnStalls(b: Bytes, n: nat)
    requires n > |b| && RunsOn(b, n)
    ensures MeetsStall(b)
    decreases |b|
  {
    if |Turn(b).rest| < |b| {
      RunsOnStalls(Turn(b).rest, n - 1);
    }
  }

  /** The loop never ends exactly if it comes to a header of 2^32 - 4. */
  lemma EndlessIff(b: Bytes)
    requires |b| < TWO31
    ensures NeverEnds(b) <==> MeetsStall(b)
    ensures MeetsStall(b) <==> |Turns(b).1| >= 4 && HeaderValue(Turns(b).1) == TWO32 - 4
  {
    if MeetsStall(b) {
      forall n: nat ensures RunsOn(b, n) {
        StalledRunsOn(b, n);
      }
    }
    if NeverEnds(b) {
      assert RunsOn(b, |b| + 1);
      RunsOnStalls(b, |b| + 1);
    }
    TurnsStop(b);
  }

  lemma {:induction false} TurnsStop(b: Bytes)
    requires |b| < TWO31
    ensures |Turns(b).1| <= |b|
    ensures MeetsStall(b) <==> |Turns(b).1| >= 4 && HeaderValue(Turns(b).1) == TWO32 - 4
    decreases |b|
  {
    StallsIff(b);
    if Turn(b).Frame? && |Turn(b).rest| < |b| {
      TurnsStop(Turn(b).rest);
    }
  }

  /** Without wrapping headers the turns cut the frames as they are meant. */
  lemma {:induction false} TurnsAreDrain(b: Bytes)
    requires |b| < TWO31 && Sane(b) && Shrinks(CutLength)
    ensures Turns(b) == Drain(CutLength, b) && !MeetsStall(b)
    decreases |b|
  {
    TurnIsCutIff(b);
    if CutLength(b).Frame? {
      TurnsAreDrain(CutLength(b).rest);
    }
  }

  /** The turns done and those to come. */
  ghost predicate StillTurns(whole: Bytes, payloads: seq<Bytes>, buf: Bytes) {
    && Turns(whole) == (payloads + Turns(buf).0, Turns(buf).1)
    && (MeetsStall(whole) <==> MeetsStall(buf))
  }

  lemma TurnDone(whole: Bytes, payloads: seq<Bytes>, buf: Bytes)
    requires StillTurns(whole, payloads, buf) && Turn(buf).Frame? && |Turn(buf).rest| < |buf|
    ensures StillTurns(whole, payloads + [Turn(buf).frame], Turn(buf).rest)
  {
    var rest := Turns(Turn(buf).rest).0;
    assert payloads + ([Turn(buf).frame] + rest) == payloads + [Turn(buf).frame] + rest;
  }

  lemma TurnsOver(whole: Bytes, payloads: seq<Bytes>, buf: Bytes)
    requires StillTurns(whole, payloads, buf) && (Turn(buf).Frame? ==> |Turn(buf).rest| >= |buf|)
    ensures Turns(whole) == (payloads, buf)
    ensures MeetsStall(whole) <==> Turn(buf).Frame?
  {
    assert payloads + [] == payloads;
  }

  lemma TurnIs(b: Bytes)
    requires |b| >= 4
    ensures
      var len := HeaderValue(b);
      Turn(b) == if U32(|b|) < U32(4 + len) then More
                 else Frame(Mid(b, 4, I32(len)), RemoveFront(b, I32(U32(4 + len))))
  {
  }

  /** DrainFrames: the payloads it hands over and the tail it leaves, whatever the headers. `stalls` says that
      the loop has come to a turn that changes nothing, and would go on with it forever. */
  method DrainFrames(whole: Bytes) returns (payloads: seq<Bytes>, rest: Bytes, stalls: bool)
    requires |whole| < TWO31
    ensures (payloads, rest) == Turns(whole)
    ensures stalls <==> MeetsStall(whole)
    ensures Shrinks(CutLength)
    ensures Sane(whole) ==> !stalls && (payloads, rest) == Drain(CutLength, whole)
  {
    var buf := whole;
    payloads, stalls := [], false;
    assert [] + Turns(whole).0 == Turns(whole).0;
    while |buf| >= 4
      invariant |buf| <= |whole| && !stalls
      invariant StillTurns(whole, payloads, buf)
      decreases |buf|
    {
      var len := HeaderValue(buf);
      TurnIs(buf);
      if U32(|buf|) < U32(4 + len) {
        break;
      }
      var payload := Mid(buf, 4, I32(len));
      var next := RemoveFront(buf, I32(U32(4 + len)));
      if |next| >= |buf| {
        stalls := true;
        break;
      }
      TurnDone(whole, payloads, buf);
      payloads := payloads + [payload];
      buf := next;
    }
    rest := buf;
    TurnsOver(whole, payloads, buf);
    SaneDrains(whole);
  }

  lemma SaneDrains(whole: Bytes)
    requires |whole| < TWO31
    ensures Shrinks(CutLength)
    ensures Sane(whole) ==> Turns(whole) == Drain(CutLength, whole) && !MeetsStall(whole)
  {
    CutLengthWorks();
    if Sane(whole) {
      TurnsAreDrain(whole);
    }
  }

  // ---------------------------------------------------------------- streams

  ghost predicate Fit(payloads: seq<Bytes>) {
    forall i :: 0 <= i < |payloads| ==> |payloads[i]| < TWO31 - 4
  }

  function FramedAll(payloads: seq<Bytes>): Bytes
    requires forall i :: 0 <= i < |payloads| ==> |payloads[i]| < TWO31 - 4
  {
    if payloads == [] then [] else Framed(payloads[0]) + FramedAll(payloads[1..])
  }

  lemma CutFramed(payload: Bytes, more: Bytes)
    requires |payload| < TWO31 - 4
    ensures CutLength(Framed(payload) + more) == Frame(payload, more)
  {
    var b := Framed(payload) + more;
    assert b == Header(|payload|) + (payload + more);
    HeaderRoundTrip(|payload|, payload + more);
    assert b[4..4 + |payload|] == payload && b[4 + |payload|..] == more;
  }

  lemma {:induction false} DrainFramed(payloads: seq<Bytes>)
    requires Fit(payloads) && Shrinks(CutLength)
    ensures Drain(CutLength, FramedAll(payloads)) == (payloads, [])
    decreases |payloads|
  {
    if payloads != [] {
      var more := FramedAll(payloads[1..]);
      CutFramed(payloads[0], more);
      DrainOne(CutLength, Framed(payloads[0]) + more, payloads[0], more);
      DrainFramed(payloads[1..]);
      assert payloads == [payloads[0]] + payloads[1..];
    }
  }

  /** Any cutting of the framed payloads into chunks delivers exactly them, in order. */
  lemma PayloadsArrive(payloads: seq<Bytes>, chunks: seq<Bytes>)
    requires Fit(payloads) && Flat(chunks) == FramedAll(payloads)
    ensures Shrinks(CutLength) && Feed(CutLength, [], chunks) == (payloads, [])
  {
    CutLengthWorks();
    ChunkingIndependent(CutLength, [], chunks);
    assert [] + Flat(chunks) == FramedAll(payloads);
    DrainFramed(payloads);
  }

  /** Every prefix of a stream of framed payloads, and what a receiver retains of it, is read without
      wrapping around. */
  lemma {:induction false} PrefixesSane(payloads: seq<Bytes>, b: Bytes)
    requires Fit(payloads) && b <= FramedAll(payloads)
    ensures Sane(b)
    decreases |payloads|
  {
    if |b| >= 4 && payloads != [] {
      HeaderOfPrefix(payloads[0], FramedAll(payloads[1..]), b);
      if CutLength(b).Frame? {
        PrefixesSane(payloads[1..], CutLength(b).rest);
      }
    }
  }

  lemma HeaderOfPrefix(p: Bytes, more: Bytes, b: Bytes)
    requires |p| < TWO31 - 4 && 4 <= |b| && b <= Framed(p) + more
    ensures HeaderValue(b) == |p|
    ensures CutLength(b).Frame? ==> CutLength(b).rest <= more
  {
    var whole, n := Framed(p) + more, 4 + |p|;
    assert whole == Header(|p|) + (p + more);
    HeaderRoundTrip(|p|, p + more);
    assert b[0] == whole[0] && b[1] == whole[1] && b[2] == whole[2] && b[3] == whole[3];
    if n <= |b| {
      assert whole[n..] == more;
      assert b[n..] == whole[n..|b|] == more[..|b| - n];
    }
  }

  /** Draining a prefix of framed payloads leaves a prefix of the payloads not delivered yet. */
  lemma {:induction false} DrainPrefix(payloads: seq<Bytes>, b: Bytes, more: Bytes)
    requires Fit(payloads) && b + more == FramedAll(payloads) && Shrinks(CutLength)
    ensures
      var (fs, tail) := Drain(CutLength, b);
      |fs| <= |payloads| && tail + more == FramedAll(payloads[|fs|..])
    decreases |payloads|
  {
    match CutLength(b)
    case More =>
      assert payloads[0..] == payloads;
    case Frame(f, rest) =>
      assert |FramedAll(payloads)| == |b| + |more| >= 4;
      CutLengthWorks();
      assert StableAt(CutLength, b, more);
      CutFramed(payloads[0], FramedAll(payloads[1..]));
      DrainPrefix(payloads[1..], rest, more);
      DrainOne(CutLength, b, f, rest);
      var fs := Drain(CutLength, rest).0;
      assert payloads[1..][|fs|..] == payloads[1 + |fs|..];
  }

  /** Receiving framed payloads in any chunks, no call of DrainFrames ever meets a header that wraps
      around: each one drains exactly what Feed says. */
  lemma {:induction false} CallsSane(payloads: seq<Bytes>, buffer: Bytes, chunks: seq<Bytes>, i: nat)
    requires Fit(payloads) && buffer + Flat(chunks) == FramedAll(payloads) && i < |chunks| && Shrinks(CutLength)
    ensures Sane(Feed(CutLength, buffer, chunks[..i]).1 + chunks[i])
    decreases i
  {
    var c, more := chunks[0], Flat(chunks[1..]);
    assert buffer + Flat(chunks) == buffer + c + more;
    if i == 0 {
      assert chunks[..0] == [];
      PrefixesSane(payloads, buffer + c);
    } else {
      DrainPrefix(payloads, buffer + c, more);
      var (fs, tail) := Drain(CutLength, buffer + c);
      CallsSane(payloads[|fs|..], tail, chunks[1..], i - 1);
      FeedStep(buffer, chunks, i);
    }
  }

  lemma FeedStep(buffer: Bytes, chunks: seq<Bytes>, i: nat)
    requires 0 < i < |chunks| && Shrinks(CutLength)
    ensures Feed(CutLength, buffer, chunks[..i]).1
         == Feed(CutLength, Drain(CutLength, buffer + chunks[0]).1, chunks[1..][..i - 1]).1
  {
    assert chunks[..i][1..] == chunks[1..][..i - 1];
    assert chunks[..i][0] == chunks[0];
  }
}
