/**
 The MessagePack reader and writer of the demo firmware, for integers, strings and binaries. The formats are
 those of the "int format family", "str format family" and "bin format family" of the MessagePack
 specification.
 */
module MsgPack {
  import opened Variants
  import opened Framing

  // ---------------------------------------------------------------- integer types

  /** A C++ integer type. */
  datatype IntType = IntType(bytes: nat, signed: bool)

  predicate IsType(t: IntType) {
    t.bytes == 1 || t.bytes == 2 || t.bytes == 4 || t.bytes == 8
  }

  function Span(bytes: nat): int
    requires bytes == 1 || bytes == 2 || bytes == 4 || bytes == 8
  {
    if bytes == 1 then 0x100 else if bytes == 2 then 0x1_0000 else if bytes == 4 then 0x1_0000_0000
    else 0x1_0000_0000_0000_0000
  }

  predicate Fits(t: IntType, v: int)
    requires IsType(t)
  {
    if t.signed then -(Span(t.bytes) / 2) <= v < Span(t.bytes) / 2 else 0 <= v < Span(t.bytes)
  }

  /** A conversion between integer types keeps the low bits. */
  function Cast(t: IntType, v: int): (r: int)
    requires IsType(t)
    ensures Fits(t, r)
  {
    var low := v % Span(t.bytes);
    if t.signed && low >= Span(t.bytes) / 2 then low - Span(t.bytes) else low
  }

  lemma CastFits(t: IntType, v: int)
    requires IsType(t) && Fits(t, v)
    ensures Cast(t, v) == v
  {
    CastIs(t, v, v);
  }

  lemma CastIs(t: IntType, v: int, r: int)
    requires IsType(t) && Fits(t, r)
    requires v == r || v == r + Span(t.bytes) || v == r - Span(t.bytes)
    ensures Cast(t, v) == r
  {
    var m := Span(t.bytes);
    ModIs(v, if r < 0 then r + m else r, m);
  }

  lemma ModIs(v: int, low: int, m: int)
    requires 0 <= low < m && (v == low || v == low + m || v == low - m || v == low - 2 * m)
    ensures v % m == low
  {
    if v == low + m {
      ModShift(low, m, 1);
    } else if v == low - m {
      ModShift(low, m, -1);
    } else if v == low - 2 * m {
      ModShift(low, m, -2);
    }
  }

  lemma ModShift(low: int, m: int, k: int)
    requires 0 <= low < m
    ensures (low + k * m) % m == low
  {
    var v := low + k * m;
    var q, r := v / m, v % m;
    assert v == q * m + r;
    assert (q - k) * m == low - r;
    SmallMultiple(q - k, m);
  }

  lemma SmallMultiple(x: int, m: int)
    requires -m < x * m < m
    ensures x * m == 0
  {
    assert x >= 1 ==> x * m >= m;
    assert x <= -1 ==> x * m <= -m;
  }

  /** The checks getTrivialWith makes on a wire value of type `wire` read into `t`. */
  predicate Accepted(wire: IntType, t: IntType, v: int)
    requires IsType(wire) && IsType(t)
  {
    var out := Cast(t, v);
    (out > 0) == (v > 0) && (wire.bytes > t.bytes ==> v == Cast(wire, out))
  }

  lemma SpanGrows(a: nat, b: nat)
    requires (a == 1 || a == 2 || a == 4 || a == 8) && (b == 1 || b == 2 || b == 4 || b == 8)
    ensures a < b ==> 2 * Span(a) <= Span(b)
    ensures a <= b ==> Span(a) <= Span(b)
  {
  }

  /** A value read into a type is accepted exactly when the type can hold it, and then it is that value. */
  lemma AcceptedIff(wire: IntType, t: IntType, v: int)
    requires IsType(wire) && IsType(t) && Fits(wire, v)
    ensures Accepted(wire, t, v) <==> Fits(t, v)
    ensures Fits(t, v) ==> Cast(t, v) == v
  {
    SpanGrows(t.bytes, wire.bytes);
    SpanGrows(wire.bytes, t.bytes);
    if Fits(t, v) {
      CastFits(t, v);
      CastFits(wire, v);
    } else if wire.bytes > t.bytes {
      NarrowedDiffers(wire, t, v);
    } else if v < 0 {
      CastIs(t, v, v + Span(t.bytes));
    } else {
      CastIs(t, v, v - Span(t.bytes));
    }
  }

  lemma NarrowedDiffers(wire: IntType, t: IntType, v: int)
    requires IsType(wire) && IsType(t) && Fits(wire, v) && !Fits(t, v) && wire.bytes > t.bytes
    ensures !Accepted(wire, t, v)
  {
    var out := Cast(t, v);
    SpanGrows(t.bytes, wire.bytes);
    if Fits(wire, out) {
      CastFits(wire, out);
    } else {
      // a negative value out of an unsigned one
      assert out < 0 && v > 0;
    }
  }

  // ---------------------------------------------------------------- numbers as bytes

  /** The `n` low bytes of a number, the highest first. */
  function Big(v: nat, n: nat): (b: Bytes)
    ensures |b| == n
  {
    if n == 0 then [] else Big(v / 0x100, n - 1) + [(v % 0x100) as byte]
  }

  function FromBig(b: Bytes): nat {
    if b == [] then 0 else FromBig(b[..|b| - 1]) * 0x100 + b[|b| - 1] as nat
  }

  function Power(n: nat): nat {
    if n == 0 then 1 else Power(n - 1) * 0x100
  }

  lemma {:induction false} FromBigOfBig(v: nat, n: nat)
    requires v < Power(n)
    ensures FromBig(Big(v, n)) == v
    decreases n
  {
    if n > 0 {
      assert Big(v, n)[..n - 1] == Big(v / 0x100, n - 1);
      FromBigOfBig(v / 0x100, n - 1);
    }
  }

  lemma PowerIsSpan(n: nat)
    requires n == 1 || n == 2 || n == 4 || n == 8
    ensures Power(n) == Span(n)
  {
    assert Power(2) == Power(1) * 0x100 && Power(3) == Power(2) * 0x100 && Power(4) == Power(3) * 0x100;
    assert Power(5) == Power(4) * 0x100 && Power(6) == Power(5) * 0x100;
    assert Power(7) == Power(6) * 0x100 && Power(8) == Power(7) * 0x100;
  }

  lemma {:induction false} FromBigBound(b: Bytes)
    ensures FromBig(b) < Power(|b|)
    decreases |b|
  {
    if b != [] {
      FromBigBound(b[..|b| - 1]);
    }
  }

  // ---------------------------------------------------------------- the writer

  const INT64_MIN: int := -0x8000_0000_0000_0000

  /** What an integer argument of the writer can be. */
  predicate Writable(v: int) {
    INT64_MIN <= v < Span(8)
  }

  /** The smallest type of one sign that holds the value. */
  function Smallest(v: int): (t: IntType)
    requires Writable(v)
    ensures IsType(t) && Fits(t, v) && t.signed == (v < 0)
  {
    if v >= 0 then
      IntType(if v < Span(1) then 1 else if v < Span(2) then 2 else if v < Span(4) then 4 else 8, false)
    else
      IntType(if v >= -0x80 then 1 else if v >= -0x8000 then 2 else if v >= -0x8000_0000 then 4 else 8, true)
  }

  function TagOf(t: IntType): byte
    requires IsType(t)
  {
    var size := if t.bytes == 1 then 0 else if t.bytes == 2 then 1 else if t.bytes == 4 then 2 else 3;
    if t.signed then 0xD0 + size else 0xCC + size
  }

  /** A value as the unsigned number with the same bytes. */
  function Unsigned(t: IntType, v: int): nat
    requires IsType(t) && Fits(t, v)
  {
    if v < 0 then v + Span(t.bytes) else v
  }

  function EncodedInt(v: int): (b: Bytes)
    requires Writable(v)
    ensures b != []
  {
    if 0 <= v < 0x80 then [v as byte]
    else if -0x20 <= v < 0 then [(v + 0x100) as byte]
    else
      var t := Smallest(v);
      [TagOf(t)] + Big(Unsigned(t, v), t.bytes)
  }

  /** The tag for a length of one, two or four bytes, and the length. */
  function SizedHead(tag: byte, n: nat): Bytes
    requires tag < 0xFE && n < Span(4)
  {
    if n < Span(1) then [tag] + Big(n, 1) else if n < Span(2) then [tag + 1] + Big(n, 2) else [tag + 2] + Big(n, 4)
  }

  function EncodedSized(tag: byte, data: Bytes): Bytes
    requires tag < 0xFE && |data| < Span(4)
  {
    SizedHead(tag, |data|) + data
  }

  /** What a write of sized data leaves that does not fit into the free bytes: its header, if that fits. */
  function RefusedSized(tag: byte, n: nat, free: nat): Bytes
    requires tag < 0xFE && n < Span(4)
  {
    if |SizedHead(tag, n)| <= free then SizedHead(tag, n) else []
  }

  function RefusedString(n: nat, free: nat): Bytes
    requires n < Span(4)
  {
    if n <= 31 then [] else RefusedSized(0xD9, n, free)
  }

  lemma SizedIsHead(tag: byte, data: Bytes)
    requires tag < 0xFE && |data| < Span(4)
    ensures |EncodedSized(tag, data)| == |SizedHead(tag, |data|)| + |data|
    ensures |SizedHead(tag, |data|)| > 0
  {
  }

  datatype Item = Number(v: int) | String(data: Bytes) | Binary(data: Bytes)

  predicate CanWrite(x: Item) {
    if x.Number? then Writable(x.v) else |x.data| < Span(4)
  }

  function Encoded(x: Item): (b: Bytes)
    requires CanWrite(x)
    ensures b != []
  {
    match x
    case Number(v) => EncodedInt(v)
    case String(data) => if |data| <= 31 then [(0xA0 + |data|) as byte] + data else EncodedSized(0xD9, data)
    case Binary(data) => EncodedSized(0xC4, data)
  }

  class OutIterator {
    const buffer: array<byte>
    var pos: nat

    ghost predicate Valid()
      reads this
    {
      pos <= buffer.Length
    }

    ghost function Written(): Bytes
      reads this, buffer
      requires Valid()
    {
      buffer[..pos]
    }

    constructor (buffer: array<byte>)
      ensures Valid() && this.buffer == buffer && Written() == []
    {
      this.buffer, pos := buffer, 0;
    }

    /** Copies bytes that fit. */
    method Put(data: Bytes)
      requires Valid() && pos + |data| <= buffer.Length
      modifies this`pos, buffer
      ensures Valid() && Written() == old(Written()) + data
    {
      var start := pos;
      forall i | 0 <= i < |data| {
        buffer[start + i] := data[i];
      }
      pos := pos + |data|;
      assert buffer[..pos] == buffer[..start] + buffer[start..pos];
      assert buffer[start..pos] == data;
    }

    method WriteTypedTrivial(tag: byte, n: nat, v: nat) returns (ok: bool)
      requires Valid()
      modifies this`pos, buffer
      ensures Valid() && (ok <==> old(pos) + 1 + n <= buffer.Length)
      ensures Written() == if ok then old(Written()) + ([tag] + Big(v, n)) else old(Written())
    {
      if buffer.Length - pos < n + 1 {
        return false;
      }
      Put([tag] + Big(v, n));
      ok := true;
    }

    method WriteByte(b: byte) returns (ok: bool)
      requires Valid()
      modifies this`pos, buffer
      ensures Valid() && (ok <==> old(pos) + 1 <= buffer.Length)
      ensures Written() == if ok then old(Written()) + [b] else old(Written())
    {
      if buffer.Length == pos {
        return false;
      }
      Put([b]);
      ok := true;
    }

    /** An integer is written whole or not at all. */
    method WriteInteger(v: int) returns (ok: bool)
      requires Valid() && Writable(v)
      modifies this`pos, buffer
      ensures Valid() && (ok <==> old(pos) + |EncodedInt(v)| <= buffer.Length)
      ensures Written() == if ok then old(Written()) + EncodedInt(v) else old(Written())
    {
      if v < 0 {
        ok := WriteNegative(v);
      } else {
        ok := WriteUnsigned(v);
      }
    }

    method WriteNegative(v: int) returns (ok: bool)
      requires Valid() && INT64_MIN <= v < 0
      modifies this`pos, buffer
      ensures Valid() && (ok <==> old(pos) + |EncodedInt(v)| <= buffer.Length)
      ensures Written() == if ok then old(Written()) + EncodedInt(v) else old(Written())
    {
      if v >= -32 {
        ok := WriteByte((v + 0x100) as byte);
      } else if v >= -0x80 {
        ok := WriteTypedTrivial(0xD0, 1, v + Span(1));
      } else if v >= -0x8000 {
        ok := WriteTypedTrivial(0xD1, 2, v + Span(2));
      } else if v >= -0x8000_0000 {
        ok := WriteTypedTrivial(0xD2, 4, v + Span(4));
      } else {
        ok := WriteTypedTrivial(0xD3, 8, v + Span(8));
      }
    }

    method WriteUnsigned(v: int) returns (ok: bool)
      requires Valid() && 0 <= v < Span(8)
      modifies this`pos, buffer
      ensures Valid() && (ok <==> old(pos) + |EncodedInt(v)| <= buffer.Length)
      ensures Written() == if ok then old(Written()) + EncodedInt(v) else old(Written())
    {
      if v < 128 {
        ok := WriteByte(v as byte);
      } else if v <= 0xFF {
        ok := WriteTypedTrivial(0xCC, 1, v);
      } else if v <= 0xFFFF {
        ok := WriteTypedTrivial(0xCD, 2, v);
      } else if v <= 0xFFFF_FFFF {
        ok := WriteTypedTrivial(0xCE, 4, v);
      } else {
        ok := WriteTypedTrivial(0xCF, 8, v);
      }
    }

    /** When the bytes do not fit, their header may be written all the same. */
    method WriteSized(tag: byte, data: Bytes) returns (ok: bool)
      requires Valid() && tag < 0xFE && |data| < Span(4)
      modifies this`pos, buffer
      ensures Valid() && old(Written()) <= Written()
      ensures ok <==> old(pos) + |EncodedSized(tag, data)| <= buffer.Length
      ensures Written() == old(Written())
        + if ok then EncodedSized(tag, data) else RefusedSized(tag, |data|, buffer.Length - old(pos))
    {
      ghost var head := SizedHead(tag, |data|);
      SizedIsHead(tag, data);
      ok := WriteSizedHead(tag, |data|);
      if !ok {
        return;
      }
      if buffer.Length - pos < |data| {
        return false;
      }
      Put(data);
      assert old(Written()) + head + data == old(Written()) + (head + data);
    }

    method WriteSizedHead(tag: byte, n: nat) returns (ok: bool)
      requires Valid() && tag < 0xFE && n < Span(4)
      modifies this`pos, buffer
      ensures Valid() && (ok <==> old(pos) + |SizedHead(tag, n)| <= buffer.Length)
      ensures Written() == if ok then old(Written()) + SizedHead(tag, n) else old(Written())
    {
      if n <= 0xFF {
        ok := WriteTypedTrivial(tag, 1, n);
      } else if n <= 0xFFFF {
        ok := WriteTypedTrivial(tag + 1, 2, n);
      } else {
        ok := WriteTypedTrivial(tag + 2, 4, n);
      }
    }

    method WriteString(data: Bytes) returns (ok: bool)
      requires Valid() && |data| < Span(4)
      modifies this`pos, buffer
      ensures Valid() && old(Written()) <= Written()
      ensures ok <==> old(pos) + |Encoded(String(data))| <= buffer.Length
      ensures Written() == old(Written())
        + if ok then Encoded(String(data)) else RefusedString(|data|, buffer.Length - old(pos))
    {
      if |data| <= 31 {
        ok := WriteShort((0xA0 + |data|) as byte, data);
      } else {
        ok := WriteSized(0xD9, data);
      }
    }

    method WriteShort(head: byte, data: Bytes) returns (ok: bool)
      requires Valid()
      modifies this`pos, buffer
      ensures Valid() && old(Written()) <= Written()
      ensures ok <==> old(pos) + 1 + |data| <= buffer.Length
      ensures Written() == old(Written()) + if ok then [head] + data else []
    {
      if buffer.Length - pos < 1 + |data| {
        return false;
      }
      Put([head]);
      Put(data);
      assert old(Written()) + [head] + data == old(Written()) + ([head] + data);
      ok := true;
    }

    method WriteBinary(data: Bytes) returns (ok: bool)
      requires Valid() && |data| < Span(4)
      modifies this`pos, buffer
      ensures Valid() && old(Written()) <= Written()
      ensures ok <==> old(pos) + |Encoded(Binary(data))| <= buffer.Length
      ensures Written() == old(Written())
        + if ok then Encoded(Binary(data)) else RefusedSized(0xC4, |data|, buffer.Length - old(pos))
    {
      ok := WriteSized(0xC4, data);
    }

    /** The header of an array of at most 15 items. */
    method BeginFixArray(n: nat) returns (ok: bool)
      requires Valid() && n <= 15
      modifies this`pos, buffer
      ensures Valid() && (ok <==> old(pos) + 1 <= buffer.Length)
      ensures Written() == if ok then old(Written()) + [(0x90 + n) as byte] else old(Written())
    {
      ok := WriteByte((0x90 + n) as byte);
    }
  }

  // ---------------------------------------------------------------- the reader

  /** The bytes from the current item on; not valid behind the last item. */
  datatype Input = Input(rest: Bytes, valid: bool)

  function Opened(data: Bytes): Input {
    Input(data, data != [])
  }

  function Advanced(i: Input, step: nat): Input {
    if step >= |i.rest| then i.(valid := false) else Input(i.rest[step..], true)
  }

  function WireType(tag: byte): (t: Option<IntType>)
    ensures t.Some? ==> IsType(t.value)
  {
    if 0xCC <= tag <= 0xCF then Some(IntType([1, 2, 4, 8][tag as int - 0xCC], false))
    else if 0xD0 <= tag <= 0xD3 then Some(IntType([1, 2, 4, 8][tag as int - 0xD0], true))
    else None
  }

  function Signed(t: IntType, n: nat): int
    requires IsType(t)
  {
    if t.signed && n >= Span(t.bytes) / 2 then n - Span(t.bytes) else n
  }

  /** The integer on the wire, if all of it is there. */
  function WireInt(rest: Bytes): Option<int> {
    if rest == [] then None
    else if rest[0] <= 0x7F then Some(rest[0] as int)
    else if rest[0] >= 0xE0 then Some(rest[0] as int - 0x100)
    else match WireType(rest[0])
      case None => None
      case Some(t) => if |rest| < t.bytes + 1 then None else Some(Signed(t, FromBig(rest[1..t.bytes + 1])))
  }

  function WireSize(tag: byte): nat {
    match WireType(tag) case None => 1 case Some(t) => t.bytes + 1
  }

  /** Where GetInteger leaves the input, and what it gives. */
  function IntegerAt(i: Input, t: IntType): (Option<int>, Input)
    requires IsType(t)
  {
    if i.valid && i.rest != [] && WireInt(i.rest).Some? && Fits(t, WireInt(i.rest).value)
    then (WireInt(i.rest), Advanced(i, WireSize(i.rest[0])))
    else (None, i)
  }

  datatype Composite = Found(data: Bytes) | Nothing | Beyond

  function SizeBytes(tag: byte): nat {
    if tag == 0xC4 || tag == 0xD9 then 1
    else if tag == 0xC5 || tag == 0xDA then 2
    else if tag == 0xC6 || tag == 0xDB then 4
    else 0
  }

  /** The bytes of a string or binary. The check for a short string leaves out its header, so one that lacks
      just its last byte is taken to go beyond the input. */
  function CompositeIn(rest: Bytes): Composite {
    if rest == [] then Nothing
    else
      var n := SizeBytes(rest[0]);
      if n > 0 then
        if |rest| < 1 + n then Nothing
        else
          var len := FromBig(rest[1..1 + n]);
          if |rest| < 1 + n + len then Nothing else Found(rest[1 + n..1 + n + len])
      else if 0xA0 <= rest[0] <= 0xBF then
        var len := rest[0] as int % 32;
        if |rest| < len then Nothing else if |rest| == len then Beyond else Found(rest[1..1 + len])
      else Nothing
  }

  function CompositeAt(i: Input): (Composite, Input) {
    if !i.valid || i.rest == [] then (Nothing, i)
    else
      var c := CompositeIn(i.rest);
      (c, if c.Found? then Advanced(i, 1 + SizeBytes(i.rest[0]) + |c.data|) else i)
  }

  function ArraySizeAt(i: Input): (Option<nat>, Input) {
    if i.valid && i.rest != [] && 0x90 <= i.rest[0] <= 0x9F
    then (Some(i.rest[0] as int % 16), Advanced(i, 1))
    else (None, i)
  }

  class InIterator {
    var rest: Bytes
    var valid: bool

    function Now(): Input
      reads this
    {
      Input(rest, valid)
    }

    constructor (data: Bytes)
      ensures Now() == Opened(data)
    {
      rest, valid := data, |data| > 0;
    }

    method Advance(step: nat)
      modifies this
      ensures Now() == Advanced(old(Now()), step)
    {
      if step >= |rest| {
        valid := false;
      } else {
        rest, valid := rest[step..], true;
      }
    }

    method GetTrivialWith(wire: IntType, t: IntType) returns (ok: bool, out: int)
      requires IsType(wire) && IsType(t) && rest != [] && WireType(rest[0]) == Some(wire)
      ensures ok <==> WireInt(rest).Some? && Fits(t, WireInt(rest).value)
      ensures ok ==> out == WireInt(rest).value
    {
      out := 0;
      if |rest| < wire.bytes + 1 {
        return false, 0;
      }
      var n := FromBig(rest[1..wire.bytes + 1]);
      WireFits(wire, rest[1..wire.bytes + 1]);
      var v := Signed(wire, n);
      out := Cast(t, v);
      AcceptedIff(wire, t, v);
      if (out > 0) != (v > 0) {
        return false, out;
      }
      if wire.bytes > t.bytes {
        if v != Cast(wire, out) {
          return false, out;
        }
      }
      ok := true;
    }

    /** Succeeds exactly when there is a whole integer and the type can hold it. */
    method GetInteger(t: IntType) returns (ok: bool, out: int)
      requires IsType(t)
      modifies this
      ensures Now() == IntegerAt(old(Now()), t).1
      ensures IntegerAt(old(Now()), t).0 == if ok then Some(out) else None
    {
      ok, out := false, 0;
      if !valid || |rest| == 0 {
        return;
      }
      var tag := rest[0];
      if tag <= 0x7F {
        out := Cast(t, tag as int);
        AcceptedIff(IntType(1, true), t, tag as int);
        ok := true;
      } else if tag >= 0xE0 {
        var v := tag as int - 0x100;
        out := Cast(t, v);
        AcceptedIff(IntType(1, true), t, v);
        if (out > 0) != (v > 0) {
          return false, out;
        }
        ok := true;
      } else if WireType(tag).Some? {
        ok, out := GetTrivialWith(WireType(tag).value, t);
      }
      if ok {
        Advance(WireSize(tag));
      }
    }

    method GetComposite() returns (c: Composite)
      modifies this
      ensures (c, Now()) == CompositeAt(old(Now()))
    {
      if !valid || |rest| == 0 {
        return Nothing;
      }
      var n := SizeBytes(rest[0]);
      if n > 0 {
        if |rest| < 1 + n {
          return Nothing;
        }
        var len := FromBig(rest[1..1 + n]);
        if |rest| < 1 + n + len {
          return Nothing;
        }
        c := Found(rest[1 + n..1 + n + len]);
      } else if 0xA0 <= rest[0] <= 0xBF {
        var len := rest[0] as int % 32;
        if |rest| < len {
          return Nothing;
        }
        if |rest| == len {
          return Beyond;
        }
        c := Found(rest[1..1 + len]);
      } else {
        return Nothing;
      }
      Advance(1 + n + |c.data|);
    }

    method GetFixArraySize() returns (n: Option<nat>)
      modifies this
      ensures (n, Now()) == ArraySizeAt(old(Now()))
    {
      if !valid || |rest| == 0 || !(0x90 <= rest[0] <= 0x9F) {
        return None;
      }
      n := Some(rest[0] as int % 16);
      Advance(1);
    }
  }

  /** `rest` is the encoding of the short string `data` without its last byte. */
  ghost predicate LacksLastByte(rest: Bytes, data: Bytes) {
    1 <= |data| <= 31 && Encoded(String(data)) == rest + [data[|data| - 1]]
  }

  /** The reader goes one byte behind its input exactly on a short string that lacks its last byte. */
  lemma BeyondIff(rest: Bytes)
    ensures CompositeIn(rest) == Beyond <==> exists data :: LacksLastByte(rest, data)
  {
    if CompositeIn(rest) == Beyond {
      var data := rest[1..] + [0];
      assert [rest[0]] + data == rest + [0];
      assert (0xA0 + |data|) as byte == rest[0];
      assert LacksLastByte(rest, data);
    }
    if data :| LacksLastByte(rest, data) {
      var whole := Encoded(String(data));
      assert whole[0] == (0xA0 + |data|) as byte && |whole| == 1 + |data|;
      assert rest == whole[..|data|];
      assert rest[0] as int % 32 == |data|;
    }
  }

  lemma WireFits(wire: IntType, b: Bytes)
    requires IsType(wire) && |b| == wire.bytes
    ensures Fits(wire, Signed(wire, FromBig(b)))
  {
    FromBigBound(b);
    PowerIsSpan(wire.bytes);
  }

  // ---------------------------------------------------------------- what was written is read

  lemma IntegerFront(v: int, more: Bytes)
    requires Writable(v)
    ensures
      var b := EncodedInt(v) + more;
      WireInt(b) == Some(v) && WireSize(b[0]) == |EncodedInt(v)|
  {
    if v < -0x20 || 0x80 <= v {
      var t := Smallest(v);
      var n := Unsigned(t, v);
      var b := EncodedInt(v) + more;
      PowerIsSpan(t.bytes);
      FromBigOfBig(n, t.bytes);
      assert b[1..t.bytes + 1] == Big(n, t.bytes);
      assert WireType(TagOf(t)) == Some(t);
    }
  }

  lemma SizedParts(head: Bytes, size: Bytes, data: Bytes, more: Bytes)
    requires |head| == 1
    ensures
      var b := head + size + data + more;
      b[1..1 + |size|] == size && b[1 + |size|..1 + |size| + |data|] == data
  {
  }

  lemma SizedFront(tag: byte, data: Bytes, more: Bytes)
    requires (tag == 0xC4 || tag == 0xD9) && |data| < Span(4)
    ensures
      var b := EncodedSized(tag, data) + more;
      CompositeIn(b) == Found(data) && 1 + SizeBytes(b[0]) + |data| == |EncodedSized(tag, data)|
  {
    var n := if |data| < Span(1) then 1 else if |data| < Span(2) then 2 else 4;
    var size, b := Big(|data|, n), EncodedSized(tag, data) + more;
    PowerIsSpan(n);
    FromBigOfBig(|data|, n);
    assert SizedHead(tag, |data|) == [b[0]] + size && SizeBytes(b[0]) == n;
    SizedParts([b[0]], size, data, more);
    assert b == [b[0]] + size + data + more;
  }

  lemma ShortStringFront(data: Bytes, more: Bytes)
    requires |data| <= 31
    ensures
      var b := Encoded(String(data)) + more;
      CompositeIn(b) == Found(data) && 1 + SizeBytes(b[0]) + |data| == |Encoded(String(data))|
  {
    var b := Encoded(String(data)) + more;
    assert b[1..1 + |data|] == data;
  }

  function EncodedAll(items: seq<Item>): Bytes
    requires forall i :: 0 <= i < |items| ==> CanWrite(items[i])
  {
    if items == [] then [] else Encoded(items[0]) + EncodedAll(items[1..])
  }

  /** One item read back: an integer into a type that holds it, or bytes. */
  ghost function ReadItem(i: Input, x: Item, t: IntType): (bool, Input)
    requires IsType(t)
  {
    if x.Number? then
      var (v, next) := IntegerAt(i, t);
      (v == Some(x.v), next)
    else
      var (c, next) := CompositeAt(i);
      (c == Found(x.data), next)
  }

  ghost predicate ReadsBack(i: Input, items: seq<Item>, types: seq<IntType>)
    requires |types| == |items| && forall k :: 0 <= k < |types| ==> IsType(types[k])
    decreases |items|
  {
    if items == [] then !i.valid
    else
      var (same, next) := ReadItem(i, items[0], types[0]);
      same && ReadsBack(next, items[1..], types[1..])
  }

  /** What is left after an item of `n` bytes was read. */
  lemma AdvancedPast(item: Bytes, more: Bytes)
    requires item != []
    ensures var next := Advanced(Input(item + more, true), |item|);
            next.valid == (more != []) && (next.valid ==> next.rest == more)
  {
    assert (item + more)[|item|..] == more;
  }

  lemma ItemReadsBack(x: Item, more: Bytes, t: IntType)
    requires CanWrite(x) && IsType(t) && (x.Number? ==> Fits(t, x.v))
    ensures
      var (same, next) := ReadItem(Input(Encoded(x) + more, true), x, t);
      same && next == Advanced(Input(Encoded(x) + more, true), |Encoded(x)|)
  {
    match x
    case Number(v) => IntegerFront(v, more);
    case String(data) =>
      if |data| <= 31 {
        ShortStringFront(data, more);
      } else {
        SizedFront(0xD9, data, more);
      }
    case Binary(data) => SizedFront(0xC4, data, more);
  }

  lemma {:induction false} ItemsReadBack(i: Input, items: seq<Item>, types: seq<IntType>)
    requires |types| == |items| && forall k :: 0 <= k < |types| ==> IsType(types[k])
    requires forall k :: 0 <= k < |items| ==> CanWrite(items[k]) && (items[k].Number? ==> Fits(types[k], items[k].v))
    requires i.valid == (items != []) && (i.valid ==> i.rest == EncodedAll(items))
    ensures ReadsBack(i, items, types)
    decreases |items|
  {
    if items != [] {
      var more := EncodedAll(items[1..]);
      ItemReadsBack(items[0], more, types[0]);
      AdvancedPast(Encoded(items[0]), more);
      assert items[1..] != [] ==> more != [];
      ItemsReadBack(Advanced(i, |Encoded(items[0])|), items[1..], types[1..]);
    }
  }

  lemma ArrayFront(n: nat, more: Bytes)
    requires n <= 15
    ensures
      var b := [(0x90 + n) as byte] + more;
      ArraySizeAt(Opened(b)) == (Some(n), Advanced(Input(b, true), 1))
  {
    var b := [(0x90 + n) as byte] + more;
    assert b[0] == (0x90 + n) as byte;
  }

  /** An array of up to 15 integers, strings and binaries is read back item by item, and then the input is
      at its end; every integer type that holds the value will do. */
  lemma ArrayReadsBack(items: seq<Item>, types: seq<IntType>)
    requires |items| <= 15 && |types| == |items| && forall k :: 0 <= k < |types| ==> IsType(types[k])
    requires forall k :: 0 <= k < |items| ==> CanWrite(items[k]) && (items[k].Number? ==> Fits(types[k], items[k].v))
    ensures
      var (n, i) := ArraySizeAt(Opened([(0x90 + |items|) as byte] + EncodedAll(items)));
      n == Some(|items|) && ReadsBack(i, items, types)
  {
    var head, more := [(0x90 + |items|) as byte], EncodedAll(items);
    AdvancedPast(head, more);
    assert items != [] ==> more != [];
    ItemsReadBack(Advanced(Input(head + more, true), |head|), items, types);
    ArrayFront(|items|, more);
  }
}
