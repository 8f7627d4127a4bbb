/** Register values as 16-bit words, on a little-endian host. */
module RegisterCodec {
  import opened Variants
  import opened PollPlan

  type Word = x: int | 0 <= x < 0x1_0000

  const HOST: ByteOrder := Little

  /** What a register can hold; a float is known by its 32-bit pattern. */
  datatype Value = Flag(on: bool) | Number(n: nat) | Single(pattern: nat)

  function SwapBytes(w: Word): (s: Word)
    ensures s == w % 0x100 * 0x100 + w / 0x100
  {
    w % 0x100 * 0x100 + w / 0x100
  }

  lemma SwapTwice(w: Word)
    ensures SwapBytes(SwapBytes(w)) == w
  {
    var lo, hi := w % 0x100, w / 0x100;
    assert SwapBytes(w) == lo * 0x100 + hi && 0 <= hi < 0x100;
  }

  function Low(v: nat): Word {
    v % 0x1_0000
  }

  function High(v: nat): Word
    requires v < 0x1_0000_0000
  {
    v / 0x1_0000
  }

  // ---------------------------------------------------------------- encoding

  function PackedWord(w: Word, byte: ByteOrder): Word {
    if byte == HOST then w else SwapBytes(w)
  }

  function Packed(words: seq<Word>, packing: Packing): (p: seq<Word>)
    requires |words| == 1 || |words| == 2
    ensures |p| == |words|
  {
    var w := if |words| == 2 && packing.word != HOST then [words[1], words[0]] else words;
    if |w| == 1 then [PackedWord(w[0], packing.byte)]
    else [PackedWord(w[0], packing.byte), PackedWord(w[1], packing.byte)]
  }

  method ApplyPacking(input: seq<Word>, packing: Packing) returns (words: seq<Word>)
    requires |input| == 1 || |input| == 2
    ensures words == Packed(input, packing)
  {
    words := input;
    if |words| == 2 && HOST != packing.word {
      words := [words[1], words[0]];
    }
    ghost var ordered := words;
    for i := 0 to |words|
      invariant |words| == |ordered|
      invariant forall k :: 0 <= k < |words| ==>
        words[k] == if k < i then PackedWord(ordered[k], packing.byte) else ordered[k]
    {
      words := words[i := if packing.byte == HOST then words[i] else SwapBytes(words[i])];
    }
  }

  /** A message value after Qt's conversion to an unsigned number or a float; None when it has none. */
  datatype Input = Input(flag: bool, unsigned: Option<nat>, single: Option<nat>)

  predicate IsInput(v: Input) {
    (v.unsigned.Some? ==> v.unsigned.value < 0x1_0000_0000) && (v.single.Some? ==> v.single.value < 0x1_0000_0000)
  }

  /** What a register of a kind takes from a value. */
  function Taken(kind: ValueType, v: Input): Option<Value>
    requires kind != DefaultType
  {
    match kind
    case Bit => Some(Flag(v.flag))
    case UInt16 => if v.unsigned.Some? && v.unsigned.value < 0x1_0000 then Some(Number(v.unsigned.value)) else None
    case UInt32 => if v.unsigned.Some? then Some(Number(v.unsigned.value)) else None
    case Float32 => if v.single.Some? then Some(Single(v.single.value)) else None
  }

  predicate Holds(kind: ValueType, v: Value) {
    match kind
    case DefaultType => false
    case Bit => v.Flag?
    case UInt16 => v.Number? && v.n < 0x1_0000
    case UInt32 => v.Number? && v.n < 0x1_0000_0000
    case Float32 => v.Single? && v.pattern < 0x1_0000_0000
  }

  function EncodedPair(n: nat, packing: Packing): seq<Word>
    requires n < 0x1_0000_0000
  {
    Packed([Low(n), High(n)], packing)
  }

  /** The words that go to the device. A bit is not packed. */
  function Encoded(kind: ValueType, packing: Packing, v: Value): seq<Word>
    requires Holds(kind, v)
  {
    match kind
    case Bit => [if v.on then 1 else 0]
    case UInt16 => Packed([v.n], packing)
    case UInt32 => EncodedPair(v.n, packing)
    case Float32 => EncodedPair(v.pattern, packing)
  }

  method EncodeRegister(kind: ValueType, packing: Packing, v: Input) returns (words: Option<seq<Word>>)
    requires IsInput(v) && kind != DefaultType
    ensures words == match Taken(kind, v) case None => None case Some(x) => Some(Encoded(kind, packing, x))
  {
    match kind {
      case Bit =>
        return Some([if v.flag then 1 else 0]);
      case UInt16 =>
        if v.unsigned.None? || v.unsigned.value > 0xFFFF {
          return None;
        }
        var packed := ApplyPacking([v.unsigned.value], packing);
        return Some(packed);
      case UInt32 =>
        if v.unsigned.None? {
          return None;
        }
        var packed := ApplyPacking([Low(v.unsigned.value), High(v.unsigned.value)], packing);
        return Some(packed);
      case Float32 =>
        if v.single.None? {
          return None;
        }
        var packed := ApplyPacking([Low(v.single.value), High(v.single.value)], packing);
        return Some(packed);
    }
  }

  // ---------------------------------------------------------------- decoding

  function Parsed16(w: Word, byte: ByteOrder): nat {
    if byte == Big then SwapBytes(w) else w
  }

  function Parsed32(w0: Word, w1: Word, byte: ByteOrder): nat {
    if byte == Big then SwapBytes(w0) * 0x1_0000 + SwapBytes(w1) else w0 + w1 * 0x1_0000
  }

  /** The value in two words as they were polled; a one-word register leaves the second one unset. */
  function Decoded(kind: ValueType, packing: Packing, d0: Word, d1: Word): Value
    requires kind != DefaultType
  {
    var w0, w1 := if packing.word != HOST then d1 else d0, if packing.word != HOST then d0 else d1;
    match kind
    case Bit => Flag(w0 != 0)
    case UInt16 => Number(Parsed16(w0, packing.byte))
    case UInt32 => Number(Parsed32(w0, w1, packing.byte))
    case Float32 => Single(Parsed32(w0, w1, packing.byte))
  }

  /** The two halves of a 32-bit number exchanged. */
  function Exchanged(n: nat): nat
    requires n < 0x1_0000_0000
  {
    Low(n) * 0x1_0000 + High(n)
  }

  lemma PairComesBack(n: nat, packing: Packing)
    requires n < 0x1_0000_0000
    ensures
      var words := EncodedPair(n, packing);
      var swap := packing.word != HOST;
      var w0, w1 := if swap then words[1] else words[0], if swap then words[0] else words[1];
      Parsed32(w0, w1, packing.byte) == if packing.byte == Little then n else Exchanged(n)
  {
    SwapTwice(Low(n));
    SwapTwice(High(n));
    assert n == Low(n) + High(n) * 0x1_0000;
  }

  lemma ExchangedSameIff(n: nat)
    requires n < 0x1_0000_0000
    ensures Exchanged(n) == n <==> Low(n) == High(n)
  {
    assert n == Low(n) + High(n) * 0x1_0000;
  }

  function Bits32(v: Value): nat
    requires v.Number? || v.Single?
  {
    if v.Number? then v.n else v.pattern
  }

  /** A 32-bit value comes back under either word order exactly when its bytes are little-endian, or its
      two words are the same; under big-endian bytes it comes back with its words exchanged. */
  lemma RoundTrip32Iff(kind: ValueType, packing: Packing, v: Value)
    requires (kind == UInt32 || kind == Float32) && Holds(kind, v)
    ensures
      var words := Encoded(kind, packing, v);
      var back := Decoded(kind, packing, words[0], words[1]);
      && (back == v <==> packing.byte == Little || Low(Bits32(v)) == High(Bits32(v)))
      && (packing.byte == Big ==> Bits32(back) == Exchanged(Bits32(v)))
  {
    PairComesBack(Bits32(v), packing);
    ExchangedSameIff(Bits32(v));
  }

  /** A one-word value comes back under the host's word order; under the other one the decoder takes the
      unset second word, so it comes back only if that word happens to hold it. */
  lemma RoundTrip16Iff(packing: Packing, v: Value, unset: Word)
    requires Holds(UInt16, v)
    ensures
      var words := Encoded(UInt16, packing, v);
      Decoded(UInt16, packing, words[0], unset) == v <==> packing.word == HOST || unset == words[0]
  {
    SwapTwice(v.n);
    SwapTwice(unset);
  }

  lemma RoundTripBitIff(packing: Packing, v: Value, unset: Word)
    requires Holds(Bit, v)
    ensures
      var words := Encoded(Bit, packing, v);
      Decoded(Bit, packing, words[0], unset) == v <==> packing.word == HOST || (unset != 0) == v.on
  {
  }

  /** The value comes back whatever is in the second word of a one-word register. */
  predicate ComesBack(kind: ValueType, packing: Packing, v: Value)
    requires Holds(kind, v)
  {
    match kind
    case UInt32 => packing.byte == Little || Low(v.n) == High(v.n)
    case Float32 => packing.byte == Little || Low(v.pattern) == High(v.pattern)
    case _ => packing.word == HOST
  }

  /** A value encoded and decoded, with `w` in the second word if the register has only one. */
  function Back(kind: ValueType, packing: Packing, v: Value, w: Word): Value
    requires Holds(kind, v)
  {
    var words := Encoded(kind, packing, v);
    Decoded(kind, packing, words[0], if |words| == 2 then words[1] else w)
  }

  lemma BackOfOneWord(kind: ValueType, packing: Packing, v: Value, w: Word)
    requires (kind == Bit || kind == UInt16) && Holds(kind, v)
    ensures packing.word == HOST ==> Back(kind, packing, v, w) == v
    ensures packing.word != HOST ==> exists other: Word :: Back(kind, packing, v, other) != v
  {
    var first := Encoded(kind, packing, v)[0];
    var other: Word := if first == 0 then 1 else 0;
    if kind == Bit {
      RoundTripBitIff(packing, v, w);
      RoundTripBitIff(packing, v, other);
    } else {
      RoundTrip16Iff(packing, v, w);
      RoundTrip16Iff(packing, v, other);
    }
    assert packing.word != HOST ==> Back(kind, packing, v, other) != v;
  }

  lemma BackOfTwoWords(kind: ValueType, packing: Packing, v: Value, w: Word)
    requires (kind == UInt32 || kind == Float32) && Holds(kind, v)
    ensures Back(kind, packing, v, w) == v <==> ComesBack(kind, packing, v)
  {
    RoundTrip32Iff(kind, packing, v);
  }

  /** A value comes back, whatever is in the second word, exactly by its kind, its packing and, under big-endian
      bytes, its words. */
  lemma BackIff(kind: ValueType, packing: Packing, v: Value)
    requires Holds(kind, v)
    ensures (forall w: Word :: Back(kind, packing, v, w) == v) <==> ComesBack(kind, packing, v)
  {
    if kind == Bit || kind == UInt16 {
      forall w: Word ensures packing.word == HOST ==> Back(kind, packing, v, w) == v {
        BackOfOneWord(kind, packing, v, w);
      }
      BackOfOneWord(kind, packing, v, 0);
    } else {
      forall w: Word ensures Back(kind, packing, v, w) == v <==> ComesBack(kind, packing, v) {
        BackOfTwoWords(kind, packing, v, w);
      }
      assert Back(kind, packing, v, 0) == v <==> ComesBack(kind, packing, v);
    }
  }

  lemma EncodedLength(kind: ValueType, packing: Packing, v: Value)
    requires Holds(kind, v)
    ensures |Encoded(kind, packing, v)| == if kind == UInt32 || kind == Float32 then 2 else 1
  {
  }
}
