/** Timestamps of the hybrid logical clock: their order and their 128-bit encoding. */
module HlcTimestamp {
  import opened Wrappers

  const TWO_32: nat := 0x1_0000_0000
  const TWO_64: nat := 0x1_0000_0000_0000_0000
  const TWO_96: nat := 0x1_0000_0000_0000_0000_0000_0000

  type U32 = n: nat | n < TWO_32
  type U64 = n: nat | n < TWO_64
  type Byte = n: nat | n < 256

  /** Microseconds since the epoch, a counter within them, and the node. */
  datatype Timestamp = Timestamp(ts: U64, counter: U32, node: U32)

  datatype HlcError = InvalidLength(got: nat) | ClockError | DriftExceeded | CounterOverflow

  // ----- big-endian bytes -----

  function Pow256(n: nat): (p: nat)
    ensures p > 0
  {
    if n == 0 then 1 else 256 * Pow256(n - 1)
  }

  function ToBytes(n: nat, width: nat): (bs: seq<Byte>)
    ensures |bs| == width
  {
    if width == 0 then [] else ToBytes(n / 256, width - 1) + [n % 256]
  }

  function FromBytes(bs: seq<Byte>): nat {
    if bs == [] then 0 else FromBytes(bs[..|bs| - 1]) * 256 + bs[|bs| - 1]
  }

  lemma {:induction false} FromToBytes(n: nat, width: nat)
    requires n < Pow256(width)
    ensures FromBytes(ToBytes(n, width)) == n
  {
    if width > 0 {
      FromToBytes(n / 256, width - 1);
      var bs := ToBytes(n, width);
      assert bs[..|bs| - 1] == ToBytes(n / 256, width - 1);
    }
  }

  lemma {:induction false} ToFromBytes(bs: seq<Byte>)
    ensures ToBytes(FromBytes(bs), |bs|) == bs
  {
    if bs != [] {
      var init, last := bs[..|bs| - 1], bs[|bs| - 1];
      ToFromBytes(init);
      assert FromBytes(bs) / 256 == FromBytes(init) && FromBytes(bs) % 256 == last;
      assert bs == init + [last];
    }
  }

  lemma {:induction false} FromBytesBound(bs: seq<Byte>)
    ensures FromBytes(bs) < Pow256(|bs|)
  {
    if bs != [] { FromBytesBound(bs[..|bs| - 1]); }
  }

  lemma {:induction false} FromBytesConcat(a: seq<Byte>, b: seq<Byte>)
    ensures FromBytes(a + b) == FromBytes(a) * Pow256(|b|) + FromBytes(b)
  {
    if b == [] {
      assert a + b == a;
    } else {
      var init, last := b[..|b| - 1], b[|b| - 1];
      FromBytesConcat(a, init);
      assert (a + b)[..|a + b| - 1] == a + init;
    }
  }

  // ----- packing -----

  function Pack(t: Timestamp): (bs: seq<Byte>)
    ensures |bs| == 16
  {
    ToBytes(t.ts, 8) + ToBytes(t.counter, 4) + ToBytes(t.node, 4)
  }

  lemma Powers()
    ensures Pow256(4) == TWO_32 && Pow256(8) == TWO_64 && Pow256(16) == TWO_64 * TWO_64
  {
    assert Pow256(1) == 256 && Pow256(2) == 0x1_0000 && Pow256(3) == 0x100_0000;
    assert Pow256(5) == 0x100_0000_0000 && Pow256(6) == 0x1_0000_0000_0000 && Pow256(7) == 0x100_0000_0000_0000;
    assert Pow256(9) == 256 * TWO_64 && Pow256(10) == 256 * Pow256(9) && Pow256(11) == 256 * Pow256(10);
    assert Pow256(12) == TWO_32 * TWO_64 && Pow256(13) == 256 * Pow256(12) && Pow256(14) == 256 * Pow256(13);
    assert Pow256(15) == 256 * Pow256(14);
  }

  function Unpack(bs: seq<Byte>): Timestamp
    requires |bs| == 16
  {
    Powers();
    FromBytesBound(bs[0..8]);
    FromBytesBound(bs[8..12]);
    FromBytesBound(bs[12..16]);
    Timestamp(FromBytes(bs[0..8]), FromBytes(bs[8..12]), FromBytes(bs[12..16]))
  }

  function UnpackSlice(bs: seq<Byte>): Result<Timestamp, HlcError> {
    if |bs| != 16 then Err(InvalidLength(|bs|)) else Ok(Unpack(bs))
  }

  function ToU128(t: Timestamp): nat {
    FromBytes(Pack(t))
  }

  function FromU128(n: nat): Timestamp {
    Unpack(ToBytes(n, 16))
  }

  lemma UnpackUndoesPack(t: Timestamp)
    ensures Unpack(Pack(t)) == t && UnpackSlice(Pack(t)) == Ok(t)
  {
    Powers();
    FromToBytes(t.ts, 8);
    FromToBytes(t.counter, 4);
    FromToBytes(t.node, 4);
    hide ToBytes, FromBytes, Pow256;
    var bs := Pack(t);
    assert bs[0..8] == ToBytes(t.ts, 8) && bs[8..12] == ToBytes(t.counter, 4) && bs[12..16] == ToBytes(t.node, 4);
  }

  lemma PackUndoesUnpack(bs: seq<Byte>)
    ensures if |bs| == 16 then Pack(Unpack(bs)) == bs else UnpackSlice(bs) == Err(InvalidLength(|bs|))
  {
    if |bs| == 16 {
      ToFromBytes(bs[0..8]);
      ToFromBytes(bs[8..12]);
      ToFromBytes(bs[12..16]);
      hide ToBytes, FromBytes;
      assert bs == bs[0..8] + bs[8..12] + bs[12..16];
    }
  }

  /** The 128-bit value is the three fields side by side. */
  lemma U128Value(t: Timestamp)
    ensures ToU128(t) == t.ts * TWO_64 + t.counter * TWO_32 + t.node
  {
    Powers();
    var a, b, c := ToBytes(t.ts, 8), ToBytes(t.counter, 4), ToBytes(t.node, 4);
    FromToBytes(t.ts, 8);
    FromToBytes(t.counter, 4);
    FromToBytes(t.node, 4);
    FromBytesConcat(a, b);
    FromBytesConcat(a + b, c);
  }

  lemma U128RoundTrip(t: Timestamp, n: nat)
    requires n < TWO_64 * TWO_64
    ensures FromU128(ToU128(t)) == t && ToU128(FromU128(n)) == n
  {
    Powers();
    ToFromBytes(Pack(t));
    UnpackUndoesPack(t);
    PackUndoesUnpack(ToBytes(n, 16));
    FromToBytes(n, 16);
    hide ToBytes, FromBytes, Pow256, Pack, Unpack;
  }

  // ----- order -----

  /** Timestamps are compared by time, then counter, then node. */
  predicate Less(a: Timestamp, b: Timestamp) {
    || a.ts < b.ts
    || (a.ts == b.ts && a.counter < b.counter)
    || (a.ts == b.ts && a.counter == b.counter && a.node < b.node)
  }

  /** Byte strings are compared from the first byte on. */
  predicate LexLess(a: seq<Byte>, b: seq<Byte>)
    requires |a| == |b|
  {
    a != [] && (a[0] < b[0] || (a[0] == b[0] && LexLess(a[1..], b[1..])))
  }

  lemma {:induction false} LexLessIsLess(a: seq<Byte>, b: seq<Byte>)
    requires |a| == |b|
    ensures LexLess(a, b) <==> FromBytes(a) < FromBytes(b)
  {
    if a != [] {
      var a', b' := a[1..], b[1..];
      LexLessIsLess(a', b');
      assert a == [a[0]] + a' && b == [b[0]] + b';
      FromBytesConcat([a[0]], a');
      FromBytesConcat([b[0]], b');
      FromBytesBound(a');
      FromBytesBound(b');
      assert FromBytes([a[0]]) == a[0] && FromBytes([b[0]]) == b[0];
      if a[0] < b[0] { Leading(a[0], b[0], Pow256(|a'|), FromBytes(a'), FromBytes(b')); }
      if b[0] < a[0] { Leading(b[0], a[0], Pow256(|a'|), FromBytes(b'), FromBytes(a')); }
    }
  }

  lemma Leading(x: nat, y: nat, p: nat, r: nat, r': nat)
    requires x < y && r < p
    ensures x * p + r < y * p + r'
  {
    assert (x + 1) * p <= y * p;
  }

  /** The order of timestamps, of their bytes and of their 128-bit values is the same. */
  lemma OrdersAgree(a: Timestamp, b: Timestamp)
    ensures Less(a, b) <==> LexLess(Pack(a), Pack(b))
    ensures Less(a, b) <==> ToU128(a) < ToU128(b)
    ensures a == b <==> ToU128(a) == ToU128(b)
  {
    U128Value(a);
    U128Value(b);
    LexLessIsLess(Pack(a), Pack(b));
    hide LexLess, FromBytes, ToBytes;
  }

}
