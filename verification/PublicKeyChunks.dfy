/** Committee public keys in chunks: their layout, their arrival in slots and their assembly. */
module PublicKeyChunks {
  import opened Wrappers

  const CHUNK_BYTES: nat := 90 * 1024
  const MAX_BYTES: nat := 512 * 1024

  type Byte = n: nat | n < 256
  type Bytes = seq<Byte>
  type Slots = seq<Option<Bytes>>

  datatype LayoutError = Empty | TooLong

  datatype ChunkLayout = ChunkLayout(totalLength: nat, chunkCount: nat) {
    static function New(totalLength: nat): Result<ChunkLayout, LayoutError> {
      if totalLength == 0 then Err(Empty)
      else if totalLength > MAX_BYTES then Err(TooLong)
      else Ok(ChunkLayout(totalLength, (totalLength + CHUNK_BYTES - 1) / CHUNK_BYTES))
    }

    /** Where a chunk starts and ends in the key. */
    function Range(index: nat): Option<(nat, nat)> {
      if index >= chunkCount then None
      else
        var start := index * CHUNK_BYTES;
        Some((start, if start + CHUNK_BYTES < totalLength then start + CHUNK_BYTES else totalLength))
    }

    /** The announced shape of a chunk fits the layout. A range that would end before it starts has
        no length. */
    predicate Accepts(index: nat, count: nat, length: nat) {
      && count == chunkCount
      && var range := Range(index);
         range.Some? && length == if range.value.0 <= range.value.1 then range.value.1 - range.value.0 else 0
    }
  }

  ghost predicate Legal(layout: ChunkLayout) {
    ChunkLayout.New(layout.totalLength) == Ok(layout)
  }

  /** Exactly the lengths from one byte to 512 KiB have a layout, of as many chunks of 90 KiB as it takes. */
  lemma LayoutIsExact(length: nat)
    ensures ChunkLayout.New(length).Ok? <==> 1 <= length <= 524288
    ensures ChunkLayout.New(length) == Err(Empty) <==> length == 0
    ensures ChunkLayout.New(length).Ok? ==>
              var layout := ChunkLayout.New(length).value;
              layout.totalLength == length && layout.chunkCount > 0 && 92160 * (layout.chunkCount - 1) < length <= 92160 * layout.chunkCount
  {}

  /** The ranges follow each other from the start of the key to its end, none is empty, and none is
      longer than a chunk. */
  lemma RangesPartition(layout: ChunkLayout)
    requires Legal(layout)
    ensures 0 < layout.chunkCount <= 6
    ensures layout.Range(0).value.0 == 0 && layout.Range(layout.chunkCount - 1).value.1 == layout.totalLength
    ensures forall i :: 0 <= i < layout.chunkCount ==>
              layout.Range(i).value.0 < layout.Range(i).value.1 <= layout.Range(i).value.0 + CHUNK_BYTES
    ensures forall i, j :: 0 <= i && j == i + 1 < layout.chunkCount ==>
              layout.Range(i).value.1 == layout.Range(j).value.0
    ensures forall i :: i >= layout.chunkCount ==> layout.Range(i).None?
  {}

  /** The part of a key that a chunk carries. */
  function Part(layout: ChunkLayout, key: Bytes, index: nat): Bytes
    requires Legal(layout) && |key| == layout.totalLength && index < layout.chunkCount
  {
    RangesPartition(layout);
    key[layout.Range(index).value.0..layout.Range(index).value.1]
  }

  // ----- slots -----

  /** A filled slot keeps its bytes. */
  function Inserted(slots: Slots, index: nat, bytes: Bytes): Slots {
    if index < |slots| && slots[index].None? then slots[index := Some(bytes)] else slots
  }

  method InsertChunk(chunks: array<Option<Bytes>>, index: nat, bytes: Bytes) returns (accepted: bool)
    modifies chunks
    ensures chunks[..] == Inserted(old(chunks[..]), index, bytes)
    ensures accepted <==> index < chunks.Length && chunks[index] == Some(bytes)
  {
    if index >= chunks.Length { return false; }
    if chunks[index].Some? { return chunks[index].value == bytes; }
    chunks[index] := Some(bytes);
    accepted := true;
  }

  predicate Full(slots: Slots) {
    forall i :: 0 <= i < |slots| ==> slots[i].Some?
  }

  function Joined(slots: Slots): Bytes {
    if slots == [] then []
    else Joined(slots[..|slots| - 1]) + match slots[|slots| - 1] { case Some(bytes) => bytes case None => [] }
  }

  method AssembleChunks(totalLength: nat, chunks: Slots) returns (key: Option<Bytes>)
    ensures key == if Full(chunks) && |Joined(chunks)| == totalLength then Some(Joined(chunks)) else None
  {
    var bytes := [];
    for i := 0 to |chunks|
      invariant Full(chunks[..i]) && bytes == Joined(chunks[..i])
    {
      assert chunks[..i + 1][..i] == chunks[..i];
      if chunks[i].None? { return None; }
      bytes := bytes + chunks[i].value;
    }
    assert chunks[..|chunks|] == chunks;
    key := if |bytes| == totalLength then Some(bytes) else None;
  }

  // ----- arrivals in any order -----

  datatype Arrival = Arrival(index: nat, bytes: Bytes)

  function InsertAll(slots: Slots, arrivals: seq<Arrival>): (r: Slots)
    ensures |r| == |slots|
  {
    if arrivals == [] then slots
    else
      var a := arrivals[|arrivals| - 1];
      Inserted(InsertAll(slots, arrivals[..|arrivals| - 1]), a.index, a.bytes)
  }

  function NoChunks(count: nat): Slots {
    seq(count, _ => None)
  }

  /** The bytes that arrived first for an index. */
  function First(arrivals: seq<Arrival>, index: nat): Option<Bytes> {
    if arrivals == [] then None
    else
      var before, a := First(arrivals[..|arrivals| - 1], index), arrivals[|arrivals| - 1];
      if before.Some? then before else if a.index == index then Some(a.bytes) else None
  }

  lemma {:induction false} FirstIsFirst(arrivals: seq<Arrival>, index: nat)
    ensures First(arrivals, index).None? <==> forall i :: 0 <= i < |arrivals| ==> arrivals[i].index != index
    ensures First(arrivals, index).Some? ==>
              exists i :: 0 <= i < |arrivals| && arrivals[i] == Arrival(index, First(arrivals, index).value)
                          && forall j :: 0 <= j < i ==> arrivals[j].index != index
  {
    if arrivals != [] {
      var init, a := arrivals[..|arrivals| - 1], arrivals[|arrivals| - 1];
      FirstIsFirst(init, index);
      if First(init, index).Some? {
        var i :| 0 <= i < |init| && init[i] == Arrival(index, First(init, index).value)
                 && forall j :: 0 <= j < i ==> init[j].index != index;
        assert arrivals[i] == init[i];
      } else if a.index == index {
        assert arrivals[|arrivals| - 1] == Arrival(index, a.bytes);
      }
    }
  }

  /** Every slot holds what arrived first for it, whatever arrives later. */
  lemma {:induction false} FirstArrivalIsKept(count: nat, arrivals: seq<Arrival>, index: nat)
    requires index < count
    ensures InsertAll(NoChunks(count), arrivals)[index] == First(arrivals, index)
  {
    if arrivals != [] { FirstArrivalIsKept(count, arrivals[..|arrivals| - 1], index); }
  }

  ghost predicate Arrived(arrivals: seq<Arrival>, index: nat) {
    exists i :: 0 <= i < |arrivals| && arrivals[i].index == index
  }

  /** The slots hold, for every chunk, its part of the key or nothing. */
  ghost predicate Honest(layout: ChunkLayout, key: Bytes, slots: Slots)
    requires Legal(layout) && |key| == layout.totalLength
  {
    && |slots| == layout.chunkCount
    && forall i :: 0 <= i < |slots| && slots[i].Some? ==> slots[i].value == Part(layout, key, i)
  }

  lemma {:induction false} JoinedParts(layout: ChunkLayout, key: Bytes, slots: Slots, n: nat)
    requires Legal(layout) && |key| == layout.totalLength && Honest(layout, key, slots) && Full(slots) && 0 < n <= |slots|
    ensures layout.Range(n - 1).Some? && layout.Range(n - 1).value.1 <= |key|
    ensures Joined(slots[..n]) == key[..layout.Range(n - 1).value.1]
  {
    RangesPartition(layout);
    assert slots[..n][..n - 1] == slots[..n - 1];
    assert slots[n - 1].value == Part(layout, key, n - 1);
    if n == 1 {
      assert Joined(slots[..0]) == [];
    } else {
      JoinedParts(layout, key, slots, n - 1);
      var a, b := layout.Range(n - 1).value.0, layout.Range(n - 1).value.1;
      assert layout.Range(n - 2).value.1 == a;
      assert key[..a] + key[a..b] == key[..b];
    }
  }

  /** Chunks of accepted shape always assemble once each index arrived: the lengths add up. */
  lemma {:induction false} AcceptedLengthsAddUp(layout: ChunkLayout, slots: Slots, n: nat)
    requires Legal(layout) && |slots| == layout.chunkCount && 0 < n <= |slots|
    requires forall i :: 0 <= i < |slots| ==>
               slots[i].Some? && layout.Accepts(i, layout.chunkCount, |slots[i].value|)
    ensures layout.Range(n - 1).Some? && |Joined(slots[..n])| == layout.Range(n - 1).value.1
  {
    RangesPartition(layout);
    assert slots[..n][..n - 1] == slots[..n - 1];
    assert layout.Accepts(n - 1, layout.chunkCount, |slots[n - 1].value|);
    if n == 1 {
      assert Joined(slots[..0]) == [];
    } else {
      AcceptedLengthsAddUp(layout, slots, n - 1);
      assert layout.Range(n - 2).value.1 == layout.Range(n - 1).value.0;
    }
  }

  /** With arrivals of accepted shape, whatever their bytes, assembly succeeds if and only if every
      index arrived. */
  lemma AcceptedChunksAssemble(layout: ChunkLayout, arrivals: seq<Arrival>)
    requires Legal(layout)
    requires forall k :: 0 <= k < |arrivals| ==> layout.Accepts(arrivals[k].index, layout.chunkCount, |arrivals[k].bytes|)
    ensures var slots := InsertAll(NoChunks(layout.chunkCount), arrivals);
            (Full(slots) && |Joined(slots)| == layout.totalLength) <==>
            forall i :: 0 <= i < layout.chunkCount ==> Arrived(arrivals, i)
  {
    var slots := InsertAll(NoChunks(layout.chunkCount), arrivals);
    RangesPartition(layout);
    forall i | 0 <= i < layout.chunkCount
      ensures slots[i].Some? <==> Arrived(arrivals, i)
      ensures slots[i].Some? ==> layout.Accepts(i, layout.chunkCount, |slots[i].value|)
    {
      FirstArrivalIsKept(layout.chunkCount, arrivals, i);
      FirstIsFirst(arrivals, i);
    }
    if Full(slots) {
      AcceptedLengthsAddUp(layout, slots, |slots|);
      assert slots[..|slots|] == slots;
    }
  }

  /** Chunks of accepted shape keep their place in the assembled key. */
  lemma {:induction false} JoinedAt(layout: ChunkLayout, slots: Slots, n: nat, i: nat)
    requires Legal(layout) && |slots| == layout.chunkCount && i < n <= |slots|
    requires forall i :: 0 <= i < |slots| ==> slots[i].Some? && layout.Accepts(i, layout.chunkCount, |slots[i].value|)
    ensures layout.Range(i).Some? && layout.Range(i).value.0 <= layout.Range(i).value.1 <= |Joined(slots[..n])|
    ensures Joined(slots[..n])[layout.Range(i).value.0..layout.Range(i).value.1] == slots[i].value
  {
    hide Legal, ChunkLayout.New;
    RangesPartition(layout);
    assert slots[..n][..n - 1] == slots[..n - 1];
    assert layout.Accepts(i, layout.chunkCount, |slots[i].value|);
    if i < n - 1 {
      JoinedAt(layout, slots, n - 1, i);
    } else if n > 1 {
      AcceptedLengthsAddUp(layout, slots, n - 1);
    }
    Slices(Joined(slots[..n - 1]), slots[n - 1].value, layout.Range(i).value.0, layout.Range(i).value.1);
  }

  lemma Slices(x: Bytes, y: Bytes, a: nat, b: nat)
    ensures a <= b <= |x| ==> (x + y)[a..b] == x[a..b]
    ensures a == |x| && b == |x| + |y| ==> (x + y)[a..b] == y
  {}

  /** Chunks of accepted shape may arrive in any order, repeat and conflict: assembly gives the key if
      and only if the first arrival for each index is its part of the key. */
  lemma AssemblyIsExact(layout: ChunkLayout, key: Bytes, arrivals: seq<Arrival>)
    requires Legal(layout) && |key| == layout.totalLength
    requires forall k :: 0 <= k < |arrivals| ==> layout.Accepts(arrivals[k].index, layout.chunkCount, |arrivals[k].bytes|)
    ensures var slots := InsertAll(NoChunks(layout.chunkCount), arrivals);
            (Full(slots) && Joined(slots) == key) <==>
            forall i :: 0 <= i < layout.chunkCount ==> First(arrivals, i) == Some(Part(layout, key, i))
  {
    var slots := InsertAll(NoChunks(layout.chunkCount), arrivals);
    RangesPartition(layout);
    forall i | 0 <= i < layout.chunkCount
      ensures slots[i] == First(arrivals, i) && (slots[i].Some? ==> layout.Accepts(i, layout.chunkCount, |slots[i].value|))
    {
      FirstArrivalIsKept(layout.chunkCount, arrivals, i);
      FirstIsFirst(arrivals, i);
    }
    assert slots[..|slots|] == slots && key[..|key|] == key;
    if Full(slots) && Joined(slots) == key {
      forall i | 0 <= i < layout.chunkCount ensures First(arrivals, i) == Some(Part(layout, key, i)) {
        JoinedAt(layout, slots, |slots|, i);
      }
    }
    if forall i :: 0 <= i < layout.chunkCount ==> First(arrivals, i) == Some(Part(layout, key, i)) {
      JoinedParts(layout, key, slots, |slots|);
    }
  }
}
