/** The trie refines a finite map, and exactly when an insertion reaches the `unreachable!()` arm. */
module HamtRefinement {
  import opened Wrappers
  import opened HamtBits
  import opened Hamt

  // ----- hashes below a node -----

  lemma {:induction false} ChildHashes<K, V>(nodes: seq<Node<K, V>>, i: nat)
    requires i < |nodes|
    ensures Hashes(nodes[i]) <= HashesOf(nodes)
  {
    if i > 0 {
      ChildHashes(nodes[1..], i - 1);
      assert nodes[1..][i - 1] == nodes[i];
    }
  }

  lemma {:induction false} HashOwner<K, V>(nodes: seq<Node<K, V>>, g: bv64) returns (i: nat)
    requires g in HashesOf(nodes)
    ensures i < |nodes| && g in Hashes(nodes[i])
  {
    if g in Hashes(nodes[0]) {
      i := 0;
    } else {
      i := HashOwner(nodes[1..], g);
      i := i + 1;
    }
  }

  /** Descending into the child of a hash's chunk keeps the agreement one level further. */
  lemma NearChild<K(!new), V>(hashOf: K -> bv64, node: Node<K, V>, hash: bv64, shift: bv7)
    requires shift <= LAST_SHIFT && node.Internal? && WellFormed(hashOf, node, shift) && Near(node, hash, shift)
    requires Has(node.bitmap, Chunk(hash, shift))
    ensures var i := Rank(node.bitmap, Chunk(hash, shift));
            i < |node.children| && Near(node.children[i], hash, shift + BITS_PER_LEVEL)
  {
    hide Has, Rank, CountOnes, Chunk;
    var i := Rank(node.bitmap, Chunk(hash, shift));
    ChildHashes(node.children, i);
    forall g | g in Hashes(node.children[i]) ensures Agree(g, hash, shift + BITS_PER_LEVEL) {
      AgreeNext(g, hash, shift);
    }
  }

  // ----- one changed slot of a branch -----

  lemma SetChild<K(!new), V>(hashOf: K -> bv64, b: bv32, cs: seq<Node<K, V>>, shift: bv7, c: bv6, child: Node<K, V>)
    requires shift <= LAST_SHIFT && c < 32 && Has(b, c)
    requires WellFormed(hashOf, Internal(b, cs), shift)
    requires WellFormed(hashOf, child, shift + BITS_PER_LEVEL) && InSlot(child, shift, c)
    ensures Rank(b, c) < |cs|
    ensures WellFormed(hashOf, Internal(b, cs[Rank(b, c) := child]), shift)
    ensures HashesOf(cs[Rank(b, c) := child]) <= HashesOf(cs) + Hashes(child)
  {
    hide Has, CountOnes, Chunk, Rank, Hashes, HashesOf;
    var i := Rank(b, c);
    var cs' := cs[i := child];
    forall d: bv6 | d < 32 && Has(b, d) && d != c
      ensures Rank(b, d) < |cs'| && cs'[Rank(b, d)] == cs[Rank(b, d)]
    {
      if d < c { RankOrder(b, d, c); } else { RankOrder(b, c, d); }
    }
    forall g | g in HashesOf(cs') ensures g in HashesOf(cs) + Hashes(child) {
      var j := HashOwner(cs', g);
      if j != i { ChildHashes(cs, j); }
    }
  }

  lemma InsertedHashes<K, V>(cs: seq<Node<K, V>>, i: nat, child: Node<K, V>)
    requires i <= |cs|
    ensures HashesOf(cs[..i] + [child] + cs[i..]) <= HashesOf(cs) + Hashes(child)
  {
    hide Hashes, HashesOf;
    var cs' := cs[..i] + [child] + cs[i..];
    forall g | g in HashesOf(cs') ensures g in HashesOf(cs) + Hashes(child) {
      var j := HashOwner(cs', g);
      if j < i {
        assert cs'[j] == cs[j];
        ChildHashes(cs, j);
      } else if i < j {
        assert cs'[j] == cs[j - 1];
        ChildHashes(cs, j - 1);
      }
    }
  }

  lemma RemovedHashes<K, V>(cs: seq<Node<K, V>>, i: nat)
    requires i < |cs|
    ensures HashesOf(cs[..i] + cs[i + 1..]) <= HashesOf(cs)
  {
    hide Hashes, HashesOf;
    var cs' := cs[..i] + cs[i + 1..];
    forall g | g in HashesOf(cs') ensures g in HashesOf(cs) {
      var j := HashOwner(cs', g);
      if j < i {
        assert cs'[j] == cs[j];
        ChildHashes(cs, j);
      } else {
        assert cs'[j] == cs[j + 1];
        ChildHashes(cs, j + 1);
      }
    }
  }

  lemma AddChild<K(!new), V>(hashOf: K -> bv64, b: bv32, b': bv32, cs: seq<Node<K, V>>, shift: bv7, c: bv6, child: Node<K, V>)
    requires shift <= LAST_SHIFT && c < 32 && !Has(b, c)
    requires forall i: bv6 :: i < 32 ==> Has(b', i) == (i == c || Has(b, i))
    requires WellFormed(hashOf, Internal(b, cs), shift)
    requires WellFormed(hashOf, child, shift + BITS_PER_LEVEL) && InSlot(child, shift, c)
    ensures Rank(b, c) <= |cs|
    ensures var cs' := cs[..Rank(b, c)] + [child] + cs[Rank(b, c)..];
            WellFormed(hashOf, Internal(b', cs'), shift) && HashesOf(cs') <= HashesOf(cs) + Hashes(child)
  {
    hide Has, Chunk, Rank, ChildIndex, Hashes, HashesOf;
    RankMonotone(b, c, 32);
    AddedRank(b, b', c, 32);
    var i := Rank(b, c);
    var cs' := cs[..i] + [child] + cs[i..];
    forall d: bv6 | d < 32 && Has(b', d)
      ensures Rank(b', d) < |cs'|
      ensures WellFormed(hashOf, cs'[Rank(b', d)], shift + BITS_PER_LEVEL)
      ensures InSlot(cs'[Rank(b', d)], shift, d)
    {
      hide InSlot, WellFormed;
      AddedSlot(b, b', c, d);
      if d == c {
        assert cs'[i] == child;
      } else {
        assert cs'[Rank(b', d)] == cs[Rank(b, d)];
      }
    }
    InsertedHashes(cs, i, child);
  }

  lemma DropChild<K(!new), V>(hashOf: K -> bv64, b: bv32, b': bv32, cs: seq<Node<K, V>>, shift: bv7, c: bv6)
    requires shift <= LAST_SHIFT && c < 32 && Has(b, c)
    requires forall i: bv6 :: i < 32 ==> Has(b', i) == (i != c && Has(b, i))
    requires WellFormed(hashOf, Internal(b, cs), shift)
    ensures Rank(b, c) < |cs|
    ensures var cs' := cs[..Rank(b, c)] + cs[Rank(b, c) + 1..];
            WellFormed(hashOf, Internal(b', cs'), shift) && HashesOf(cs') <= HashesOf(cs)
  {
    hide Has, Chunk, Rank, ChildIndex, Hashes, HashesOf;
    AddedRank(b', b, c, 32);
    AddedSlot(b', b, c, c);
    var i := Rank(b, c);
    var cs' := cs[..i] + cs[i + 1..];
    forall d: bv6 | d < 32 && Has(b', d)
      ensures Rank(b', d) < |cs'|
      ensures WellFormed(hashOf, cs'[Rank(b', d)], shift + BITS_PER_LEVEL)
      ensures InSlot(cs'[Rank(b', d)], shift, d)
    {
      AddedSlot(b', b, c, d);
      assert cs'[Rank(b', d)] == cs[Rank(b, d)];
    }
    RemovedHashes(cs, i);
  }

  lemma SetChildGet<K, V>(b: bv32, cs: seq<Node<K, V>>, shift: bv7, c: bv6, child: Node<K, V>, h: bv64, k: K)
    requires shift <= LAST_SHIFT && c < 32 && Has(b, c) && Rank(b, c) < |cs|
    requires Shaped(Internal(b, cs), shift) && Shaped(child, shift + BITS_PER_LEVEL)
    requires Shaped(Internal(b, cs[Rank(b, c) := child]), shift)
    ensures GetRec(Internal(b, cs[Rank(b, c) := child]), h, k, shift) ==
            if Chunk(h, shift) == c then GetRec(child, h, k, shift + BITS_PER_LEVEL)
            else GetRec(Internal(b, cs), h, k, shift)
  {
    hide Has, Chunk, Rank, ChildIndex;
    var d := Chunk(h, shift);
    if Has(b, d) && d != c {
      if d < c { RankOrder(b, d, c); } else { RankOrder(b, c, d); }
    }
  }

  lemma AddChildGet<K, V>(b: bv32, b': bv32, cs: seq<Node<K, V>>, shift: bv7, c: bv6, child: Node<K, V>, h: bv64, k: K)
    requires shift <= LAST_SHIFT && c < 32 && !Has(b, c) && Rank(b, c) <= |cs|
    requires forall i: bv6 :: i < 32 ==> Has(b', i) == (i == c || Has(b, i))
    requires Shaped(Internal(b, cs), shift) && Shaped(child, shift + BITS_PER_LEVEL)
    requires Shaped(Internal(b', cs[..Rank(b, c)] + [child] + cs[Rank(b, c)..]), shift)
    ensures GetRec(Internal(b', cs[..Rank(b, c)] + [child] + cs[Rank(b, c)..]), h, k, shift) ==
            if Chunk(h, shift) == c then GetRec(child, h, k, shift + BITS_PER_LEVEL)
            else GetRec(Internal(b, cs), h, k, shift)
  {
    hide Has, Chunk, Rank, ChildIndex;
    AddedSlot(b, b', c, Chunk(h, shift));
  }

  lemma DropChildGet<K, V>(b: bv32, b': bv32, cs: seq<Node<K, V>>, shift: bv7, c: bv6, h: bv64, k: K)
    requires shift <= LAST_SHIFT && c < 32 && Has(b, c) && Rank(b, c) < |cs|
    requires forall i: bv6 :: i < 32 ==> Has(b', i) == (i != c && Has(b, i))
    requires Shaped(Internal(b, cs), shift)
    requires Shaped(Internal(b', cs[..Rank(b, c)] + cs[Rank(b, c) + 1..]), shift)
    ensures GetRec(Internal(b', cs[..Rank(b, c)] + cs[Rank(b, c) + 1..]), h, k, shift) ==
            if Chunk(h, shift) == c then None else GetRec(Internal(b, cs), h, k, shift)
  {
    hide Has, Chunk, Rank, ChildIndex;
    AddedSlot(b', b, c, c);
    AddedSlot(b', b, c, Chunk(h, shift));
  }

  // ----- insertion -----

  lemma EmptyBranch<K(!new), V>(hashOf: K -> bv64, h: bv64, shift: bv7)
    requires shift <= LAST_SHIFT
    ensures WellFormed<K, V>(hashOf, Internal(0, []), shift) && Near<K, V>(Internal(0, []), h, shift)
    ensures forall c: bv6 :: c < 32 ==> !Has(0, c)
    ensures Rank(0, 32) == 0
  {
    ZeroRank(32);
  }

  /** What an insertion below `node` promises: it meets the `unreachable!()` arm, or it returns a
      well-formed node that holds no new hash but its own. */
  ghost predicate SoundInsertion<K(!new), V>(hashOf: K -> bv64, node: Node<K, V>, hash: bv64, r: Result<Node<K, V>, Cause>, shift: bv7)
    requires shift <= LAST_SHIFT + BITS_PER_LEVEL
  {
    match r
    case Err(cause) => cause == UnreachableArm
    case Ok(node') => !node'.Empty? && WellFormed(hashOf, node', shift) && Hashes(node') <= Hashes(node) + {hash}
  }

  lemma CollisionSound<K(!new), V>(hashOf: K -> bv64, node: Node<K, V>, key: K, value: V, shift: bv7)
    requires shift <= LAST_SHIFT + BITS_PER_LEVEL && WellFormed(hashOf, node, shift) && node.Collision?
    ensures SoundInsertion(hashOf, node, hashOf(key), InsertRec(node, hashOf(key), key, value, shift), shift)
  {}

  lemma FreshSound<K(!new), V>(hashOf: K -> bv64, node: Node<K, V>, key: K, value: V, shift: bv7)
    requires shift <= LAST_SHIFT && WellFormed(hashOf, node, shift) && node.Internal?
    requires !Has(node.bitmap, Chunk(hashOf(key), shift))
    ensures SoundInsertion(hashOf, node, hashOf(key), InsertRec(node, hashOf(key), key, value, shift), shift)
  {
    hide Has, Chunk, Rank, CountOnes, ChildIndex, SetBit, ClearBit;
    var c := Chunk(hashOf(key), shift);
    BitChanged(node.bitmap, c);
    AddChild(hashOf, node.bitmap, SetBit(node.bitmap, c), node.children, shift, c, Leaf(hashOf(key), key, value));
  }

  lemma DeepSound<K(!new), V>(hashOf: K -> bv64, node: Node<K, V>, key: K, value: V, shift: bv7)
    requires shift <= LAST_SHIFT && WellFormed(hashOf, node, shift) && node.Internal?
    requires Has(node.bitmap, Chunk(hashOf(key), shift))
    requires var child := node.children[Rank(node.bitmap, Chunk(hashOf(key), shift))];
             SoundInsertion(hashOf, child, hashOf(key), InsertRec(child, hashOf(key), key, value, shift + BITS_PER_LEVEL), shift + BITS_PER_LEVEL)
    ensures SoundInsertion(hashOf, node, hashOf(key), InsertRec(node, hashOf(key), key, value, shift), shift)
  {
    hide Has, Chunk, Rank, CountOnes, ChildIndex, SetBit, ClearBit;
    var c := Chunk(hashOf(key), shift);
    var i := Rank(node.bitmap, c);
    var r := InsertRec(node.children[i], hashOf(key), key, value, shift + BITS_PER_LEVEL);
    if r.Ok? {
      SetChild(hashOf, node.bitmap, node.children, shift, c, r.value);
      ChildHashes(node.children, i);
    }
  }

  lemma NextAligned(shift: bv7)
    requires Aligned(shift)
    ensures shift <= LAST_SHIFT + BITS_PER_LEVEL
    ensures shift <= LAST_SHIFT ==> Aligned(shift + BITS_PER_LEVEL)
    ensures shift <= LAST_SHIFT ==> LAST_SHIFT + BITS_PER_LEVEL - (shift + BITS_PER_LEVEL) < LAST_SHIFT + BITS_PER_LEVEL - shift
  {}

  lemma LeafSound<K(!new), V>(hashOf: K -> bv64, node: Node<K, V>, key: K, value: V, shift: bv7)
    requires shift <= LAST_SHIFT + BITS_PER_LEVEL && WellFormed(hashOf, node, shift)
    requires node.Empty? || (node.Leaf? && node.hash == hashOf(key))
    ensures SoundInsertion(hashOf, node, hashOf(key), InsertRec(node, hashOf(key), key, value, shift), shift)
  {}

  /** The branch that a split makes of the old leaf is ready for the new key. */
  lemma BranchReady<K(!new), V>(hashOf: K -> bv64, node: Node<K, V>, branch: Node<K, V>, hash: bv64, shift: bv7)
    requires shift <= LAST_SHIFT && node.Leaf? && Near(node, hash, shift)
    requires SoundInsertion(hashOf, Internal(0, []), node.hash, Ok(branch), shift)
    ensures WellFormed(hashOf, branch, shift) && Near(branch, hash, shift) && Hashes(branch) <= Hashes(node)
  {}

  lemma SplitSound<K(!new), V>(hashOf: K -> bv64, node: Node<K, V>, branch: Result<Node<K, V>, Cause>, key: K, value: V, shift: bv7)
    requires shift <= LAST_SHIFT && node.Leaf? && node.hash != hashOf(key)
    requires branch == InsertRec(Internal(0, []), node.hash, node.key, node.value, shift)
    requires SoundInsertion(hashOf, Internal(0, []), node.hash, branch, shift)
    requires branch.Ok? ==>
               SoundInsertion(hashOf, branch.value, hashOf(key), InsertRec(branch.value, hashOf(key), key, value, shift), shift)
    ensures SoundInsertion(hashOf, node, hashOf(key), InsertRec(node, hashOf(key), key, value, shift), shift)
  {
    hide Has, Chunk, Rank, CountOnes, ChildIndex, SetBit, WellFormed;
  }

  /** Two leaves that must be separated differ in some chunk that is still to come. */
  lemma SplitShift<K, V>(node: Node<K, V>, hash: bv64, shift: bv7)
    requires Aligned(shift) && node.Leaf? && node.hash != hash && Near(node, hash, shift)
    ensures shift <= LAST_SHIFT
  {
    hide Chunk;
    if shift > LAST_SHIFT { AgreeEverywhere(node.hash, hash); }
  }

  /** On a well-formed trie no shift of 64 or more and no child index out of range occurs. */
  lemma {:induction false} InsertSound<K(!new), V>(hashOf: K -> bv64, node: Node<K, V>, key: K, value: V, shift: bv7)
    requires Aligned(shift) && WellFormed(hashOf, node, shift) && Near(node, hashOf(key), shift)
    ensures SoundInsertion(hashOf, node, hashOf(key), InsertRec(node, hashOf(key), key, value, shift), shift)
    decreases LAST_SHIFT + BITS_PER_LEVEL - shift, node.Leaf?
  {
    hide Has, Chunk, Rank, CountOnes, ChildIndex, SetBit, ClearBit, Aligned, SoundInsertion, Near, Agree;
    NextAligned(shift);
    var hash := hashOf(key);
    match node
    case Empty =>
      LeafSound(hashOf, node, key, value, shift);
    case Collision(_, _) =>
      CollisionSound(hashOf, node, key, value, shift);
    case Leaf(h, k, v) =>
      if h == hash {
        LeafSound(hashOf, node, key, value, shift);
      } else {
        SplitShift(node, hash, shift);
        EmptyBranch<K, V>(hashOf, h, shift);
        InsertSound(hashOf, Internal(0, []), k, v, shift);
        var branch := InsertRec(Internal(0, []), h, k, v, shift);
        if branch.Ok? {
          BranchReady(hashOf, node, branch.value, hash, shift);
          InsertSound(hashOf, branch.value, key, value, shift);
        }
        SplitSound(hashOf, node, branch, key, value, shift);
      }
    case Internal(b, cs) =>
      if Has(b, Chunk(hash, shift)) {
        NearChild(hashOf, node, hash, shift);
        InsertSound(hashOf, cs[Rank(b, Chunk(hash, shift))], key, value, shift + BITS_PER_LEVEL);
        DeepSound(hashOf, node, key, value, shift);
      } else {
        FreshSound(hashOf, node, key, value, shift);
      }
  }

  /** The lookups of `node'` are those of `node` with `key` set to `bound`. */
  ghost predicate Rebinds<K, V>(hashOf: K -> bv64, node: Node<K, V>, node': Node<K, V>, key: K, bound: Option<V>, shift: bv7, q: K)
    requires shift <= LAST_SHIFT + BITS_PER_LEVEL
  {
    && Shaped(node, shift) && Shaped(node', shift)
    && GetRec(node', hashOf(q), q, shift) == if q == key then bound else GetRec(node, hashOf(q), q, shift)
  }

  lemma BucketGet<K(!new), V>(hashOf: K -> bv64, node: Node<K, V>, key: K, value: V, shift: bv7, q: K)
    requires shift <= LAST_SHIFT + BITS_PER_LEVEL && WellFormed(hashOf, node, shift) && !node.Internal?
    requires node.Leaf? ==> node.hash == hashOf(key)
    ensures var r := InsertRec(node, hashOf(key), key, value, shift);
            r.Ok? ==> Rebinds(hashOf, node, r.value, key, Some(value), shift, q)
  {
    match node
    case Empty =>
    case Leaf(_, k, v) =>
      if k != key {
        var es := [(k, v), (key, value)];
        AssocAt(es, q, if q == k then 0 else 1);
      }
    case Collision(h, es) =>
      if h == hashOf(key) {
        match Position(es, key)
        case Some(i) =>
          AssocSame(es, es[i := (key, value)], i, key, q);
        case None =>
          AssocSame(es, es + [(key, value)], |es|, key, q);
      }
  }

  /** In a list of distinct keys, a lookup finds the entry of the key wherever it is. */
  lemma AssocAt<K, V>(es: seq<(K, V)>, q: K, i: nat)
    requires Distinct(es) && i < |es|
    ensures es[i].0 == q ==> Position(es, q) == Some(i)
  {}

  lemma AssocSame<K, V>(es: seq<(K, V)>, es': seq<(K, V)>, i: nat, key: K, q: K)
    requires Distinct(es) && Distinct(es') && i < |es'| && es'[i].0 == key && i <= |es| <= |es'| <= |es| + 1
    requires forall j :: 0 <= j < |es'| && j != i ==> j < |es| && es'[j] == es[j]
    requires i < |es| ==> es[i].0 == key
    ensures q == key ==> Position(es', q) == Some(i)
    ensures q != key ==> Position(es', q).Some? == Position(es, q).Some?
    ensures q != key && Position(es', q).Some? ==> es'[Position(es', q).value] == es[Position(es, q).value]
  {
    AssocAt(es', q, i);
    if q != key {
      match Position(es, q)
      case Some(j) => AssocAt(es', q, j);
      case None =>
    }
  }

  lemma FreshGet<K(!new), V>(hashOf: K -> bv64, node: Node<K, V>, key: K, value: V, shift: bv7, q: K)
    requires shift <= LAST_SHIFT && WellFormed(hashOf, node, shift) && node.Internal?
    requires !Has(node.bitmap, Chunk(hashOf(key), shift))
    ensures var r := InsertRec(node, hashOf(key), key, value, shift);
            r.Ok? ==> Rebinds(hashOf, node, r.value, key, Some(value), shift, q)
  {
    hide Has, Chunk, Rank, CountOnes, ChildIndex, SetBit, ClearBit;
    var c := Chunk(hashOf(key), shift);
    var leaf := Leaf(hashOf(key), key, value);
    BitChanged(node.bitmap, c);
    AddChild(hashOf, node.bitmap, SetBit(node.bitmap, c), node.children, shift, c, leaf);
    WellFormedIsShaped(hashOf, node, shift);
    var i := Rank(node.bitmap, c);
    WellFormedIsShaped(hashOf, Internal(SetBit(node.bitmap, c), node.children[..i] + [leaf] + node.children[i..]), shift);
    AddChildGet(node.bitmap, SetBit(node.bitmap, c), node.children, shift, c, leaf, hashOf(q), q);
  }

  lemma DeepGet<K(!new), V>(hashOf: K -> bv64, node: Node<K, V>, c: bv6, child: Node<K, V>, key: K, bound: Option<V>, shift: bv7, q: K)
    requires shift <= LAST_SHIFT && WellFormed(hashOf, node, shift) && node.Internal?
    requires c == Chunk(hashOf(key), shift) && Has(node.bitmap, c) && Rank(node.bitmap, c) < |node.children|
    requires WellFormed(hashOf, child, shift + BITS_PER_LEVEL) && InSlot(child, shift, c)
    requires Rebinds(hashOf, node.children[Rank(node.bitmap, c)], child, key, bound, shift + BITS_PER_LEVEL, q)
    ensures Rebinds(hashOf, node, Internal(node.bitmap, node.children[Rank(node.bitmap, c) := child]), key, bound, shift, q)
  {
    hide Has, Chunk, Rank, CountOnes, ChildIndex;
    var i := Rank(node.bitmap, c);
    SetChild(hashOf, node.bitmap, node.children, shift, c, child);
    WellFormedIsShaped(hashOf, node, shift);
    WellFormedIsShaped(hashOf, Internal(node.bitmap, node.children[i := child]), shift);
    SetChildGet(node.bitmap, node.children, shift, c, child, hashOf(q), q);
  }

  lemma EmptyBranchGet<K, V>(h: bv64, q: K, shift: bv7)
    requires shift <= LAST_SHIFT
    ensures Shaped<K, V>(Internal(0, []), shift) && GetRec<K, V>(Internal(0, []), h, q, shift) == None
  {
    ZeroRank(32);
  }

  /** After a successful insertion the key is bound to the value and every other lookup is unchanged. */
  lemma {:induction false} InsertGet<K(!new), V>(hashOf: K -> bv64, node: Node<K, V>, key: K, value: V, shift: bv7, q: K)
    requires Aligned(shift) && WellFormed(hashOf, node, shift) && Near(node, hashOf(key), shift)
    ensures var r := InsertRec(node, hashOf(key), key, value, shift);
            r.Ok? ==> Rebinds(hashOf, node, r.value, key, Some(value), shift, q)
    decreases LAST_SHIFT + BITS_PER_LEVEL - shift, node.Leaf?
  {
    hide Has, Chunk, Rank, CountOnes, ChildIndex, SetBit, ClearBit, Aligned, SoundInsertion, Near, Agree, Rebinds;
    NextAligned(shift);
    var hash := hashOf(key);
    match node
    case Empty =>
      BucketGet(hashOf, node, key, value, shift, q);
    case Collision(_, _) =>
      BucketGet(hashOf, node, key, value, shift, q);
    case Leaf(h, k, v) =>
      if h == hash {
        BucketGet(hashOf, node, key, value, shift, q);
      } else {
        SplitShift(node, hash, shift);
        EmptyBranch<K, V>(hashOf, h, shift);
        InsertSound(hashOf, Internal(0, []), k, v, shift);
        InsertGet(hashOf, Internal(0, []), k, v, shift, q);
        var branch := InsertRec(Internal(0, []), h, k, v, shift);
        if branch.Ok? {
          BranchReady(hashOf, node, branch.value, hash, shift);
          InsertGet(hashOf, branch.value, key, value, shift, q);
          SplitGet(hashOf, node, branch.value, key, value, shift, q);
        }
      }
    case Internal(b, cs) =>
      var c := Chunk(hash, shift);
      if Has(b, c) {
        NearChild(hashOf, node, hash, shift);
        var child := cs[Rank(b, c)];
        InsertSound(hashOf, child, key, value, shift + BITS_PER_LEVEL);
        InsertGet(hashOf, child, key, value, shift + BITS_PER_LEVEL, q);
        DeepInsertGet(hashOf, node, key, value, shift, q);
      } else {
        FreshGet(hashOf, node, key, value, shift, q);
      }
  }

  lemma SplitGet<K(!new), V>(hashOf: K -> bv64, node: Node<K, V>, branch: Node<K, V>, key: K, value: V, shift: bv7, q: K)
    requires shift <= LAST_SHIFT && node.Leaf? && node.hash == hashOf(node.key) && node.hash != hashOf(key)
    requires Ok(branch) == InsertRec(Internal(0, []), node.hash, node.key, node.value, shift)
    requires Rebinds(hashOf, Internal(0, []), branch, node.key, Some(node.value), shift, q)
    requires var r := InsertRec(branch, hashOf(key), key, value, shift);
             r.Ok? ==> Rebinds(hashOf, branch, r.value, key, Some(value), shift, q)
    ensures var r := InsertRec(node, hashOf(key), key, value, shift);
            r.Ok? ==> Rebinds(hashOf, node, r.value, key, Some(value), shift, q)
  {
    hide Has, Chunk, Rank, CountOnes, ChildIndex, SetBit;
    EmptyBranchGet<K, V>(hashOf(q), q, shift);
  }

  lemma DeepInsertGet<K(!new), V>(hashOf: K -> bv64, node: Node<K, V>, key: K, value: V, shift: bv7, q: K)
    requires shift <= LAST_SHIFT && WellFormed(hashOf, node, shift) && node.Internal?
    requires Has(node.bitmap, Chunk(hashOf(key), shift))
    requires var child := node.children[Rank(node.bitmap, Chunk(hashOf(key), shift))];
             var r := InsertRec(child, hashOf(key), key, value, shift + BITS_PER_LEVEL);
             && SoundInsertion(hashOf, child, hashOf(key), r, shift + BITS_PER_LEVEL)
             && (r.Ok? ==> Rebinds(hashOf, child, r.value, key, Some(value), shift + BITS_PER_LEVEL, q))
    ensures var r := InsertRec(node, hashOf(key), key, value, shift);
            r.Ok? ==> Rebinds(hashOf, node, r.value, key, Some(value), shift, q)
  {
    hide Has, Chunk, Rank, CountOnes, ChildIndex, SetBit, Rebinds, SoundInsertion;
    var c := Chunk(hashOf(key), shift);
    var r := InsertRec(node.children[Rank(node.bitmap, c)], hashOf(key), key, value, shift + BITS_PER_LEVEL);
    if r.Ok? {
      NewChildReady(hashOf, node, r.value, hashOf(key), shift);
      DeepGet(hashOf, node, c, r.value, key, Some(value), shift, q);
    }
  }

  lemma NewChildReady<K(!new), V>(hashOf: K -> bv64, node: Node<K, V>, child: Node<K, V>, hash: bv64, shift: bv7)
    requires shift <= LAST_SHIFT && WellFormed(hashOf, node, shift) && node.Internal? && Has(node.bitmap, Chunk(hash, shift))
    requires SoundInsertion(hashOf, node.children[Rank(node.bitmap, Chunk(hash, shift))], hash, Ok(child), shift + BITS_PER_LEVEL)
    ensures WellFormed(hashOf, child, shift + BITS_PER_LEVEL) && InSlot(child, shift, Chunk(hash, shift))
  {
    hide Has, Chunk, Rank, CountOnes;
  }

  // ----- removal -----

  /** What a removal below `node` promises: it reports whether the key was bound, and the node it
      returns is well-formed and differs only in the key. */
  ghost predicate SoundRemoval<K(!new), V>(hashOf: K -> bv64, node: Node<K, V>, key: K, r: Option<Node<K, V>>, shift: bv7, q: K)
    requires shift <= LAST_SHIFT + BITS_PER_LEVEL && Shaped(node, shift)
  {
    match r
    case None => GetRec(node, hashOf(key), key, shift).None?
    case Some(node') =>
      && GetRec(node, hashOf(key), key, shift).Some?
      && WellFormed(hashOf, node', shift)
      && Hashes(node') <= Hashes(node)
      && Rebinds(hashOf, node, node', key, None, shift, q)
  }

  lemma BucketRemove<K(!new), V>(hashOf: K -> bv64, node: Node<K, V>, key: K, shift: bv7, q: K)
    requires shift <= LAST_SHIFT + BITS_PER_LEVEL && WellFormed(hashOf, node, shift) && !node.Internal?
    ensures Shaped(node, shift) && SoundRemoval(hashOf, node, key, RemoveRec(node, hashOf(key), key, shift), shift, q)
  {
    if node.Collision? && node.hash == hashOf(key) && Position(node.entries, key).Some? {
      AssocRemoved(node.entries, Position(node.entries, key).value, q);
    }
  }

  lemma AssocRemoved<K, V>(es: seq<(K, V)>, i: nat, q: K)
    requires Distinct(es) && i < |es|
    ensures var es' := es[..i] + es[i + 1..];
            && Distinct(es')
            && (q == es[i].0 ==> Position(es', q).None?)
            && (q != es[i].0 ==> Position(es', q).Some? == Position(es, q).Some?)
            && (q != es[i].0 && Position(es, q).Some? ==> es'[Position(es', q).value] == es[Position(es, q).value])
  {
    var es' := es[..i] + es[i + 1..];
    forall j | 0 <= j < |es'| ensures es'[j] == es[if j < i then j else j + 1] {}
    if q != es[i].0 {
      match Position(es, q)
      case Some(j) => AssocAt(es', q, if j < i then j else j - 1);
      case None =>
    }
  }

  lemma BranchRemove<K(!new), V>(hashOf: K -> bv64, node: Node<K, V>, key: K, shift: bv7, q: K)
    requires shift <= LAST_SHIFT && WellFormed(hashOf, node, shift) && node.Internal? && Shaped(node, shift)
    requires var c := Chunk(hashOf(key), shift);
             Has(node.bitmap, c) ==>
               var child := node.children[Rank(node.bitmap, c)];
               SoundRemoval(hashOf, child, key, RemoveRec(child, hashOf(key), key, shift + BITS_PER_LEVEL), shift + BITS_PER_LEVEL, q)
    ensures SoundRemoval(hashOf, node, key, RemoveRec(node, hashOf(key), key, shift), shift, q)
  {
    hide Has, Chunk, Rank, CountOnes, ChildIndex, SetBit, ClearBit;
    var c := Chunk(hashOf(key), shift);
    var b, cs := node.bitmap, node.children;
    if Has(b, c) {
      var i := Rank(b, c);
      var r := RemoveRec(cs[i], hashOf(key), key, shift + BITS_PER_LEVEL);
      if r.Some? {
        ChildHashes(cs, i);
        if r.value.Empty? {
          SlotEmptied(hashOf, node, key, shift, q);
        } else {
          SetChild(hashOf, b, cs, shift, c, r.value);
          DeepGet(hashOf, node, c, r.value, key, None, shift, q);
        }
      }
    }
  }

  lemma SlotEmptied<K(!new), V>(hashOf: K -> bv64, node: Node<K, V>, key: K, shift: bv7, q: K)
    requires shift <= LAST_SHIFT && WellFormed(hashOf, node, shift) && node.Internal? && Shaped(node, shift)
    requires Has(node.bitmap, Chunk(hashOf(key), shift))
    requires var child := node.children[Rank(node.bitmap, Chunk(hashOf(key), shift))];
             && RemoveRec(child, hashOf(key), key, shift + BITS_PER_LEVEL) == Some(Empty)
             && SoundRemoval(hashOf, child, key, Some(Empty), shift + BITS_PER_LEVEL, q)
    ensures SoundRemoval(hashOf, node, key, RemoveRec(node, hashOf(key), key, shift), shift, q)
  {
    hide Has, Chunk, Rank, CountOnes, ChildIndex, SetBit, ClearBit;
    var c := Chunk(hashOf(key), shift);
    var b, cs := node.bitmap, node.children;
    var b' := ClearBit(b, c);
    var i := Rank(b, c);
    BitChanged(b, c);
    DropChild(hashOf, b, b', cs, shift, c);
    var rest := Internal(b', cs[..i] + cs[i + 1..]);
    WellFormedIsShaped(hashOf, rest, shift);
    DropChildGet(b, b', cs, shift, c, hashOf(q), q);
    if b' == 0 { ZeroBits(); }
  }

  lemma ZeroBits()
    ensures forall c: bv6 :: c < 32 ==> !Has(0, c)
  {}

  lemma {:induction false} RemoveSound<K(!new), V>(hashOf: K -> bv64, node: Node<K, V>, key: K, shift: bv7, q: K)
    requires shift <= LAST_SHIFT + BITS_PER_LEVEL && WellFormed(hashOf, node, shift)
    ensures Shaped(node, shift) && SoundRemoval(hashOf, node, key, RemoveRec(node, hashOf(key), key, shift), shift, q)
    decreases node
  {
    hide Has, Chunk, Rank, CountOnes, ChildIndex, SetBit, ClearBit, SoundRemoval;
    if node.Internal? {
      WellFormedIsShaped(hashOf, node, shift);
      var c := Chunk(hashOf(key), shift);
      if Has(node.bitmap, c) {
        RemoveSound(hashOf, node.children[Rank(node.bitmap, c)], key, shift + BITS_PER_LEVEL, q);
      }
      BranchRemove(hashOf, node, key, shift, q);
    } else {
      BucketRemove(hashOf, node, key, shift, q);
    }
  }
}
