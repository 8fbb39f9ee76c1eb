/** Runs of the trie against a finite map, its entry list, and the exact condition for the
    `unreachable!()` arm of an insertion. */
module HamtMap {
  import opened Wrappers
  import opened HamtBits
  import opened Hamt
  import opened HamtRefinement

  // ----- the entry list -----

  method CollectEntries<K, V>(node: Node<K, V>, out: seq<(K, V)>) returns (out': seq<(K, V)>)
    ensures out' == out + Entries(node)
    decreases node
  {
    out' := out;
    match node
    case Empty =>
    case Leaf(_, key, value) =>
      out' := out' + [(key, value)];
    case Internal(_, children) =>
      for i := 0 to |children|
        invariant out' == out + EntriesOf(children[..i])
      {
        EntriesSnoc(children[..i], children[i]);
        assert children[..i + 1] == children[..i] + [children[i]];
        out' := CollectEntries(children[i], out');
      }
      assert children[..|children|] == children;
    case Collision(_, entries) =>
      for i := 0 to |entries|
        invariant out' == out + entries[..i]
      {
        out' := out' + [entries[i]];
      }
  }

  lemma {:induction false} EntriesSnoc<K, V>(nodes: seq<Node<K, V>>, last: Node<K, V>)
    ensures EntriesOf(nodes + [last]) == EntriesOf(nodes) + Entries(last)
  {
    if nodes == [] {
      assert nodes + [last] == [last];
      assert [last][1..] == [];
    } else {
      EntriesSnoc(nodes[1..], last);
      assert (nodes + [last])[1..] == nodes[1..] + [last];
    }
  }

  lemma {:induction false} EntryOwner<K, V>(nodes: seq<Node<K, V>>, e: (K, V)) returns (i: nat)
    requires e in EntriesOf(nodes)
    ensures i < |nodes| && e in Entries(nodes[i])
  {
    if e in Entries(nodes[0]) {
      i := 0;
    } else {
      i := EntryOwner(nodes[1..], e);
      i := i + 1;
    }
  }

  lemma {:induction false} OwnedEntry<K, V>(nodes: seq<Node<K, V>>, i: nat, e: (K, V))
    requires i < |nodes| && e in Entries(nodes[i])
    ensures e in EntriesOf(nodes)
  {
    if i > 0 { OwnedEntry(nodes[1..], i - 1, e); }
  }

  /** A stored key's hash is among the hashes below the node. */
  lemma {:induction false} EntryHash<K(!new), V>(hashOf: K -> bv64, node: Node<K, V>, shift: bv7, e: (K, V))
    requires shift <= LAST_SHIFT + BITS_PER_LEVEL && WellFormed(hashOf, node, shift) && e in Entries(node)
    ensures hashOf(e.0) in Hashes(node)
    decreases node
  {
    hide Has, Chunk, Rank;
    if node.Internal? {
      var i := EntryOwner(node.children, e);
      var c := Select(node.bitmap, 32, i);
      EntryHash(hashOf, node.children[i], shift + BITS_PER_LEVEL, e);
      ChildHashes(node.children, i);
    }
  }

  /** The entry list holds exactly what lookups find. */
  lemma {:induction false} EntriesAreLookups<K(!new), V>(hashOf: K -> bv64, node: Node<K, V>, shift: bv7, k: K, v: V)
    requires shift <= LAST_SHIFT + BITS_PER_LEVEL && WellFormed(hashOf, node, shift) && Shaped(node, shift)
    ensures (k, v) in Entries(node) <==> GetRec(node, hashOf(k), k, shift) == Some(v)
    decreases node
  {
    hide Has, Chunk, Rank, ChildIndex;
    match node
    case Empty =>
    case Leaf(_, _, _) =>
    case Collision(h, es) =>
      if (k, v) in es {
        var i :| 0 <= i < |es| && es[i] == (k, v);
        AssocAt(es, k, i);
      }
    case Internal(b, cs) =>
      var c := Chunk(hashOf(k), shift);
      if (k, v) in EntriesOf(cs) {
        var i := EntryOwner(cs, (k, v));
        var d := Select(b, 32, i);
        EntryHash(hashOf, cs[i], shift + BITS_PER_LEVEL, (k, v));
        assert InSlot(cs[i], shift, d);
        EntriesAreLookups(hashOf, cs[i], shift + BITS_PER_LEVEL, k, v);
      } else if Has(b, c) {
        EntriesAreLookups(hashOf, cs[Rank(b, c)], shift + BITS_PER_LEVEL, k, v);
        if (k, v) in Entries(cs[Rank(b, c)]) { OwnedEntry(cs, Rank(b, c), (k, v)); }
      }
  }

  lemma {:induction false} EntriesOfDistinct<K, V>(nodes: seq<Node<K, V>>)
    requires forall i :: 0 <= i < |nodes| ==> Distinct(Entries(nodes[i]))
    requires forall i, j, e, f :: 0 <= i < j < |nodes| && e in Entries(nodes[i]) && f in Entries(nodes[j]) ==> e.0 != f.0
    ensures Distinct(EntriesOf(nodes))
  {
    if nodes != [] {
      EntriesOfDistinct(nodes[1..]);
      forall e, f | e in Entries(nodes[0]) && f in EntriesOf(nodes[1..]) ensures e.0 != f.0 {
        var j := EntryOwner(nodes[1..], f);
      }
    }
  }

  lemma {:induction false} EntriesDistinct<K(!new), V>(hashOf: K -> bv64, node: Node<K, V>, shift: bv7)
    requires shift <= LAST_SHIFT + BITS_PER_LEVEL && WellFormed(hashOf, node, shift)
    ensures Distinct(Entries(node))
    decreases node
  {
    hide Has, Chunk, Rank;
    if node.Internal? {
      var cs := node.children;
      forall i | 0 <= i < |cs| ensures Distinct(Entries(cs[i])) {
        var c := Select(node.bitmap, 32, i);
        EntriesDistinct(hashOf, cs[i], shift + BITS_PER_LEVEL);
      }
      forall i, j, e, f | 0 <= i < j < |cs| && e in Entries(cs[i]) && f in Entries(cs[j]) ensures e.0 != f.0 {
        SiblingKeysDiffer(hashOf, node, shift, i, j, e, f);
      }
      EntriesOfDistinct(cs);
    }
  }

  lemma SiblingKeysDiffer<K(!new), V>(hashOf: K -> bv64, node: Node<K, V>, shift: bv7, i: nat, j: nat, e: (K, V), f: (K, V))
    requires shift <= LAST_SHIFT && WellFormed(hashOf, node, shift) && node.Internal?
    requires i < j < |node.children| && e in Entries(node.children[i]) && f in Entries(node.children[j])
    ensures e.0 != f.0
  {
    hide Has, Chunk, Rank;
    var c := Select(node.bitmap, 32, i);
    var d := Select(node.bitmap, 32, j);
    EntryHash(hashOf, node.children[i], shift + BITS_PER_LEVEL, e);
    EntryHash(hashOf, node.children[j], shift + BITS_PER_LEVEL, f);
    assert InSlot(node.children[i], shift, c) && InSlot(node.children[j], shift, d);
    assert Chunk(hashOf(e.0), shift) == c && Chunk(hashOf(f.0), shift) == d;
  }

  // ----- refinement of a finite map -----

  function Lookup<K(==), V>(m: map<K, V>, k: K): Option<V> {
    if k in m then Some(m[k]) else None
  }

  /** The trie is well-formed, finds exactly what the map holds and counts its keys. */
  ghost predicate Represents<K(!new), V>(hashOf: K -> bv64, h: Hamt<K, V>, m: map<K, V>) {
    && WellFormed(hashOf, h.root, 0)
    && Shaped(h.root, 0)
    && h.size == |m|
    && forall k :: Get(hashOf, h, k) == Lookup(m, k)
  }

  lemma InsertRefines<K(!new), V>(hashOf: K -> bv64, h: Hamt<K, V>, m: map<K, V>, key: K, value: V)
    requires Represents(hashOf, h, m)
    ensures match Insert(hashOf, h, key, value)
            case Ok(h') => Represents(hashOf, h', m[key := value])
            case Err(cause) => cause == UnreachableArm
  {
    hide Has, Chunk, Rank, GetRec, InsertRec;
    assert Near(h.root, hashOf(key), 0);
    InsertSound(hashOf, h.root, key, value, 0);
    var r := InsertRec(h.root, hashOf(key), key, value, 0);
    if r.Ok? {
      WellFormedIsShaped(hashOf, r.value, 0);
      var m' := m[key := value];
      forall k ensures GetRec(r.value, hashOf(k), k, 0) == Lookup(m', k) {
        InsertGet(hashOf, h.root, key, value, 0, k);
        assert Get(hashOf, h, k) == Lookup(m, k);
      }
      assert Get(hashOf, h, key) == Lookup(m, key);
    }
  }

  lemma RemoveRefines<K(!new), V>(hashOf: K -> bv64, h: Hamt<K, V>, m: map<K, V>, key: K)
    requires Represents(hashOf, h, m)
    ensures Represents(hashOf, Remove(hashOf, h, key), m - {key})
  {
    hide Has, Chunk, Rank, GetRec, RemoveRec;
    var r := RemoveRec(h.root, hashOf(key), key, 0);
    RemoveSound(hashOf, h.root, key, 0, key);
    assert Get(hashOf, h, key) == Lookup(m, key);
    var m' := m - {key};
    assert m'.Keys == m.Keys - {key};
    if r.Some? {
      forall k ensures GetRec(r.value, hashOf(k), k, 0) == Lookup(m', k) {
        RemoveSound(hashOf, h.root, key, 0, k);
        assert Get(hashOf, h, k) == Lookup(m, k);
      }
    } else {
      assert m' == m;
    }
  }

  /** `entries` lists every binding of the map exactly once, and `len` is their number. */
  lemma EntriesRefine<K(!new), V>(hashOf: K -> bv64, h: Hamt<K, V>, m: map<K, V>)
    requires Represents(hashOf, h, m)
    ensures Distinct(Entries(h.root))
    ensures forall k, v :: (k, v) in Entries(h.root) <==> k in m && m[k] == v
    ensures |Entries(h.root)| == |m| == h.size
  {
    hide Has, Chunk, Rank, GetRec, Entries;
    EntriesDistinct(hashOf, h.root, 0);
    forall k, v ensures (k, v) in Entries(h.root) <==> k in m && m[k] == v {
      EntriesAreLookups(hashOf, h.root, 0, k, v);
      assert Get(hashOf, h, k) == Lookup(m, k);
    }
    DistinctCount(Entries(h.root), m);
  }

  lemma {:induction false} DistinctCount<K, V>(es: seq<(K, V)>, m: map<K, V>)
    requires Distinct(es)
    requires forall k, v :: (k, v) in es <==> k in m && m[k] == v
    ensures |es| == |m|
  {
    if es == [] {
      assert forall k :: k in m ==> (k, m[k]) in es;
      assert m == map[];
    } else {
      var k := es[0].0;
      assert es[0] in es;
      var m' := m - {k};
      forall j, v ensures (j, v) in es[1..] <==> j in m' && m'[j] == v {
        if (j, v) in es[1..] {
          var i :| 1 <= i < |es| && es[i] == (j, v);
          assert es[0].0 != es[i].0;
        }
      }
      DistinctCount(es[1..], m');
      assert m'.Keys == m.Keys - {k};
    }
  }

  // ----- runs -----

  datatype Op<K, V> = InsertOp(key: K, value: V) | RemoveOp(key: K)

  function Apply<K(==), V>(m: map<K, V>, op: Op<K, V>): map<K, V> {
    match op
    case InsertOp(key, value) => m[key := value]
    case RemoveOp(key) => m - {key}
  }

  function Model<K(==), V>(ops: seq<Op<K, V>>): map<K, V> {
    if ops == [] then map[] else Apply(Model(ops[..|ops| - 1]), ops[|ops| - 1])
  }

  /** A run of operations from the empty trie. For any hash function, a run that does not stop the
      program represents the map that the operations describe, and the `unreachable!()` arm is the
      only way that it stops. */
  ghost function Run<K(!new), V>(hashOf: K -> bv64, ops: seq<Op<K, V>>): (r: Result<Hamt<K, V>, Cause>)
    ensures r.Ok? ==> Represents(hashOf, r.value, Model(ops))
    ensures r.Err? ==> r.error == UnreachableArm
  {
    if ops == [] then
      EmptyRepresents<K, V>(hashOf);
      Ok(New())
    else
      var before, op := ops[..|ops| - 1], ops[|ops| - 1];
      match Run(hashOf, before)
      case Err(cause) => Err(cause)
      case Ok(h) =>
        match op
        case InsertOp(key, value) =>
          InsertRefines(hashOf, h, Model(before), key, value);
          Insert(hashOf, h, key, value)
        case RemoveOp(key) =>
          RemoveRefines(hashOf, h, Model(before), key);
          Ok(Remove(hashOf, h, key))
  }

  lemma EmptyRepresents<K(!new), V>(hashOf: K -> bv64)
    ensures Represents<K, V>(hashOf, New(), map[])
  {}

  // ----- the unreachable!() arm -----

  /** The trie holds, at depth `s`, a collision bucket for the hash `g`. */
  ghost predicate BucketAt<K, V>(node: Node<K, V>, shift: bv7, g: bv64, s: bv7)
    decreases node
  {
    match node
    case Collision(h, _) => h == g && s == shift
    case Internal(_, children) =>
      shift <= LAST_SHIFT && exists i :: 0 <= i < |children| && BucketAt(children[i], shift + BITS_PER_LEVEL, g, s)
    case _ => false
  }

  /** A bucket of another hash stands where an insertion of `hash` passes. */
  ghost predicate Blocked<K, V>(node: Node<K, V>, shift: bv7, hash: bv64) {
    exists g: bv64, s: bv7 :: BucketAt(node, shift, g, s) && Blocks(g, s, hash)
  }

  ghost predicate Blocks(g: bv64, s: bv7, hash: bv64) {
    g != hash && s <= LAST_SHIFT + BITS_PER_LEVEL && Agree(g, hash, s)
  }

  lemma {:induction false} BucketDepth<K(!new), V>(hashOf: K -> bv64, node: Node<K, V>, shift: bv7, g: bv64, s: bv7)
    requires Aligned(shift) && WellFormed(hashOf, node, shift) && BucketAt(node, shift, g, s)
    ensures g in Hashes(node) && shift <= s && Aligned(s)
    decreases node
  {
    hide Has, Chunk, Rank, Aligned;
    NextAligned(shift);
    if node.Internal? {
      var i :| 0 <= i < |node.children| && BucketAt(node.children[i], shift + BITS_PER_LEVEL, g, s);
      var c := Select(node.bitmap, 32, i);
      BucketDepth(hashOf, node.children[i], shift + BITS_PER_LEVEL, g, s);
      ChildHashes(node.children, i);
    }
  }

  /** An insertion meets the arm exactly when a bucket of another hash shares the low bits of the
      inserted hash up to the bucket's depth. */
  lemma {:induction false} ArmIffBlocked<K(!new), V>(hashOf: K -> bv64, node: Node<K, V>, key: K, value: V, shift: bv7)
    requires Aligned(shift) && WellFormed(hashOf, node, shift) && Near(node, hashOf(key), shift)
    ensures InsertRec(node, hashOf(key), key, value, shift).Err? <==> Blocked(node, shift, hashOf(key))
    decreases LAST_SHIFT + BITS_PER_LEVEL - shift, node.Leaf?
  {
    hide Has, Chunk, Rank, CountOnes, ChildIndex, SetBit, ClearBit, Aligned, Agree, InsertRec, Blocked, Near, SoundInsertion;
    NextAligned(shift);
    var hash := hashOf(key);
    match node
    case Empty =>
      StopsInBucket(node, hash, key, value, shift);
    case Collision(g, _) =>
      StopsInBucket(node, hash, key, value, shift);
    case Leaf(h, k, v) =>
      if h == hash {
        StopsInBucket(node, hash, key, value, shift);
      } else {
        SplitShift(node, hash, shift);
        FirstBranch(h, k, v, shift);
        EmptyBranch<K, V>(hashOf, h, shift);
        InsertSound(hashOf, Internal(0, []), k, v, shift);
        var branch := Internal(SetBit(0, Chunk(h, shift)), [node]);
        BranchReady(hashOf, node, branch, hash, shift);
        ArmIffBlocked(hashOf, branch, key, value, shift);
        StopsInSplit(node, hash, key, value, shift);
      }
    case Internal(b, cs) =>
      var c := Chunk(hash, shift);
      if Has(b, c) {
        NearChild(hashOf, node, hash, shift);
        ArmIffBlocked(hashOf, cs[Rank(b, c)], key, value, shift + BITS_PER_LEVEL);
      }
      StopsBelow(hashOf, node, key, value, shift);
      BlockedBelow(hashOf, node, hash, shift);
  }

  /** An insertion at a branch stops only where the insertion into the child stops. */
  lemma StopsBelow<K(!new), V>(hashOf: K -> bv64, node: Node<K, V>, key: K, value: V, shift: bv7)
    requires shift <= LAST_SHIFT && WellFormed(hashOf, node, shift) && node.Internal?
    ensures var c := Chunk(hashOf(key), shift);
            InsertRec(node, hashOf(key), key, value, shift).Err? <==>
            Has(node.bitmap, c) &&
            InsertRec(node.children[Rank(node.bitmap, c)], hashOf(key), key, value, shift + BITS_PER_LEVEL).Err?
  {
    hide Has, Chunk, Rank, SetBit;
    RankMonotone(node.bitmap, Chunk(hashOf(key), shift), 32);
  }

  lemma StopsInBucket<K(!new), V>(node: Node<K, V>, hash: bv64, key: K, value: V, shift: bv7)
    requires shift <= LAST_SHIFT + BITS_PER_LEVEL && Near(node, hash, shift)
    requires !node.Internal? && (node.Leaf? ==> node.hash == hash)
    ensures InsertRec(node, hash, key, value, shift).Err? <==> Blocked(node, shift, hash)
  {
    hide Agree;
    if node.Collision? && node.hash != hash {
      assert BucketAt(node, shift, node.hash, shift) && Blocks(node.hash, shift, hash);
    }
  }

  /** A split stops only where the insertion into its new branch stops. */
  lemma StopsInSplit<K(!new), V>(node: Node<K, V>, hash: bv64, key: K, value: V, shift: bv7)
    requires shift <= LAST_SHIFT && node.Leaf? && node.hash != hash
    ensures var branch := Internal(SetBit(0, Chunk(node.hash, shift)), [node]);
            && InsertRec(node, hash, key, value, shift) == InsertRec(branch, hash, key, value, shift)
            && !Blocked(branch, shift, hash) && !Blocked(node, shift, hash)
  {
    hide Has, Chunk, Rank, SetBit;
    FirstBranch(node.hash, node.key, node.value, shift);
    var branch := Internal(SetBit(0, Chunk(node.hash, shift)), [node]);
    assert forall g: bv64, s: bv7 :: !BucketAt(branch, shift, g, s);
  }

  /** The branch that a split makes of the old leaf. */
  lemma FirstBranch<K, V>(h: bv64, k: K, v: V, shift: bv7)
    requires shift <= LAST_SHIFT
    ensures InsertRec(Internal(0, []), h, k, v, shift) == Ok(Internal(SetBit(0, Chunk(h, shift)), [Leaf(h, k, v)]))
  {
    hide Has, Chunk, Rank, SetBit;
    ZeroBits();
    ZeroRank(Chunk(h, shift));
    var none: seq<Node<K, V>> := [];
    assert none[..0] + [Leaf(h, k, v)] + none[0..] == [Leaf(h, k, v)];
  }

  /** Agreement up to a level includes the chunk of every level above it. */
  lemma {:induction false} AgreeBelow(g: bv64, hash: bv64, s: bv7, shift: bv7)
    requires Aligned(s) && Aligned(shift) && shift < s && Agree(g, hash, s)
    ensures Chunk(g, shift) == Chunk(hash, shift)
    decreases s
  {
    hide Chunk;
    if s - BITS_PER_LEVEL != shift { AgreeBelow(g, hash, s - BITS_PER_LEVEL, shift); }
  }

  /** Only the child on the path can block an insertion. */
  lemma BlockedBelow<K(!new), V>(hashOf: K -> bv64, node: Node<K, V>, hash: bv64, shift: bv7)
    requires Aligned(shift) && shift <= LAST_SHIFT && WellFormed(hashOf, node, shift) && node.Internal?
    ensures Blocked(node, shift, hash) <==>
            Has(node.bitmap, Chunk(hash, shift)) &&
            Blocked(node.children[Rank(node.bitmap, Chunk(hash, shift))], shift + BITS_PER_LEVEL, hash)
  {
    hide Has, Chunk, Rank, Aligned, Agree, Blocks, BucketAt;
    var cs := node.children;
    if Blocked(node, shift, hash) {
      var g, s :| BucketAt(node, shift, g, s) && Blocks(g, s, hash);
      BucketOnPath(hashOf, node, hash, shift, g, s);
    }
    if Has(node.bitmap, Chunk(hash, shift)) {
      var j := Rank(node.bitmap, Chunk(hash, shift));
      if Blocked(cs[j], shift + BITS_PER_LEVEL, hash) {
        var g, s :| BucketAt(cs[j], shift + BITS_PER_LEVEL, g, s) && Blocks(g, s, hash);
        BucketInChild(node, shift, j, g, s);
      }
    }
  }

  lemma BucketInChild<K, V>(node: Node<K, V>, shift: bv7, j: nat, g: bv64, s: bv7)
    requires shift <= LAST_SHIFT && node.Internal? && j < |node.children|
    requires BucketAt(node.children[j], shift + BITS_PER_LEVEL, g, s)
    ensures BucketAt(node, shift, g, s)
  {}

  lemma BucketOnPath<K(!new), V>(hashOf: K -> bv64, node: Node<K, V>, hash: bv64, shift: bv7, g: bv64, s: bv7)
    requires Aligned(shift) && shift <= LAST_SHIFT && WellFormed(hashOf, node, shift) && node.Internal?
    requires BucketAt(node, shift, g, s) && Blocks(g, s, hash)
    ensures Has(node.bitmap, Chunk(hash, shift))
    ensures BucketAt(node.children[Rank(node.bitmap, Chunk(hash, shift))], shift + BITS_PER_LEVEL, g, s)
  {
    hide Has, Chunk, Rank, Aligned, Agree;
    NextAligned(shift);
    var cs := node.children;
    var i :| 0 <= i < |cs| && BucketAt(cs[i], shift + BITS_PER_LEVEL, g, s);
    var d := Select(node.bitmap, 32, i);
    BucketDepth(hashOf, cs[i], shift + BITS_PER_LEVEL, g, s);
    AgreeBelow(g, hash, s, shift);
    assert InSlot(cs[i], shift, d);
  }

  /** When no two keys in use share a hash, no insertion meets the arm and every run completes. */
  lemma {:induction false} InjectiveRunsComplete<K(!new), V>(hashOf: K -> bv64, ops: seq<Op<K, V>>)
    requires forall i, j :: 0 <= i < |ops| && 0 <= j < |ops| && hashOf(ops[i].key) == hashOf(ops[j].key) ==> ops[i].key == ops[j].key
    ensures Run(hashOf, ops).Ok?
    ensures forall k :: k in Model(ops) ==> exists i :: 0 <= i < |ops| && ops[i].key == k
  {
    hide Has, Chunk, Rank, GetRec, InsertRec, RemoveRec, WellFormed, Shaped, Aligned, Agree;
    if ops != [] {
      var before, op := ops[..|ops| - 1], ops[|ops| - 1];
      InjectiveRunsComplete(hashOf, before);
      forall k | k in Model(ops) ensures exists i :: 0 <= i < |ops| && ops[i].key == k {
        if k == op.key {
          assert ops[|ops| - 1].key == k;
        } else {
          var i :| 0 <= i < |before| && before[i].key == k;
          assert ops[i].key == k;
        }
      }
      var h := Run(hashOf, before).value;
      if op.InsertOp? {
        if Blocked(h.root, 0, hashOf(op.key)) {
          var g, s :| BucketAt(h.root, 0, g, s) && Blocks(g, s, hashOf(op.key));
          BucketKeys(hashOf, h, Model(before), g, s);
        }
        ArmAtRoot(hashOf, h, op.key, op.value);
      }
    }
  }

  lemma ArmAtRoot<K(!new), V>(hashOf: K -> bv64, h: Hamt<K, V>, key: K, value: V)
    requires WellFormed(hashOf, h.root, 0) && Shaped(h.root, 0)
    ensures Insert(hashOf, h, key, value).Err? <==> Blocked(h.root, 0, hashOf(key))
  {
    hide Has, Chunk, Rank, GetRec, InsertRec, WellFormed, Shaped;
    assert Near(h.root, hashOf(key), 0);
    ArmIffBlocked(hashOf, h.root, key, value, 0);
  }

  /** A collision bucket holds two keys of the map that share its hash. */
  lemma BucketKeys<K(!new), V>(hashOf: K -> bv64, h: Hamt<K, V>, m: map<K, V>, g: bv64, s: bv7)
    requires Represents(hashOf, h, m) && BucketAt(h.root, 0, g, s)
    ensures exists a, b :: a in m && b in m && a != b && hashOf(a) == g && hashOf(b) == g
  {
    hide Has, Chunk, Rank, GetRec, Entries, BucketAt;
    var a, b := BucketEntries(hashOf, h.root, 0, g, s);
    EntriesRefine(hashOf, h, m);
    assert a in Entries(h.root) && b in Entries(h.root);
    assert a == (a.0, a.1) && b == (b.0, b.1);
    assert a.0 in m && b.0 in m;
  }

  lemma {:induction false} BucketEntries<K(!new), V>(hashOf: K -> bv64, node: Node<K, V>, shift: bv7, g: bv64, s: bv7) returns (a: (K, V), b: (K, V))
    requires shift <= LAST_SHIFT + BITS_PER_LEVEL && WellFormed(hashOf, node, shift) && BucketAt(node, shift, g, s)
    ensures a in Entries(node) && b in Entries(node) && a.0 != b.0 && hashOf(a.0) == g && hashOf(b.0) == g
    decreases node
  {
    hide Has, Chunk, Rank;
    if node.Internal? {
      var i :| 0 <= i < |node.children| && BucketAt(node.children[i], shift + BITS_PER_LEVEL, g, s);
      var c := Select(node.bitmap, 32, i);
      a, b := BucketEntries(hashOf, node.children[i], shift + BITS_PER_LEVEL, g, s);
      OwnedEntry(node.children, i, a);
      OwnedEntry(node.children, i, b);
    } else {
      a, b := node.entries[0], node.entries[1];
    }
  }

  /** The arm is reachable: two keys of one hash and a third of another, from the empty trie. */
  lemma ArmIsReachable<K(!new), V>(hashOf: K -> bv64, a: K, b: K, c: K, v: V)
    requires a != b && hashOf(a) == hashOf(b) && hashOf(c) != hashOf(a)
    ensures Run(hashOf, [InsertOp(a, v), InsertOp(b, v), InsertOp(c, v)]) == Err(UnreachableArm)
  {
    var one: seq<Op<K, V>> := [InsertOp(a, v)];
    var two: seq<Op<K, V>> := [InsertOp(a, v), InsertOp(b, v)];
    var three: seq<Op<K, V>> := [InsertOp(a, v), InsertOp(b, v), InsertOp(c, v)];
    assert one[..0] == [] && two[..1] == one && three[..2] == two;
    assert Run(hashOf, one) == Ok(Hamt(Leaf(hashOf(a), a, v), 1));
    assert Run(hashOf, two) == Ok(Hamt(Collision(hashOf(a), [(a, v), (b, v)]), 2));
  }
}
