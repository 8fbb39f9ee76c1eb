/**
 The persistent hash array mapped trie of `crates/hamt`. A node is a value, as in the source: an
 operation copies the path it changes. The hash function is a parameter.
 */
module Hamt {
  import opened Wrappers
  import opened HamtBits

  datatype Node<K, V> =
    | Empty
    | Leaf(hash: bv64, key: K, value: V)
    | Internal(bitmap: bv32, children: seq<Node<K, V>>)
    | Collision(hash: bv64, entries: seq<(K, V)>)

  datatype Hamt<K, V> = Hamt(root: Node<K, V>, size: int)

  /** Why an insertion stops the program: the source's `unreachable!()`, a shift past the hash
      width, or a child index past the child list. */
  datatype Cause = UnreachableArm | ShiftOverflow | IndexOutOfBounds

  // ----- operations -----

  function Position<K(==), V>(entries: seq<(K, V)>, key: K): (r: Option<nat>)
    ensures r.Some? ==> r.value < |entries| && entries[r.value].0 == key
    ensures r.None? ==> forall i :: 0 <= i < |entries| ==> entries[i].0 != key
  {
    if entries == [] then None
    else if entries[0].0 == key then Some(0)
    else
      match Position(entries[1..], key)
      case None =>
        assert forall i :: 1 <= i < |entries| ==> entries[i] == entries[1..][i - 1];
        None
      case Some(i) => Some(i + 1)
  }

  function InsertRec<K(==), V>(node: Node<K, V>, hash: bv64, key: K, value: V, shift: bv7)
    : (r: Result<Node<K, V>, Cause>)
    requires shift <= LAST_SHIFT + BITS_PER_LEVEL
    ensures r.Ok? && node.Internal? ==> r.value.Internal?
    decreases LAST_SHIFT + BITS_PER_LEVEL - shift, node.Leaf?
  {
    match node
    case Empty => Ok(Leaf(hash, key, value))
    case Leaf(existingHash, existingKey, existingValue) =>
      if existingHash == hash then
        if existingKey == key then Ok(Leaf(hash, key, value))
        else Ok(Collision(hash, [(existingKey, existingValue), (key, value)]))
      else (
        match InsertRec(Internal(0, []), existingHash, existingKey, existingValue, shift)
        case Err(cause) => Err(cause)
        case Ok(branch) => InsertRec(branch, hash, key, value, shift))
    case Internal(bitmap, children) =>
      if shift > LAST_SHIFT then Err(ShiftOverflow)
      else
        var c := Chunk(hash, shift);
        var index := ChildIndex(bitmap, c);
        if !Has(bitmap, c) then
          if index > |children| then Err(IndexOutOfBounds)
          else Ok(Internal(SetBit(bitmap, c), children[..index] + [Leaf(hash, key, value)] + children[index..]))
        else if index >= |children| then Err(IndexOutOfBounds)
        else (
          match InsertRec(children[index], hash, key, value, shift + BITS_PER_LEVEL)
          case Err(cause) => Err(cause)
          case Ok(child) => Ok(Internal(bitmap, children[index := child])))
    case Collision(collisionHash, entries) =>
      if collisionHash != hash then Err(UnreachableArm)
      else
        match Position(entries, key)
        case Some(i) => Ok(Collision(hash, entries[i := (key, value)]))
        case None => Ok(Collision(hash, entries + [(key, value)]))
  }

  /** Every bitmap counts its children and no branch lies below the last chunk of the hash. */
  ghost predicate Shaped<K, V>(node: Node<K, V>, shift: bv7)
    requires shift <= LAST_SHIFT + BITS_PER_LEVEL
    decreases node
  {
    node.Internal? ==>
      && shift <= LAST_SHIFT
      && |node.children| == CountOnes(node.bitmap)
      && forall c: bv6 :: c < 32 && Has(node.bitmap, c) ==>
           Rank(node.bitmap, c) < |node.children| && Shaped(node.children[Rank(node.bitmap, c)], shift + BITS_PER_LEVEL)
  }

  function GetRec<K(==), V>(node: Node<K, V>, hash: bv64, key: K, shift: bv7): Option<V>
    requires shift <= LAST_SHIFT + BITS_PER_LEVEL && Shaped(node, shift)
    decreases node
  {
    match node
    case Empty => None
    case Leaf(leafHash, leafKey, leafValue) => if leafHash == hash && leafKey == key then Some(leafValue) else None
    case Internal(bitmap, children) =>
      var c := Chunk(hash, shift);
      if !Has(bitmap, c) then None
      else GetRec(children[ChildIndex(bitmap, c)], hash, key, shift + BITS_PER_LEVEL)
    case Collision(collisionHash, entries) =>
      if collisionHash != hash then None
      else
        match Position(entries, key)
        case None => None
        case Some(i) => Some(entries[i].1)
  }

  function RemoveRec<K(==), V>(node: Node<K, V>, hash: bv64, key: K, shift: bv7): Option<Node<K, V>>
    requires shift <= LAST_SHIFT + BITS_PER_LEVEL && Shaped(node, shift)
    decreases node
  {
    match node
    case Empty => None
    case Leaf(leafHash, leafKey, _) => if leafHash == hash && leafKey == key then Some(Empty) else None
    case Collision(collisionHash, entries) =>
      if collisionHash != hash then None
      else (
        match Position(entries, key)
        case None => None
        case Some(i) =>
          var remaining := entries[..i] + entries[i + 1..];
          if |remaining| == 1 then Some(Leaf(collisionHash, remaining[0].0, remaining[0].1))
          else Some(Collision(collisionHash, remaining)))
    case Internal(bitmap, children) =>
      var c := Chunk(hash, shift);
      if !Has(bitmap, c) then None
      else
        var index := ChildIndex(bitmap, c);
        match RemoveRec(children[index], hash, key, shift + BITS_PER_LEVEL)
        case None => None
        case Some(child) =>
          if child.Empty? then
            var rest := ClearBit(bitmap, c);
            if rest == 0 then Some(Empty) else Some(Internal(rest, children[..index] + children[index + 1..]))
          else Some(Internal(bitmap, children[index := child]))
  }

  function New<K, V>(): Hamt<K, V> {
    Hamt(Empty, 0)
  }

  function Get<K(==), V>(hashOf: K -> bv64, h: Hamt<K, V>, key: K): Option<V>
    requires Shaped(h.root, 0)
  {
    GetRec(h.root, hashOf(key), key, 0)
  }

  function Insert<K(==), V>(hashOf: K -> bv64, h: Hamt<K, V>, key: K, value: V): Result<Hamt<K, V>, Cause>
    requires Shaped(h.root, 0)
  {
    var isNew := Get(hashOf, h, key).None?;
    match InsertRec(h.root, hashOf(key), key, value, 0)
    case Err(cause) => Err(cause)
    case Ok(root) => Ok(Hamt(root, if isNew then h.size + 1 else h.size))
  }

  function Remove<K(==), V>(hashOf: K -> bv64, h: Hamt<K, V>, key: K): Hamt<K, V>
    requires Shaped(h.root, 0)
  {
    match RemoveRec(h.root, hashOf(key), key, 0)
    case Some(root) => Hamt(root, h.size - 1)
    case None => h
  }

  /** The key/value pairs in traversal order. */
  function Entries<K, V>(node: Node<K, V>): seq<(K, V)>
    decreases node, 0
  {
    match node
    case Empty => []
    case Leaf(_, key, value) => [(key, value)]
    case Internal(_, children) => EntriesOf(children)
    case Collision(_, entries) => entries
  }

  function EntriesOf<K, V>(nodes: seq<Node<K, V>>): seq<(K, V)>
    decreases nodes, 1
  {
    if nodes == [] then [] else Entries(nodes[0]) + EntriesOf(nodes[1..])
  }

  // ----- the invariant -----

  ghost function Hashes<K, V>(node: Node<K, V>): set<bv64> {
    match node
    case Empty => {}
    case Leaf(h, _, _) => {h}
    case Collision(h, _) => {h}
    case Internal(_, children) => HashesOf(children)
  }

  ghost function HashesOf<K, V>(nodes: seq<Node<K, V>>): set<bv64> {
    if nodes == [] then {} else Hashes(nodes[0]) + HashesOf(nodes[1..])
  }

  /** A child for chunk `c` holds only hashes with that chunk at its parent's shift. */
  ghost predicate InSlot<K, V>(child: Node<K, V>, shift: bv7, c: bv6)
    requires shift <= LAST_SHIFT
  {
    !child.Empty? && forall g :: g in Hashes(child) ==> Chunk(g, shift) == c
  }

  ghost predicate Distinct<K, V>(entries: seq<(K, V)>) {
    forall i, j :: 0 <= i < j < |entries| ==> entries[i].0 != entries[j].0
  }

  ghost predicate WellFormed<K(!new), V>(hashOf: K -> bv64, node: Node<K, V>, shift: bv7)
    requires shift <= LAST_SHIFT + BITS_PER_LEVEL
    decreases node
  {
    match node
    case Empty => true
    case Leaf(h, k, _) => h == hashOf(k)
    case Collision(h, entries) =>
      |entries| >= 2 && Distinct(entries) && forall i :: 0 <= i < |entries| ==> hashOf(entries[i].0) == h
    case Internal(bitmap, children) =>
      && shift <= LAST_SHIFT
      && |children| == CountOnes(bitmap)
      && forall c: bv6 :: c < 32 && Has(bitmap, c) ==>
           && Rank(bitmap, c) < |children|
           && WellFormed(hashOf, children[Rank(bitmap, c)], shift + BITS_PER_LEVEL)
           && InSlot(children[Rank(bitmap, c)], shift, c)
  }

  /** Every hash below the node shares its low `shift` bits with `hash`. */
  ghost predicate Near<K, V>(node: Node<K, V>, hash: bv64, shift: bv7)
    requires shift <= LAST_SHIFT + BITS_PER_LEVEL
  {
    forall g :: g in Hashes(node) ==> Agree(g, hash, shift)
  }

  lemma {:induction false} WellFormedIsShaped<K(!new), V>(hashOf: K -> bv64, node: Node<K, V>, shift: bv7)
    requires shift <= LAST_SHIFT + BITS_PER_LEVEL && WellFormed(hashOf, node, shift)
    ensures Shaped(node, shift)
    decreases node
  {
    hide Has, Rank, CountOnes;
    if node.Internal? {
      forall c: bv6 | c < 32 && Has(node.bitmap, c)
        ensures Shaped(node.children[Rank(node.bitmap, c)], shift + BITS_PER_LEVEL)
      {
        WellFormedIsShaped(hashOf, node.children[Rank(node.bitmap, c)], shift + BITS_PER_LEVEL);
      }
    }
  }
}
