/** The timestamp index: sequence numbers by timestamp, read in timestamp order. */
module SequenceIndex {
  import opened EventLog
  import opened Ordering

  type Index = map<nat, nat>

  datatype Entry = Entry(ts: nat, number: nat)

  /** The indexed timestamps from one on, in order. */
  function KeysFrom(index: Index, since: nat): (xs: seq<nat>)
    ensures Ascends(xs) && |xs| <= |index|
    ensures forall i :: 0 <= i < |xs| ==> xs[i] in index && xs[i] >= since
  {
    var keys := set k | k in index && k >= since;
    Subsets(keys, index.Keys);
    Ordered(keys)
  }

  lemma KeyListed(index: Index, since: nat, k: nat)
    ensures k in KeysFrom(index, since) <==> k in index && k >= since
  {}

  /** Reading on after the first `n` timestamps reads the others. */
  lemma KeysOn(index: Index, since: nat, n: nat)
    requires 0 < n <= |KeysFrom(index, since)|
    ensures KeysFrom(index, KeysFrom(index, since)[n - 1] + 1) == KeysFrom(index, since)[n..]
  {
    hide KeysFrom;
    var all := KeysFrom(index, since);
    var xs, ys := KeysFrom(index, all[n - 1] + 1), all[n..];
    forall k ensures k in xs <==> k in ys {
      Later(all, n, k);
      KeyListed(index, since, k);
      KeyListed(index, all[n - 1] + 1, k);
    }
    AscendsUnique(xs, ys);
  }

  lemma Later(xs: seq<nat>, n: nat, k: nat)
    requires Ascends(xs) && 0 < n <= |xs|
    ensures k in xs[n..] <==> k in xs && k > xs[n - 1]
  {
    if k in xs {
      var i :| 0 <= i < |xs| && xs[i] == k;
      assert i >= n ==> xs[n..][i - n] == k;
    }
  }

  /** Up to `limit` rows from a timestamp on, in timestamp order. */
  function RangeFrom(index: Index, since: nat, limit: nat): (entries: seq<Entry>)
    ensures |entries| == |Take(KeysFrom(index, since), limit)|
    ensures forall i :: 0 <= i < |entries| ==>
              entries[i].ts == KeysFrom(index, since)[i] && entries[i].ts in index && entries[i].number == index[entries[i].ts]
  {
    var keys := Take(KeysFrom(index, since), limit);
    seq(|keys|, i requires 0 <= i < |keys| => Entry(keys[i], index[keys[i]]))
  }
}
