// The open-addressed hash table of StringMap.cpp, with the insertion step its
// header performs around LookupBucketFor and RehashTable.  `table` and
// `hashes` are the two halves of the block that createTable allocates.
module StringMaps {
  import opened Arith
  import opened Probing
  import opened Basics

  // A bucket pointer: null, the tombstone value, or an allocated entry.
  datatype Bucket<V> = Empty | Tombstone | Entry(key: string, value: V)

  type uint32 = x: nat | x < 0x1_0000_0000

  // The key hash, inverted when iteration order is to be reversed.
  datatype Hasher = Hasher(hash: string -> uint32, reverse: bool) {
    function Full(fullHash: uint32): uint32 {
      if reverse then 0xFFFF_FFFF - fullHash else fullHash
    }
    function Of(key: string): uint32 { Full(hash(key)) }
  }

  // ----- table contents as sequences -----

  ghost function Weight<V>(b: Bucket<V>, tombs: bool): nat {
    if (if tombs then b.Tombstone? else b.Entry?) then 1 else 0
  }

  // Number of tombstones, or of entries.
  ghost function Count<V>(t: seq<Bucket<V>>, tombs: bool): nat {
    if t == [] then 0 else Count(t[..|t| - 1], tombs) + Weight(t[|t| - 1], tombs)
  }

  ghost predicate NoEmptyBefore<V>(t: seq<Bucket<V>>, h: nat, j: nat)
    requires |t| > 0
  {
    forall i: nat :: i < j ==> !t[Slot(h, i, |t|)].Empty?
  }

  ghost predicate ReachedAt<V>(t: seq<Bucket<V>>, h: nat, b: nat, j: nat)
    requires |t| > 0
  {
    j < |t| && Slot(h, j, |t|) == b && NoEmptyBefore(t, h, j)
  }

  // The probe sequence of h gets to bucket b before any empty bucket.
  ghost predicate Reached<V>(t: seq<Bucket<V>>, h: nat, b: nat)
    requires |t| > 0
  {
    exists j: nat :: ReachedAt(t, h, b, j)
  }

  ghost predicate FirstFreeAt<V>(t: seq<Bucket<V>>, h: nat, b: nat, j: nat)
    requires |t| > 0
  {
    && j < |t| && Slot(h, j, |t|) == b
    && (forall i: nat :: i < j ==> t[Slot(h, i, |t|)].Entry?)
    && !t[b].Entry?
  }

  // b is the first tombstone or empty bucket on the probe sequence of h.
  ghost predicate FirstFree<V>(t: seq<Bucket<V>>, h: nat, b: nat)
    requires |t| > 0
  {
    exists j: nat :: FirstFreeAt(t, h, b, j)
  }

  lemma FirstFreeFound<V>(t: seq<Bucket<V>>, h: nat, b: nat, j: nat)
    requires |t| > 0 && FirstFreeAt(t, h, b, j)
    ensures FirstFree(t, h, b)
  {
  }

  ghost predicate UniqueKeys<V>(t: seq<Bucket<V>>) {
    forall i, j :: 0 <= i < j < |t| && t[i].Entry? && t[j].Entry? ==> t[i].key != t[j].key
  }

  ghost predicate WellPlaced<V>(t: seq<Bucket<V>>, hs: seq<uint32>, hasher: Hasher) {
    && |t| == |hs|
    && (|t| == 0 || IsPow2(|t|))
    && UniqueKeys(t)
    && forall b :: 0 <= b < |t| && t[b].Entry? ==> hs[b] == hasher.Of(t[b].key) && Reached(t, hs[b], b)
  }

  ghost predicate Holds<V>(t: seq<Bucket<V>>, m: map<string, V>) {
    && (forall b :: 0 <= b < |t| && t[b].Entry? ==> t[b].key in m && m[t[b].key] == t[b].value)
    && (forall k :: k in m ==> Entry(k, m[k]) in t)
  }

  // ----- counting -----

  lemma {:induction false} CountUpdate<V>(t: seq<Bucket<V>>, b: nat, x: Bucket<V>, tombs: bool)
    requires b < |t|
    ensures Count(t[b := x], tombs) == Count(t, tombs) - Weight(t[b], tombs) + Weight(x, tombs)
    ensures Count(t, tombs) >= Weight(t[b], tombs)
  {
    var last := |t| - 1;
    if b == last {
      assert t[b := x][..last] == t[..last];
    } else {
      assert t[b := x][..last] == t[..last][b := x];
      CountUpdate(t[..last], b, x, tombs);
    }
  }

  lemma {:induction false} CountNone<V>(t: seq<Bucket<V>>, tombs: bool)
    requires forall b :: 0 <= b < |t| ==> Weight(t[b], tombs) == 0
    ensures Count(t, tombs) == 0
  {
    if t != [] { CountNone(t[..|t| - 1], tombs); }
  }

  // A bucket that is neither entry nor tombstone exists iff the counts leave room.
  lemma {:induction false} EmptyExists<V>(t: seq<Bucket<V>>) returns (e: nat)
    requires Count(t, false) + Count(t, true) < |t|
    ensures e < |t| && t[e].Empty?
  {
    var last := |t| - 1;
    if t[last].Empty? {
      return last;
    }
    e := EmptyExists(t[..last]);
  }

  lemma {:induction false} CountBound<V>(t: seq<Bucket<V>>)
    ensures Count(t, false) + Count(t, true) <= |t|
  {
    if t != [] { CountBound(t[..|t| - 1]); }
  }

  // ----- probing -----

  // Where a probe sequence meets an empty bucket; bounds every probe loop.
  lemma EmptyProbe<V>(t: seq<Bucket<V>>, h: nat) returns (je: nat)
    requires IsPow2(|t|) && Count(t, false) + Count(t, true) < |t|
    ensures je < |t| && t[Slot(h, je, |t|)].Empty?
  {
    var e := EmptyExists(t);
    ProbeVisitsAll(h, |t|, e);
    je :| je < |t| && Slot(h, je, |t|) == e;
  }

  // A probe that reaches an empty bucket without meeting the key proves absence.
  lemma AbsentKey<V>(t: seq<Bucket<V>>, hs: seq<uint32>, hasher: Hasher, key: string, j: nat)
    requires |t| > 0 && WellPlaced(t, hs, hasher)
    requires t[Slot(hasher.Of(key), j, |t|)].Empty?
    requires Missed(t, hasher.Of(key), key, j)
    ensures forall b :: 0 <= b < |t| ==> !Matches(t[b], key)
  {
    var h := hasher.Of(key);
    forall b | 0 <= b < |t| ensures !Matches(t[b], key) {
      if Reached(t, h, b) {
        var k: nat :| ReachedAt(t, h, b, k);
        assert k <= j;
        assert k < j ==> !Matches(t[Slot(h, k, |t|)], key);
      }
    }
  }

  // The first j probes met neither an empty bucket nor the key.
  ghost predicate Missed<V>(t: seq<Bucket<V>>, h: nat, key: string, j: nat)
    requires |t| > 0
  {
    forall i: nat :: i < j ==> !t[Slot(h, i, |t|)].Empty? && !Matches(t[Slot(h, i, |t|)], key)
  }

  // What j probes of an inserting search have established; ft is the first
  // tombstone met, or -1.
  ghost predicate Scanned<V>(t: seq<Bucket<V>>, h: nat, key: string, j: nat, ft: int)
    requires |t| > 0
  {
    && Missed(t, h, key, j)
    && if ft == -1 then forall i: nat :: i < j ==> t[Slot(h, i, |t|)].Entry?
       else 0 <= ft < |t| && FirstFree(t, h, ft)
  }

  lemma ScanStep<V>(t: seq<Bucket<V>>, h: nat, key: string, j: nat, ft: int)
    requires j < |t| && Scanned(t, h, key, j, ft)
    requires !t[Slot(h, j, |t|)].Empty? && !Matches(t[Slot(h, j, |t|)], key)
    ensures Scanned(t, h, key, j + 1, if ft == -1 && t[Slot(h, j, |t|)].Tombstone? then Slot(h, j, |t|) else ft)
  {
    var b := Slot(h, j, |t|);
    if ft == -1 && t[b].Tombstone? {
      assert FirstFreeAt(t, h, b, j);
    }
  }

  lemma ScanStop<V>(t: seq<Bucket<V>>, h: nat, key: string, j: nat, ft: int)
    requires j < |t| && Scanned(t, h, key, j, ft) && t[Slot(h, j, |t|)].Empty?
    ensures FirstFree(t, h, if ft != -1 then ft else Slot(h, j, |t|))
  {
    if ft == -1 {
      assert FirstFreeAt(t, h, Slot(h, j, |t|), j);
    }
  }

  // An inserting search that meets an empty bucket: the key is absent, and the first free bucket known.
  lemma ScanFails<V>(t: seq<Bucket<V>>, hs: seq<uint32>, hasher: Hasher, m: map<string, V>, key: string, j: nat,
                     ft: int)
    requires j < |t| && WellPlaced(t, hs, hasher) && Holds(t, m) && Scanned(t, hasher.Of(key), key, j, ft)
    requires t[Slot(hasher.Of(key), j, |t|)].Empty?
    ensures var dest := if ft != -1 then ft else Slot(hasher.Of(key), j, |t|);
      key !in m && FirstFree(t, hasher.Of(key), dest) && 0 <= dest < |t| && !t[dest].Entry?
  {
    AbsentKey(t, hs, hasher, key, j);
    ScanStop(t, hasher.Of(key), key, j, ft);
    KeyHasBucket(t, m, key);
  }

  lemma KeyHasBucket<V>(t: seq<Bucket<V>>, m: map<string, V>, key: string)
    requires Holds(t, m)
    ensures key in m ==> exists b :: 0 <= b < |t| && Matches(t[b], key)
  {
    if key in m { assert Matches(Entry(key, m[key]), key); }
  }

  // The stored hash decides nothing that the key would not; a match is the key's entry.
  lemma MatchMeans<V>(t: seq<Bucket<V>>, hs: seq<uint32>, hasher: Hasher, m: map<string, V>, key: string, b: nat)
    requires WellPlaced(t, hs, hasher) && Holds(t, m) && b < |t|
    ensures Matches(t[b], key) <==> t[b].Entry? && hs[b] == hasher.Of(key) && t[b].key == key
    ensures Matches(t[b], key) ==> key in m && t[b] == Entry(key, m[key])
  {
  }

  predicate Matches<V>(b: Bucket<V>, key: string) { b.Entry? && b.key == key }

  // Filling the first free bucket of a new key keeps the table sound.
  lemma PlaceEntry<V>(t: seq<Bucket<V>>, hs: seq<uint32>, hasher: Hasher, b: nat, key: string, value: V)
    requires WellPlaced(t, hs, hasher)
    requires b < |t| && FirstFree(t, hasher.Of(key), b)
    requires forall i :: 0 <= i < |t| ==> !Matches(t[i], key)
    ensures WellPlaced(t[b := Entry(key, value)], hs[b := hasher.Of(key)], hasher)
  {
    var j: nat :| FirstFreeAt(t, hasher.Of(key), b, j);
    var t', hs' := t[b := Entry(key, value)], hs[b := hasher.Of(key)];
    forall i | 0 <= i < |t'| && t'[i].Entry? ensures hs'[i] == hasher.Of(t'[i].key) && Reached(t', hs'[i], i) {
      var k: nat := j;
      if i != b { k :| ReachedAt(t, hs[i], i, k); }
      assert ReachedAt(t', hs'[i], i, k);
    }
  }

  lemma TombstoneEntry<V>(t: seq<Bucket<V>>, hs: seq<uint32>, hasher: Hasher, b: nat)
    requires WellPlaced(t, hs, hasher) && b < |t|
    ensures WellPlaced(t[b := Tombstone], hs, hasher)
  {
    var t' := t[b := Tombstone];
    forall i | 0 <= i < |t'| && t'[i].Entry? ensures Reached(t', hs[i], i) {
      var k: nat :| ReachedAt(t, hs[i], i, k);
      assert ReachedAt(t', hs[i], i, k);
    }
  }

  // The stored hash of a bucket without an entry is irrelevant.
  lemma HashScribble<V>(t: seq<Bucket<V>>, hs: seq<uint32>, hasher: Hasher, b: nat, h: uint32)
    requires WellPlaced(t, hs, hasher) && b < |t| && !t[b].Entry?
    ensures WellPlaced(t, hs[b := h], hasher)
  {
  }

  class StringMap<V> {
    const hasher: Hasher
    var table: array<Bucket<V>>
    var hashes: array<uint32>
    var numBuckets: nat
    var numItems: nat
    var numTombstones: nat
    ghost var Contents: map<string, V>

    // Everything except the load thresholds, which an insertion may pass
    // until RehashTable restores them.
    ghost predicate Consistent()
      reads this, table, hashes
    {
      && table.Length == hashes.Length == numBuckets
      && WellPlaced(table[..], hashes[..], hasher)
      && Holds(table[..], Contents)
      && numItems == Count(table[..], false)
      && numTombstones == Count(table[..], true)
    }

    // At most 3/4 of the buckets hold entries and more than 1/8 are empty.
    ghost predicate WithinLoad()
      reads this
    {
      numBuckets > 0 ==>
        numItems * 4 <= numBuckets * 3 && numBuckets > numItems + numTombstones + numBuckets / 8
    }

    ghost predicate Valid()
      reads this, table, hashes
    {
      Consistent() && WithinLoad()
    }

    // A zero size defers the allocation to the first lookup.
    constructor (hash: string -> uint32, reverse: bool, initSize: nat)
      ensures Valid() && Contents == map[] && fresh(table) && fresh(hashes)
      ensures hasher == Hasher(hash, reverse) && numTombstones == 0
      ensures if initSize == 0 then numBuckets == 0 else initSize * 4 < numBuckets * 3
      ensures initSize > 0 ==> IsPow2(numBuckets) && numBuckets <= 2 * (initSize * 4 / 3 + 1)
    {
      hasher := Hasher(hash, reverse);
      table := new Bucket<V>[0];
      hashes := new uint32[0];
      numBuckets, numItems, numTombstones := 0, 0, 0;
      Contents := map[];
      new;
      if initSize != 0 {
        var buckets := GetMinBucketToReserveForEntries(initSize);
        Init(buckets);
      }
    }

    method Init(initSize: nat)
      requires initSize == 0 || IsPow2(initSize)
      modifies this
      ensures Valid() && fresh(table) && fresh(hashes)
      ensures Contents == map[] && numItems == numTombstones == 0
      ensures numBuckets == if initSize != 0 then initSize else 16
    {
      var newNumBuckets := if initSize != 0 then initSize else 16;
      assert IsPow2(newNumBuckets) by { assert IsPow2(1) && IsPow2(2) && IsPow2(4) && IsPow2(8) && IsPow2(16); }
      numItems, numTombstones := 0, 0;
      table := new Bucket<V>[newNumBuckets](_ => Empty);
      hashes := new uint32[newNumBuckets](_ => 0);
      numBuckets := newNumBuckets;
      Contents := map[];
      CountNone(table[..], false);
      CountNone(table[..], true);
    }

    // The bucket a key is in or should go to; its stored hash is set either way.
    method LookupBucketFor(name: string, fullHashValue: uint32) returns (bucketNo: nat)
      requires Valid() && fullHashValue == hasher.hash(name)
      modifies this, hashes
      ensures Valid() && Contents == old(Contents) && numBuckets > 0 && bucketNo < numBuckets
      ensures numItems == old(numItems) && numTombstones == old(numTombstones)
      ensures if old(numBuckets) == 0 then fresh(table) && fresh(hashes) && numBuckets == 16
              else table == old(table) && hashes == old(hashes) && numBuckets == old(numBuckets)
      ensures hashes[bucketNo] == hasher.Of(name)
      ensures hashes[bucketNo] == if hasher.reverse then 0xFFFF_FFFF - fullHashValue else fullHashValue
      ensures name in Contents ==> table[bucketNo] == Entry(name, Contents[name])
      ensures name !in Contents ==> FirstFree(table[..], hasher.Of(name), bucketNo)
    {
      if numBuckets == 0 {
        HoldsNothing(table[..], Contents);
        Init(0);
      }
      bucketNo := ProbeForInsert(name, hasher.Full(fullHashValue));
    }

    method StoreHash(bucketNo: nat, fullHash: uint32)
      requires Valid() && bucketNo < numBuckets && !table[bucketNo].Entry?
      modifies hashes
      ensures Valid() && hashes[bucketNo] == fullHash
    {
      HashScribble(table[..], hashes[..], hasher, bucketNo, fullHash);
      ghost var hs: seq<uint32> := hashes[..];
      hashes[bucketNo] := fullHash;
      assert hashes[..] == hs[bucketNo := fullHash];
    }

    method ProbeForInsert(name: string, fullHash: uint32) returns (bucketNo: nat)
      requires Valid() && numBuckets > 0 && fullHash == hasher.Of(name)
      modifies hashes
      ensures Valid() && bucketNo < numBuckets
      ensures hashes[bucketNo] == fullHash
      ensures name in Contents ==> table[bucketNo] == Entry(name, Contents[name])
      ensures name !in Contents ==> FirstFree(table[..], fullHash, bucketNo)
    {
      bucketNo := fullHash % numBuckets;
      ghost var t := table[..];
      ghost var hs: seq<uint32> := hashes[..];
      ghost var je := EmptyProbe(t, fullHash);
      hide Slot, Scanned, FirstFree, WellPlaced, Holds, Count, Matches;
      ghost var j: nat := 0;
      SlotStep(fullHash, 0, numBuckets);
      var probeAmt: nat := 1;
      var firstTombstone: int := -1;
      while true
        invariant hashes[..] == hs
        invariant probeAmt == j + 1 && j <= je && bucketNo == Slot(fullHash, j, |t|)
        invariant Scanned(t, fullHash, name, j, firstTombstone)
        decreases je - j
      {
        var bucketItem := table[bucketNo];
        MatchMeans(t, hs, hasher, Contents, name, bucketNo);
        if bucketItem.Empty? {
          ScanFails(t, hs, hasher, Contents, name, j, firstTombstone);
          var dest := if firstTombstone != -1 then firstTombstone else bucketNo;
          StoreHash(dest, fullHash);
          return dest;
        }
        if !bucketItem.Tombstone? && hashes[bucketNo] == fullHash && bucketItem.key == name {
          return bucketNo;
        }
        ScanStep(t, fullHash, name, j, firstTombstone);
        if bucketItem.Tombstone? && firstTombstone == -1 {
          firstTombstone := bucketNo;
        }
        SlotStep(fullHash, j, |t|);
        bucketNo := (bucketNo + probeAmt) % numBuckets;
        probeAmt := probeAmt + 1;
        j := j + 1;
      }
    }

    method FindKey(key: string, fullHashValue: uint32) returns (bucket: int)
      requires Valid() && fullHashValue == hasher.hash(key)
      ensures bucket == -1 <==> key !in Contents
      ensures bucket != -1 ==> 0 <= bucket < numBuckets && table[bucket] == Entry(key, Contents[key])
    {
      if numBuckets == 0 {
        return -1;
      }
      var fullHash := hasher.Full(fullHashValue);
      var bucketNo := fullHash % numBuckets;
      ghost var t := table[..];
      ghost var je := EmptyProbe(t, fullHash);
      ghost var j: nat := 0;
      SlotStep(fullHash, 0, numBuckets);
      var probeAmt: nat := 1;
      while true
        invariant probeAmt == j + 1 && j <= je && bucketNo == Slot(fullHash, j, |t|)
        invariant Missed(t, fullHash, key, j)
        decreases je - j
      {
        var bucketItem := table[bucketNo];
        if bucketItem.Empty? {
          AbsentKey(t, hashes[..], hasher, key, j);
          return -1;
        }
        if bucketItem.Tombstone? {
        } else if hashes[bucketNo] == fullHash {
          if bucketItem.key == key {
            return bucketNo;
          }
        }
        SlotStep(fullHash, j, |t|);
        bucketNo := (bucketNo + probeAmt) % numBuckets;
        probeAmt := probeAmt + 1;
        j := j + 1;
      }
    }

    // Returns the removed value; the bucket becomes a tombstone.
    method RemoveKey(key: string) returns (result: Option<V>)
      requires Valid()
      modifies this, table
      ensures Valid() && table == old(table) && hashes == old(hashes) && numBuckets == old(numBuckets)
      ensures Contents == old(Contents) - {key}
      ensures result == if key in old(Contents) then Some(old(Contents)[key]) else None
      ensures numTombstones == old(numTombstones) + if key in old(Contents) then 1 else 0
      ensures numItems == old(numItems) - if key in old(Contents) then 1 else 0
    {
      var bucket := FindKey(key, hasher.hash(key));
      if bucket == -1 {
        assert Contents - {key} == Contents;
        return None;
      }
      ghost var t := table[..];
      result := Some(table[bucket].value);
      table[bucket] := Tombstone;
      numItems := numItems - 1 by { CountUpdate(t, bucket, Tombstone, false); }
      numTombstones := numTombstones + 1;
      Contents := Contents - {key};
      assert table[..] == t[bucket := Tombstone];
      CountUpdate(t, bucket, Tombstone, false);
      CountUpdate(t, bucket, Tombstone, true);
      TombstoneEntry(t, hashes[..], hasher, bucket);
      HoldsRemoved(t, bucket, old(Contents));
    }

    // Grow when more than 3/4 full, rehash in place when at most 1/8 is empty;
    // follows the entry of `bucketNo` to its new bucket.
    method RehashTable(bucketNo: nat) returns (newBucketNo: nat)
      requires Consistent() && numBuckets > 0 && bucketNo < numBuckets
      modifies this
      ensures Valid() && Contents == old(Contents) && numItems == old(numItems)
      ensures (table == old(table) && hashes == old(hashes)) || (fresh(table) && fresh(hashes) && numTombstones == 0)
      ensures numBuckets == if numItems * 4 > old(numBuckets) * 3 then 2 * old(numBuckets) else old(numBuckets)
      ensures old(WithinLoad()) ==>
              table == old(table) && newBucketNo == bucketNo && numTombstones == old(numTombstones)
      ensures old(table[bucketNo]).Entry? ==> newBucketNo < numBuckets && table[newBucketNo] == old(table[bucketNo])
    {
      hide WellPlaced, Count, FirstFree, Holds;
      CountBound(table[..]);
      var newSize;
      if numItems * 4 > numBuckets * 3 {
        newSize := numBuckets * 2;
      } else if numBuckets - (numItems + numTombstones) <= numBuckets / 8 {
        newSize := numBuckets;
      } else {
        return bucketNo;
      }
      newBucketNo := Rebuild(newSize, bucketNo);
    }

    // Both rehashes: the entries move to a fresh table that takes the old one's place.
    method Rebuild(newSize: nat, bucketNo: nat) returns (newBucketNo: nat)
      requires Consistent() && bucketNo < numBuckets && (newSize == numBuckets || newSize == 2 * numBuckets)
      modifies this
      ensures Consistent() && Contents == old(Contents) && numItems == old(numItems)
      ensures fresh(table) && fresh(hashes) && numTombstones == 0 && numBuckets == newSize
      ensures old(table[bucketNo]).Entry? ==> newBucketNo < numBuckets && table[newBucketNo] == old(table[bucketNo])
    {
      Pow2Double(numBuckets);
      hide WellPlaced, Count, IsPow2, Holds;
      var newTable, newHashes;
      newTable, newHashes, newBucketNo := MoveEntries(newSize, bucketNo);
      MovedAll(table[..], newTable[..], newHashes[..], hasher, Contents);
      table, hashes := newTable, newHashes;
      numBuckets, numTombstones := newSize, 0;
    }

    method MoveEntries(newSize: nat, bucketNo: nat)
      returns (newTable: array<Bucket<V>>, newHashes: array<uint32>, newBucketNo: nat)
      requires table.Length == hashes.Length == numBuckets <= newSize && bucketNo < numBuckets
      requires IsPow2(newSize) && WellPlaced(table[..], hashes[..], hasher)
      ensures fresh(newTable) && fresh(newHashes) && newTable.Length == newHashes.Length == newSize
      ensures Moved(table[..], newTable[..], newHashes[..], hasher)
      ensures table[bucketNo].Entry? ==> newBucketNo < newSize && newTable[newBucketNo] == table[bucketNo]
    {
      ghost var t := table[..];
      newBucketNo := bucketNo;
      newTable := new Bucket<V>[newSize](_ => Empty);
      newHashes := new uint32[newSize](_ => 0);
      NoneMoved(newTable[..], newHashes[..], hasher);
      assert t[..0] == [];
      hide Moved, Count, IsPow2, Reached, Slot, NoEmptyBefore;
      var i := 0;
      while i != numBuckets
        modifies newTable, newHashes
        invariant i <= numBuckets
        invariant Moved(t[..i], newTable[..], newHashes[..], hasher)
        invariant bucketNo < i && t[bucketNo].Entry? ==>
          newBucketNo < newSize && newTable[newBucketNo] == t[bucketNo]
      {
        if table[i].Entry? {
          CountPrefix(t, i);
          var newBucket := MoveEntry(i, newTable, newHashes);
          if i == bucketNo {
            newBucketNo := newBucket;
          }
        } else {
          MoveSkip(t, i, newTable[..], newHashes[..], hasher);
        }
        i := i + 1;
      }
      assert t[..i] == t;
    }

    // If the home bucket is not available, probe for a spot and fill it in.
    method MoveEntry(i: nat, newTable: array<Bucket<V>>, newHashes: array<uint32>) returns (newBucket: nat)
      requires i < table.Length == hashes.Length <= newTable.Length && table[i].Entry? && newTable != table
      requires newHashes != hashes && newTable.Length == newHashes.Length
      requires UniqueKeys(table[..]) && hashes[i] == hasher.Of(table[i].key)
      requires Count(table[..i], false) < newTable.Length && Moved(table[..i], newTable[..], newHashes[..], hasher)
      modifies newTable, newHashes
      ensures newBucket < newTable.Length && !old(newTable[newBucket]).Entry?
      ensures newTable[..] == old(newTable[..])[newBucket := table[i]]
      ensures Moved(table[..i + 1], newTable[..], newHashes[..], hasher)
    {
      var fullHash := hashes[i];
      newBucket := ProbeForRehash(newTable, fullHash);
      MoveStep(table[..], i, newTable[..], newHashes[..], hasher, newBucket);
      newTable[newBucket] := table[i];
      newHashes[newBucket] := fullHash;
      assert newHashes[..] == old(newHashes[..])[newBucket := fullHash];
    }

    method ProbeForRehash(newTable: array<Bucket<V>>, fullHash: uint32) returns (newBucket: nat)
      requires IsPow2(newTable.Length)
      requires Count(newTable[..], false) < newTable.Length && Count(newTable[..], true) == 0
      requires forall b :: 0 <= b < newTable.Length ==> !newTable[b].Tombstone?
      ensures newBucket < newTable.Length && FirstFree(newTable[..], fullHash, newBucket)
    {
      hide Slot, Count, IsPow2, FirstFree;
      ghost var t := newTable[..];
      ghost var je := EmptyProbe(t, fullHash);
      ghost var j: nat := 0;
      SlotStep(fullHash, 0, |t|);
      newBucket := fullHash % newTable.Length;
      var probeSize := 1;
      while !newTable[newBucket].Empty?
        invariant probeSize == j + 1 && j <= je && newBucket == Slot(fullHash, j, |t|)
        invariant forall i: nat :: i < j ==> t[Slot(fullHash, i, |t|)].Entry?
        decreases je - j
      {
        SlotStep(fullHash, j, |t|);
        newBucket := (newBucket + probeSize) % newTable.Length;
        probeSize := probeSize + 1;
        j := j + 1;
      }
      FirstFreeFound(t, fullHash, newBucket, j);
    }

    // The header's insertion step: look up, reuse or fill a bucket, rehash.
    method TryInsert(key: string, value: V) returns (bucketNo: nat, inserted: bool)
      requires Valid()
      modifies this, table, hashes
      ensures Valid()
      ensures fresh(table) || table == old(table)
      ensures fresh(hashes) || hashes == old(hashes)
      ensures inserted <==> key !in old(Contents)
      ensures Contents == if inserted then old(Contents)[key := value] else old(Contents)
      ensures bucketNo < numBuckets && table[bucketNo] == Entry(key, Contents[key])
      ensures numItems == old(numItems) + if inserted then 1 else 0
      ensures old(numTombstones) == 0 && numItems * 4 <= old(numBuckets) * 3 ==>
              table == old(table) && numTombstones == 0
    {
      hide WellPlaced, Count, IsPow2;
      bucketNo := LookupBucketFor(key, hasher.hash(key));
      if table[bucketNo].Entry? {
        return bucketNo, false;
      }
      FillBucket(bucketNo, key, value);
      bucketNo := RehashTable(bucketNo);
      inserted := true;
    }

    method FillBucket(bucketNo: nat, key: string, value: V)
      requires Valid() && bucketNo < numBuckets && key !in Contents
      requires hashes[bucketNo] == hasher.Of(key) && FirstFree(table[..], hasher.Of(key), bucketNo)
      modifies this`numTombstones, this`numItems, this`Contents, table
      ensures Consistent() && Contents == old(Contents)[key := value]
      ensures table[bucketNo] == Entry(key, value) && numItems == old(numItems) + 1
      ensures numTombstones == old(numTombstones) - if old(table[bucketNo]).Tombstone? then 1 else 0
      ensures forall b :: 0 <= b < numBuckets && b != bucketNo ==> table[b] == old(table[b])
    {
      ghost var t := table[..];
      PlaceEntry(t, hashes[..], hasher, bucketNo, key, value);
      HoldsAdded(t, bucketNo, key, value, Contents);
      CountUpdate(t, bucketNo, Entry(key, value), false);
      CountUpdate(t, bucketNo, Entry(key, value), true);
      if table[bucketNo].Tombstone? {
        numTombstones := numTombstones - 1;
      }
      table[bucketNo] := Entry(key, value);
      numItems := numItems + 1;
      Contents := Contents[key := value];
      assert table[..] == t[bucketNo := Entry(key, value)];
      assert hashes[..][bucketNo := hasher.Of(key)] == hashes[..];
    }

    // Any sequence of operations answers as the finite map would.
    method Run(ops: seq<Op<V>>) returns (outs: seq<Out<V>>)
      requires Valid()
      modifies this, table, hashes
      ensures Valid()
      ensures Contents == MapAfter(old(Contents), ops) && outs == Answers(old(Contents), ops)
    {
      hide WellPlaced, Count, IsPow2, FirstFree;
      outs := [];
      for i := 0 to |ops|
        invariant Valid()
        invariant fresh(table) || table == old(table)
        invariant fresh(hashes) || hashes == old(hashes)
        invariant Contents == MapAfter(old(Contents), ops[..i]) && outs == Answers(old(Contents), ops[..i])
      {
        assert ops[..i + 1][..i] == ops[..i];
        match ops[i]
        case Insert(key, value) =>
          var _, inserted := TryInsert(key, value);
          outs := outs + [Inserted(inserted)];
        case Find(key) =>
          var bucket := FindKey(key, hasher.hash(key));
          outs := outs + [Found(if bucket == -1 then None else Some(table[bucket].value))];
        case Remove(key) =>
          var result := RemoveKey(key);
          outs := outs + [Found(result)];
      }
      assert ops[..|ops|] == ops;
    }

    // The reservation of the constructor holds what it was asked to hold: no
    // insertion of that many keys moves the table.
    method FillReserved(pairs: seq<(string, V)>)
      requires Valid() && Contents == map[] && numTombstones == 0 && |pairs| * 4 <= numBuckets * 3
      modifies this, table, hashes
      ensures Valid() && table == old(table)
      ensures Contents == MapOf(pairs)
    {
      CountNone(table[..], false);
      for i := 0 to |pairs|
        invariant Valid() && numTombstones == 0 && numItems <= i
        invariant table == old(table) && (fresh(hashes) || hashes == old(hashes))
        invariant numBuckets == old(numBuckets) && Contents == MapOf(pairs[..i])
      {
        assert pairs[..i + 1][..i] == pairs[..i];
        var _, _ := TryInsert(pairs[i].0, pairs[i].1);
      }
      assert pairs[..|pairs|] == pairs;
    }
  }

  datatype Op<V> = Insert(key: string, value: V) | Find(key: string) | Remove(key: string)
  datatype Out<V> = Inserted(isNew: bool) | Found(value: Option<V>)

  ghost function Get<V>(m: map<string, V>, k: string): Option<V> {
    if k in m then Some(m[k]) else None
  }

  ghost function MapAfter<V>(m: map<string, V>, ops: seq<Op<V>>): map<string, V> {
    if ops == [] then m
    else
      var before := MapAfter(m, ops[..|ops| - 1]);
      match ops[|ops| - 1]
      case Insert(k, v) => if k in before then before else before[k := v]
      case Find(k) => before
      case Remove(k) => before - {k}
  }

  ghost function Answers<V>(m: map<string, V>, ops: seq<Op<V>>): seq<Out<V>> {
    if ops == [] then []
    else
      var init := ops[..|ops| - 1];
      var before := MapAfter(m, init);
      var answer := match ops[|ops| - 1]
        case Insert(k, _) => Inserted(k !in before)
        case Find(k) => Found(Get(before, k))
        case Remove(k) => Found(Get(before, k));
      Answers(m, init) + [answer]
  }

  // The first value given for a key is the one kept.
  ghost function MapOf<V>(pairs: seq<(string, V)>): map<string, V> {
    if pairs == [] then map[]
    else
      var before, (k, v) := MapOf(pairs[..|pairs| - 1]), pairs[|pairs| - 1];
      if k in before then before else before[k := v]
  }

  // ----- sizes -----

  // LLVM's NextPowerOf2: the least power of two above a.
  method NextPowerOf2(a: nat) returns (p: nat)
    ensures IsPow2(p) && a < p && p <= 2 * a + 1 && (a > 0 ==> p <= 2 * a)
  {
    p := 1;
    while p <= a
      invariant IsPow2(p) && p <= 2 * a + 1 && (a > 0 ==> p <= 2 * a)
      decreases a - p
    {
      Pow2Double(p);
      p := 2 * p;
    }
  }

  method GetMinBucketToReserveForEntries(numEntries: nat) returns (buckets: nat)
    ensures numEntries == 0 ==> buckets == 0
    ensures numEntries > 0 ==> IsPow2(buckets) && numEntries * 4 < buckets * 3
    ensures numEntries > 0 ==> numEntries * 4 / 3 + 1 < buckets <= 2 * (numEntries * 4 / 3 + 1)
  {
    if numEntries == 0 {
      return 0;
    }
    buckets := NextPowerOf2(numEntries * 4 / 3 + 1);
  }

  // The source multiplies in 32 bits; that is the number above exactly below 2^30 entries.
  lemma ReserveWidth(numEntries: uint32)
    ensures Wrap(numEntries * 4) / 3 + 1 == numEntries * 4 / 3 + 1 <==> numEntries < 0x4000_0000
  {
    if numEntries < 0x4000_0000 {
      NoWrap(numEntries * 4);
    } else {
      assert Wrap(numEntries * 4) <= numEntries * 4 - 0x1_0000_0000;
    }
  }

  function Wrap(x: nat): uint32 { x % 0x1_0000_0000 }

  // Loads an insertion can produce before RehashTable looks at them.
  ghost predicate LoadOnInsert(items: nat, numBuckets: nat) {
    items * 4 <= numBuckets * 3 + 4 && items <= numBuckets
  }

  ghost predicate GrowthTestAgrees(items: nat, numBuckets: nat) {
    Wrap(items * 4) > Wrap(numBuckets * 3) <==> items * 4 > numBuckets * 3
  }

  // The source computes the growth test in 32-bit unsigned arithmetic; it
  // agrees with the test above exactly up to 2^30 buckets.
  lemma GrowthTestWidth(numBuckets: uint32)
    requires IsPow2(numBuckets)
    ensures (forall items: nat :: LoadOnInsert(items, numBuckets) ==> GrowthTestAgrees(items, numBuckets))
      <==> numBuckets <= 0x4000_0000
  {
    if numBuckets > 0x4000_0000 {
      Pow2Constants();
      Pow2Gap(0x4000_0000, numBuckets);
      if numBuckets > 0x8000_0000 { Pow2Gap(0x8000_0000, numBuckets); }
      GrowthTestFails();
    } else {
      forall items: nat | LoadOnInsert(items, numBuckets) ensures GrowthTestAgrees(items, numBuckets) {
        NoWrap(items * 4);
        NoWrap(numBuckets * 3);
      }
    }
  }

  lemma NoWrap(x: uint32)
    ensures Wrap(x) == x
  {
  }

  lemma GrowthTestFails()
    ensures LoadOnInsert(0x2000_0001, 0x8000_0000) && !GrowthTestAgrees(0x2000_0001, 0x8000_0000)
  {
  }

  // Distinct powers of two are at least a factor two apart.
  lemma {:induction false} Pow2Gap(p: nat, q: nat)
    requires IsPow2(p) && IsPow2(q) && p < q
    ensures 2 * p <= q
  {
    if p > 1 { Pow2Gap(p / 2, q / 2); }
  }

  // ----- rehashing -----

  // nt holds exactly the entries of the scanned prefix p, and no tombstones.
  ghost predicate Moved<V>(p: seq<Bucket<V>>, nt: seq<Bucket<V>>, nhs: seq<uint32>, hasher: Hasher) {
    && WellPlaced(nt, nhs, hasher)
    && (forall b :: 0 <= b < |p| && p[b].Entry? ==> p[b] in nt)
    && (forall b :: 0 <= b < |nt| && nt[b].Entry? ==> nt[b] in p)
    && (forall b :: 0 <= b < |nt| ==> !nt[b].Tombstone?)
    && Count(nt, false) == Count(p, false) && Count(nt, true) == 0
  }

  lemma {:induction false} CountPrefix<V>(t: seq<Bucket<V>>, i: nat)
    requires i < |t| && t[i].Entry?
    ensures Count(t[..i], false) < Count(t, false) <= |t|
  {
    var last := |t| - 1;
    CountBound(t);
    if i < last {
      CountPrefix(t[..last], i);
      assert t[..last][..i] == t[..i];
    }
  }

  lemma MoveStep<V>(t: seq<Bucket<V>>, i: nat, nt: seq<Bucket<V>>, nhs: seq<uint32>, hasher: Hasher, b: nat)
    requires i < |t| && t[i].Entry? && UniqueKeys(t) && Moved(t[..i], nt, nhs, hasher)
    requires b < |nt| && FirstFree(nt, hasher.Of(t[i].key), b)
    ensures Moved(t[..i + 1], nt[b := t[i]], nhs[b := hasher.Of(t[i].key)], hasher)
  {
    var e, p, p' := t[i], t[..i], t[..i + 1];
    var nt', nhs' := nt[b := e], nhs[b := hasher.Of(e.key)];
    forall c | 0 <= c < |nt| ensures !Matches(nt[c], e.key) {
      if nt[c].Entry? { assert nt[c] in p; }
    }
    PlaceEntry(nt, nhs, hasher, b, e.key, e.value);
    CountUpdate(nt, b, e, false);
    CountUpdate(nt, b, e, true);
    assert p'[..|p'| - 1] == p;
    forall c | 0 <= c < |p'| && p'[c].Entry? ensures p'[c] in nt' {
      if c == i {
        assert nt'[b] == e;
      } else {
        var d :| 0 <= d < |nt| && nt[d] == p[c];
        assert nt'[d] == p'[c];
      }
    }
    forall c | 0 <= c < |nt'| && nt'[c].Entry? ensures nt'[c] in p' {
      if c != b { assert nt[c] in p && p <= p'; }
    }
  }

  lemma NoneMoved<V>(nt: seq<Bucket<V>>, nhs: seq<uint32>, hasher: Hasher)
    requires |nt| == |nhs| && (|nt| == 0 || IsPow2(|nt|)) && forall b :: 0 <= b < |nt| ==> nt[b].Empty?
    ensures Moved([], nt, nhs, hasher)
  {
    CountNone(nt, false);
    CountNone(nt, true);
  }

  lemma MoveSkip<V>(t: seq<Bucket<V>>, i: nat, nt: seq<Bucket<V>>, nhs: seq<uint32>, hasher: Hasher)
    requires i < |t| && !t[i].Entry? && Moved(t[..i], nt, nhs, hasher)
    ensures Moved(t[..i + 1], nt, nhs, hasher)
  {
    assert t[..i + 1] == t[..i] + [t[i]];
    assert t[..i + 1][..i] == t[..i];
  }

  lemma MovedAll<V>(t: seq<Bucket<V>>, nt: seq<Bucket<V>>, nhs: seq<uint32>, hasher: Hasher, m: map<string, V>)
    requires Moved(t, nt, nhs, hasher) && Holds(t, m)
    ensures Holds(nt, m)
  {
    forall k | k in m ensures Entry(k, m[k]) in nt {
      var i :| 0 <= i < |t| && t[i] == Entry(k, m[k]);
      assert t[i] in nt;
    }
    forall b | 0 <= b < |nt| && nt[b].Entry? ensures nt[b].key in m && m[nt[b].key] == nt[b].value {
      var i :| 0 <= i < |t| && t[i] == nt[b];
    }
  }

  lemma HoldsNothing<V>(t: seq<Bucket<V>>, m: map<string, V>)
    requires Holds(t, m) && t == []
    ensures m == map[]
  {
    assert m.Keys == {};
  }

  lemma HoldsRemoved<V>(t: seq<Bucket<V>>, b: nat, m: map<string, V>)
    requires Holds(t, m) && UniqueKeys(t) && b < |t| && t[b].Entry?
    ensures Holds(t[b := Tombstone], m - {t[b].key})
  {
    var t' := t[b := Tombstone];
    forall k | k in m - {t[b].key} ensures Entry(k, m[k]) in t' {
      var i :| 0 <= i < |t| && t[i] == Entry(k, m[k]);
      assert t'[i] == t[i];
    }
  }

  lemma HoldsAdded<V>(t: seq<Bucket<V>>, b: nat, key: string, value: V, m: map<string, V>)
    requires Holds(t, m) && b < |t| && !t[b].Entry? && key !in m
    ensures Holds(t[b := Entry(key, value)], m[key := value])
  {
    var t' := t[b := Entry(key, value)];
    assert t'[b] == Entry(key, value);
    forall k | k in m ensures Entry(k, m[k]) in t' {
      var i :| 0 <= i < |t| && t[i] == Entry(k, m[k]);
      assert t'[i] == t[i];
    }
  }
}
