/**
 * The chained hash table of the drwho application (apps/drwho/Hash_Table.cpp)
 * and its built-in iterator: an array of bucket heads, each the start of a
 * chain linked through `next_`, walked one node per call with the two
 * cursor fields `current_index` and `current_ptr`.
 *
 * A chain is a sequence of records (the empty sequence is a null head), and
 * `current_ptr` is the part of a chain that starts at the node it points to.
 */
module DrwhoHashTable {
  import opened Optional

  /** All chains of `s` one after the other: the order the iterator visits nodes in. */
  function Flatten<R>(s: seq<seq<R>>): seq<R>
  {
    if s == [] then [] else s[0] + Flatten(s[1..])
  }

  lemma {:induction false} FlattenAppend<R>(a: seq<seq<R>>, b: seq<seq<R>>)
    ensures Flatten(a + b) == Flatten(a) + Flatten(b)
  {
    if a != [] {
      assert (a + b)[0] == a[0] && (a + b)[1..] == a[1..] + b;
      FlattenAppend(a[1..], b);
      assert Flatten(a + b) == a[0] + Flatten(a[1..] + b);
    } else {
      assert a + b == b;
    }
  }

  /** Skipping empty buckets does not change what remains to be visited. */
  lemma {:induction false} FlattenSkipEmpty<R>(s: seq<seq<R>>, from: nat, to: nat)
    requires from <= to <= |s|
    requires forall j :: from <= j < to ==> s[j] == []
    ensures Flatten(s[from..]) == Flatten(s[to..])
    decreases |s| - from
  {
    if from < to {
      assert s[from..][1..] == s[from + 1..];
      FlattenSkipEmpty(s, from + 1, to);
    }
  }

  /** Where the chain of bucket k starts among all visited nodes. */
  function Offset<R>(s: seq<seq<R>>, k: nat): nat
    requires k <= |s|
  {
    |Flatten(s[..k])|
  }

  lemma OffsetStep<R>(s: seq<seq<R>>, k: nat)
    requires k < |s|
    ensures Flatten(s[..k + 1]) == Flatten(s[..k]) + s[k]
    ensures Offset(s, k + 1) == Offset(s, k) + |s[k]|
  {
    assert s[..k + 1] == s[..k] + [s[k]];
    FlattenAppend(s[..k], [s[k]]);
    assert Flatten([s[k]]) == s[k] + Flatten([s[k]][1..]);
    assert [s[k]][1..] == [];
  }

  /**
   * Node p of bucket k is visited at position Offset(s, k) + p of a pass;
   * with OffsetsIncrease this makes every node appear in a pass exactly once.
   */
  lemma {:induction false} FlattenPosition<R>(s: seq<seq<R>>, k: nat, p: nat)
    requires k < |s| && p < |s[k]|
    ensures Offset(s, k) + p < |Flatten(s)|
    ensures Flatten(s)[Offset(s, k) + p] == s[k][p]
  {
    OffsetStep(s, k);
    assert s == s[..k + 1] + s[k + 1..];
    FlattenAppend(s[..k + 1], s[k + 1..]);
  }

  /** Distinct nodes are visited at distinct positions. */
  lemma {:induction false} OffsetsIncrease<R>(s: seq<seq<R>>, k1: nat, p1: nat, k2: nat, p2: nat)
    requires k1 < |s| && p1 < |s[k1]| && k2 < |s| && p2 < |s[k2]|
    requires (k1, p1) != (k2, p2)
    ensures Offset(s, k1) + p1 != Offset(s, k2) + p2
    decreases if k1 < k2 then k2 - k1 else k1 - k2
  {
    if k1 < k2 {
      OffsetMonotone(s, k1 + 1, k2);
      OffsetStep(s, k1);
    } else if k2 < k1 {
      OffsetMonotone(s, k2 + 1, k1);
      OffsetStep(s, k2);
    }
  }

  lemma {:induction false} OffsetMonotone<R>(s: seq<seq<R>>, i: nat, j: nat)
    requires i <= j <= |s|
    ensures Offset(s, i) <= Offset(s, j)
    decreases |s| - i
  {
    if i < j {
      OffsetStep(s, i);
      OffsetMonotone(s, i + 1, j);
    }
  }

  /**
   * When buckets from..k-1 are empty and bucket k is not, the nodes left
   * from `from` on are the chain of k followed by everything after k.
   */
  lemma FoundBucket<R>(s: seq<seq<R>>, from: nat, k: nat)
    requires from <= k < |s| && s[k] != []
    requires forall j :: from <= j < k ==> s[j] == []
    ensures Flatten(s[from..]) == [s[k][0]] + (s[k][1..] + Flatten(s[k + 1..]))
  {
    FlattenSkipEmpty(s, from, k);
    assert s[k..][1..] == s[k + 1..];
  }

  /**
   * What a scan from bucket `start` leaves: when it finds nothing, no node
   * was left from `start` on; when it returns the head of bucket index-1 and
   * leaves `ptr` at the head's successor, the nodes left from `start` on are
   * that head, then `ptr`, then the buckets from `index` on.
   */
  lemma ScanFinds<R>(s: seq<seq<R>>, start: nat, r: Option<R>, index: int, ptr: seq<R>)
    requires start <= |s|
    requires r == None <==> forall j :: start <= j < |s| ==> s[j] == []
    requires r != None ==>
      && start < index <= |s| && (forall j :: start <= j < index - 1 ==> s[j] == [])
      && s[index - 1] != [] && r == Some(s[index - 1][0]) && ptr == s[index - 1][1..]
    ensures r == None ==> Flatten(s[start..]) == []
    ensures r != None ==> 0 <= index <= |s| && Flatten(s[start..]) == [r.value] + (ptr + Flatten(s[index..]))
  {
    if r == None {
      FlattenSkipEmpty(s, start, |s|);
      assert s[|s|..] == [];
    } else {
      FoundBucket(s, start, index - 1);
    }
  }

  class HashTable<R> {
    const hashTableSize: nat
    const hashTable: array<seq<R>>
    var currentIndex: int
    var currentPtr: seq<R>

    ghost predicate Valid()
      reads this
    {
      && hashTable.Length == hashTableSize
      && -1 <= currentIndex <= hashTableSize
      && (currentIndex == -1 ==> currentPtr == [])
    }

    /** The bucket the next scan starts from: a finished pass restarts at 0. */
    ghost function ScanStart(): nat
      reads this
      requires Valid()
    {
      if currentIndex == -1 then 0 else currentIndex
    }

    /** The nodes the coming calls return, in order, before the next null. */
    ghost function Remaining(): seq<R>
      reads this, hashTable
      requires Valid()
    {
      currentPtr + Flatten(hashTable[ScanStart()..])
    }

    /** `Hash_Table::Hash_Table`: `size` buckets (HASH_TABLE_SIZE), all null, cursors at 0. */
    constructor (size: nat)
      ensures Valid() && fresh(hashTable)
      ensures hashTableSize == size && forall i :: 0 <= i < size ==> hashTable[i] == []
      ensures currentIndex == 0 && currentPtr == []
      ensures Remaining() == []
    {
      hashTableSize := size;
      hashTable := new seq<R>[size](_ => []);
      currentIndex := 0;
      currentPtr := [];
      new;
      FlattenSkipEmpty(hashTable[..], 0, size);
    }

    /**
     * The effect of one `get_next_entry` call: the first remaining node, or
     * null with `current_index` -1 once none remain, after which the
     * remaining nodes are a whole fresh pass.
     */
    twostate predicate NextEntry(new r: Option<R>)
      reads this, hashTable
      requires old(Valid()) && Valid()
    {
      && (old(Remaining()) == [] ==> r == None && currentIndex == -1 && Remaining() == Flatten(hashTable[..]))
      && (old(Remaining()) != [] ==> r == Some(old(Remaining())[0]) && Remaining() == old(Remaining())[1..])
    }

    /**
     * The cursor fields after one `get_next_entry` call. With a pending chain
     * it returns its node and moves along `next_`; otherwise it scans from
     * `current_index` (from 0 after a finished pass) for the next non-null
     * bucket, returns its head and leaves `current_index` one past it and
     * `current_ptr` at the head's `next_`; when no bucket is left it returns
     * null with `current_index` -1.
     */
    twostate predicate CursorStep(new r: Option<R>)
      reads this, hashTable
      requires old(Valid())
    {
      && (old(currentPtr) != [] ==>
            r == Some(old(currentPtr)[0]) && currentPtr == old(currentPtr)[1..] && currentIndex == old(currentIndex))
      && (old(currentPtr) == [] ==>
            var start := old(ScanStart());
            && (r == None <==> forall j :: start <= j < hashTableSize ==> hashTable[j] == [])
            && (r == None ==> currentIndex == -1 && currentPtr == [])
            && (r != None ==>
                  start < currentIndex <= hashTableSize
                  && (forall j :: start <= j < currentIndex - 1 ==> hashTable[j] == [])
                  && hashTable[currentIndex - 1] != []
                  && r == Some(hashTable[currentIndex - 1][0])
                  && currentPtr == hashTable[currentIndex - 1][1..]))
    }

    /** `Hash_Table::get_next_entry`. The buckets are never written. */
    method GetNextEntry() returns (r: Option<R>)
      requires Valid()
      modifies this
      ensures Valid() && NextEntry(r) && CursorStep(r)
      ensures hashTable[..] == old(hashTable[..])
    {
      ghost var pending := Remaining();
      if currentIndex == -1 {
        currentIndex := 0;
      }
      if currentPtr == [] {
        ghost var start := currentIndex;
        assert pending == Flatten(hashTable[..][start..]);
        r := ScanBuckets();
        ScanFinds(hashTable[..], start, r, currentIndex, currentPtr);
      } else {
        r := Some(currentPtr[0]);
        currentPtr := currentPtr[1..];
      }
    }

    /**
     * The `for` loop of get_next_entry: from `current_index` on, the first
     * non-null bucket's head, with `current_index` left one past it, or
     * null with `current_index` -1 when every bucket left is null.
     */
    method ScanBuckets() returns (r: Option<R>)
      requires Valid() && currentIndex >= 0 && currentPtr == []
      modifies this
      ensures Valid() && CursorStep(r)
      ensures hashTable[..] == old(hashTable[..])
    {
      ghost var start := currentIndex;
      while currentIndex < hashTableSize
        invariant start <= currentIndex <= hashTableSize
        invariant forall j :: start <= j < currentIndex ==> hashTable[j] == []
        invariant currentPtr == []
      {
        if hashTable[currentIndex] != [] {
          var frp := hashTable[currentIndex];
          currentIndex := currentIndex + 1;
          currentPtr := frp[1..];
          return Some(frp[0]);
        }
        currentIndex := currentIndex + 1;
      }
      currentIndex := -1;
      return None;
    }

    /** `Hash_Table::get_each_entry`: the same call as get_next_entry. */
    method GetEachEntry() returns (r: Option<R>)
      requires Valid()
      modifies this
      ensures Valid() && NextEntry(r) && CursorStep(r)
      ensures hashTable[..] == old(hashTable[..])
    {
      r := GetNextEntry();
    }
  }
}
