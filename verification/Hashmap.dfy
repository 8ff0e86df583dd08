/** The hashmap object: bucket and distance arrays changed in place. */
module Hashmaps {
  import opened Ring
  import opened HashTable
  import opened RobinHood
  import opened Lookup
  import opened Deletion
  import opened Growth
  import opened Rehash
  import opened AssocSpec
  import opened Iteration
  import opened Wrappers

  class Iterator {
    var idx: nat
    var nextKey: nat

    constructor ()
      ensures idx == IDX_FIRST
    {
      idx, nextKey := IDX_FIRST, NULL;
    }
  }

  class Hashmap {
    const kind: Kind
    const ops: HashOps
    const sharedHashKey: nat

    var hasIndirect: bool
    var indirectHashKey: nat
    var slots: array<Entry>  // the buckets, then IDX_PUT and IDX_TMP
    var dibs: array<DibRaw>
    var nEntries: nat
    var idxLowestEntry: nat
    var head: nat
    var tail: nat
    ghost var order: seq<nat>  // the used slots in insertion order

    ghost function T(): Table
      reads this, slots, dibs
    {
      Table(slots[..], dibs[..], head, tail, order)
    }

    function Hash(): Hasher
      reads this
    {
      Hasher(ops, if hasIndirect then indirectHashKey else sharedHashKey)
    }

    predicate IsOrdered() {
      kind == Ordered
    }

    ghost predicate LowestOk()
      reads this, dibs
    {
      hasIndirect ==> forall i :: 0 <= i < dibs.Length && i < idxLowestEntry ==> dibs[i] == DIB_RAW_FREE
    }

    method BucketCalculateDib(idx: nat, raw: DibRaw) returns (dib: nat)
      requires Shape(T()) && idx < dibs.Length && raw == dibs[idx] <= DIB_RAW_OVERFLOW
      requires raw == Raw(DibAt(Hash(), T(), idx))
      ensures dib == DibAt(Hash(), T(), idx) == Dibs(Hash(), T())[idx]
    {
      if raw < DIB_RAW_OVERFLOW {
        return raw;
      }
      return Dist(dibs.Length, idx, Hash().Home(dibs.Length, slots[idx].key));
    }

    method BucketSetDib(idx: nat, dib: nat)
      requires idx < dibs.Length
      modifies dibs
      ensures dibs[..] == old(dibs[..])[idx := Raw(dib)]
    {
      dibs[idx] := if dib < DIB_RAW_OVERFLOW then dib else DIB_RAW_OVERFLOW;
    }

    method BucketMoveEntry(from: nat, to: nat, ghost k: nat)
      requires Shape(T()) && List(IsOrdered(), T())
      requires k < |order| && order[k] == from && to < slots.Length && to !in order
      modifies this`head, this`tail, this`order, slots
      ensures Move.requires(old(slots[..]), IsOrdered(), from, to)
      ensures T() == MoveTo(old(T()), IsOrdered(), k, to)
    {
      assert IsOrdered() ==> LinkedAt(slots[..], order, k);
      slots[to] := slots[from];
      if kind == Ordered {
        var next, prev := slots[to].next, slots[to].prev;
        if next != IDX_NIL {
          slots[next] := slots[next].(prev := to);
        }
        if prev != IDX_NIL {
          slots[prev] := slots[prev].(next := to);
        }
        head := if head == from then to else head;
        tail := if tail == from then to else tail;
      }
      order := order[k := to];
    }

    /** Exchanges bucket `idx` with IDX_PUT by way of IDX_TMP. */
    method SwapWithPut(idx: nat, ghost j: nat, ghost k: nat)
      requires Shape(T()) && List(IsOrdered(), T()) && idx < dibs.Length && dibs.Length + 1 !in order
      requires j < |order| && k < |order| && order[j] == idx && order[k] == dibs.Length
      modifies this`head, this`tail, this`order, slots
      ensures Exchanged(old(T()), T(), idx, j, k) && List(IsOrdered(), T())
    {
      var n := dibs.Length;
      ghost var t := T();
      BucketMoveEntry(idx, n + 1, j);
      ghost var t1 := T();
      MoveToKeeps(t, IsOrdered(), j, n + 1);
      BucketMoveEntry(n, idx, k);
      ghost var t2 := T();
      MoveToKeeps(t1, IsOrdered(), k, idx);
      BucketMoveEntry(n + 1, n, j);
      ThreeMovesExchange(t, t1, t2, T(), IsOrdered(), idx, j, k);
    }

    /** Finds a bucket for the entry in IDX_PUT, starting at its initial bucket
        and swapping it with wealthier entries on the way. `f` is some bucket
        that is free or not rehashed yet, `at` the bucket where the scan ended. */
    method PutRobinHood(start: nat, ghost f: nat) returns (displaced: bool, ghost at: nat)
      requires Core(Hash(), IsOrdered(), T()) && dibs.Length in order && LowestOk()
      requires start == Hash().Home(dibs.Length, slots[dibs.Length].key)
      requires f < dibs.Length && dibs[f] >= DIB_RAW_REHASH
      modifies this`head, this`tail, this`order, this`idxLowestEntry, slots, dibs
      ensures Core(Hash(), IsOrdered(), T()) && T().Contents() == old(T().Contents()) && LowestOk()
      ensures displaced <==> dibs.Length in order
      ensures at < dibs.Length && old(dibs[at]) >= DIB_RAW_REHASH && dibs[at] <= DIB_RAW_OVERFLOW
      ensures displaced <==> old(dibs[at]) == DIB_RAW_REHASH
      ensures SameUse(old(dibs[..]), dibs[..][at := old(dibs[at])])
      ensures HasStop(Hash(), T())
    {
      hide Smooth, RawOk, FreeIsZero, KeysDiffer, Linked, DibAt, Slots, Tracks, HasStop;
      var idx: nat, distance: nat := start, 0;
      ghost var k: nat :| 0 <= k < |order| && order[k] == dibs.Length;
      ProbeStarts(Hash(), IsOrdered(), T(), k, f);
      while dibs[idx] != DIB_RAW_FREE && dibs[idx] != DIB_RAW_REHASH
        invariant Probing(Hash(), IsOrdered(), T(), k, f, idx, distance)
        invariant T().Contents() == old(T().Contents())
        invariant SameUse(old(dibs[..]), dibs[..]) && LowestOk()
        decreases Dist(dibs.Length, f, idx)
      {
        distance, k := ProbeStep(idx, distance, k, f);
        idx := Next(dibs.Length, idx);
        distance := distance + 1;
      }
      displaced, at := dibs[idx] == DIB_RAW_REHASH, idx;
      if displaced {
        PutAtRehash(idx, distance, k, f);
      } else {
        PutAtFree(idx, distance, k, f);
      }
    }

    /** Passes one used bucket; if its entry is wealthier, swaps it into IDX_PUT
        and goes on with its distance. */
    method ProbeStep(idx: nat, distance: nat, ghost k: nat, ghost f: nat) returns (d: nat, ghost j: nat)
      requires Probing(Hash(), IsOrdered(), T(), k, f, idx, distance) && LowestOk()
      requires dibs[idx] <= DIB_RAW_OVERFLOW
      modifies this`head, this`tail, this`order, slots, dibs
      ensures Probing(Hash(), IsOrdered(), T(), j, f, Next(dibs.Length, idx), d + 1)
      ensures T().Contents() == old(T().Contents())
      ensures SameUse(old(dibs[..]), dibs[..]) && LowestOk()
      ensures Dist(dibs.Length, f, Next(dibs.Length, idx)) < Dist(dibs.Length, f, idx)
    {
      hide Smooth, RawOk, FreeIsZero, KeysDiffer, Linked, DibAt, Slots, Tracks;
      RawOkAt(Hash(), T(), idx);
      var dib := BucketCalculateDib(idx, dibs[idx]);
      if dib < distance {
        j := SwapProbe(idx, distance, k, f);
        return dib, j;
      }
      ProbePasses(Hash(), IsOrdered(), T(), k, f, idx, distance);
      return distance, k;
    }

    /** Found a wealthier entry. */
    method SwapProbe(idx: nat, distance: nat, ghost k: nat, ghost f: nat) returns (ghost j: nat)
      requires Probing(Hash(), IsOrdered(), T(), k, f, idx, distance) && LowestOk()
      requires dibs[idx] <= DIB_RAW_OVERFLOW && Dibs(Hash(), T())[idx] < distance
      modifies this`head, this`tail, this`order, slots, dibs
      ensures Probing(Hash(), IsOrdered(), T(), j, f, Next(dibs.Length, idx), old(Dibs(Hash(), T())[idx]) + 1)
      ensures T().Contents() == old(T().Contents())
      ensures dibs[..] == old(dibs[..])[idx := Raw(distance)] && LowestOk()
      ensures Dist(dibs.Length, f, Next(dibs.Length, idx)) < Dist(dibs.Length, f, idx)
    {
      hide Smooth, RawOk, FreeIsZero, KeysDiffer, Linked, DibAt;
      ghost var t := T();
      j :| 0 <= j < |order| && order[j] == idx;
      BucketSetDib(idx, distance);
      SwapWithPut(idx, j, k);
      ProbeSwaps(Hash(), IsOrdered(), t, T(), j, k, f, idx, distance);
    }

    method LowerLowest(idx: nat)
      requires idx < dibs.Length && LowestOk()
      modifies this`idxLowestEntry
      ensures LowestOk() && (hasIndirect ==> idxLowestEntry <= idx)
    {
      if hasIndirect && idxLowestEntry > idx {
        idxLowestEntry := idx;
      }
    }

    /** A bucket comes into use. */
    method UseBucket(idx: nat, distance: nat)
      requires idx < dibs.Length && LowestOk()
      modifies this`idxLowestEntry, dibs
      ensures LowestOk() && dibs[..] == old(dibs[..])[idx := Raw(distance)]
    {
      LowerLowest(idx);
      BucketSetDib(idx, distance);
    }

    /** The scan ends at a free bucket. */
    method PutAtFree(idx: nat, distance: nat, ghost k: nat, ghost f: nat)
      requires Probing(Hash(), IsOrdered(), T(), k, f, idx, distance) && LowestOk()
      requires dibs[idx] == DIB_RAW_FREE
      modifies this`head, this`tail, this`order, this`idxLowestEntry, slots, dibs
      ensures Core(Hash(), IsOrdered(), T()) && HasStop(Hash(), T()) && dibs.Length !in order
      ensures T().Contents() == old(T().Contents()) && LowestOk()
      ensures dibs[..] == old(dibs[..])[idx := Raw(distance)]
    {
      hide Smooth, RawOk, FreeIsZero, KeysDiffer, Linked, DibAt, HasStop;
      ghost var t := T();
      UseBucket(idx, distance);
      MoveToKeeps(T(), IsOrdered(), k, idx);
      BucketMoveEntry(dibs.Length, idx, k);
      ProbeFills(Hash(), IsOrdered(), t, T(), k, f, idx, distance);
    }

    /** The scan ends at an entry that is to be rehashed: it goes to IDX_PUT. */
    method PutAtRehash(idx: nat, distance: nat, ghost k: nat, ghost f: nat)
      requires Probing(Hash(), IsOrdered(), T(), k, f, idx, distance) && LowestOk()
      requires dibs[idx] == DIB_RAW_REHASH
      modifies this`head, this`tail, this`order, this`idxLowestEntry, slots, dibs
      ensures Core(Hash(), IsOrdered(), T()) && HasStop(Hash(), T()) && dibs.Length in order
      ensures T().Contents() == old(T().Contents()) && LowestOk()
      ensures dibs[..] == old(dibs[..])[idx := Raw(distance)]
    {
      hide Smooth, RawOk, FreeIsZero, KeysDiffer, Linked, DibAt, HasStop;
      ghost var t := T();
      ghost var j: nat :| 0 <= j < |order| && order[j] == idx;
      UseBucket(idx, distance);
      SwapWithPut(idx, j, k);
      ProbeDisplaces(Hash(), IsOrdered(), t, T(), j, k, f, idx, distance);
    }

    // ----- lookup -----

    /** Finds the bucket of a key; `a` is its place in the contents. */
    method BucketScan(key: nat) returns (idx: nat, ghost a: nat)
      requires Settled(Hash(), IsOrdered(), T())
      ensures idx == IDX_NIL ==> Absent(ops, T().Contents(), key)
      ensures idx != IDX_NIL ==>
        idx < dibs.Length && a < |order| && order[a] == idx && Stores(ops, T().Contents(), key, a) &&
        T().Contents()[a] == slots[idx].KeyValue()
    {
      hide Smooth, RawOk, FreeIsZero, KeysDiffer, Linked, DibAt, Slots, Tracks, HasStop;
      idx := Hash().Home(dibs.Length, key);
      var distance := 0;
      ScanStarts(Hash(), IsOrdered(), T(), key);
      while true
        invariant Scanning(Hash(), IsOrdered(), T(), key, idx, distance)
        decreases dibs.Length - distance
      {
        if dibs[idx] == DIB_RAW_FREE {
          ScanMisses(Hash(), IsOrdered(), T(), key, idx, distance);
          return IDX_NIL, 0;
        }
        RawOkAt(Hash(), T(), idx);
        var dib := BucketCalculateDib(idx, dibs[idx]);
        if dib < distance {
          ScanMisses(Hash(), IsOrdered(), T(), key, idx, distance);
          return IDX_NIL, 0;
        }
        if dib == distance && ops.ident(slots[idx].key) == ops.ident(key) {
          a := ScanFinds(Hash(), IsOrdered(), T(), key, idx);
          return idx, a;
        }
        ScanAdvances(Hash(), IsOrdered(), T(), key, idx, distance);
        idx := Next(dibs.Length, idx);
        distance := distance + 1;
      }
    }

    // ----- deletion -----

    /** The stop bucket: the first one behind `idx` that is free or at distance 0. */
    method FindStopBucket(idx: nat) returns (right: nat)
      requires Settled(Hash(), IsOrdered(), T()) && idx < dibs.Length
      ensures StopBehind(dibs[..], idx, right)
    {
      hide Core, HasStop;
      var n := dibs.Length;
      right := Next(n, idx);
      while true
        invariant right < n && Busy(dibs[..], Next(n, idx), right)
        decreases n - Dist(n, right, Next(n, idx))
      {
        if dibs[right] == 0 || dibs[right] == DIB_RAW_FREE {
          return;
        }
        if right == idx {
          StopBucketExists(Hash(), IsOrdered(), T(), idx);
        }
        BusyGrows(dibs[..], Next(n, idx), right);
        right := Next(n, right);
      }
    }

    method UnlinkEntry(idx: nat, ghost a: nat)
      requires Shape(T()) && List(IsOrdered(), T()) && a < |order| && order[a] == idx
      modifies this`head, this`tail, this`order, slots
      ensures SamePairs(old(T()), T()) && order == Without(old(order), a)
      ensures Slots(slots[..], order) && (IsOrdered() ==> Linked(slots[..], head, tail, order))
    {
      if kind == Ordered {
        UnlinkKeepsList(slots[..], head, tail, order, a);
        ghost var s := Unlink(slots[..], idx);
        var e := slots[idx];
        if e.next != IDX_NIL {
          slots[e.next] := slots[e.next].(prev := e.prev);
        } else {
          tail := e.prev;
        }
        if e.prev != IDX_NIL {
          slots[e.prev] := slots[e.prev].(next := e.next);
        } else {
          head := e.next;
        }
        assert slots[..] == s;
      }
      order := Without(order, a);
    }

    /** Moves the entry behind the hole `prev` one bucket back. */
    method ShiftBack(prev: nat, left: nat, ghost right: nat, ghost k: nat)
      requires Shifting(Hash(), IsOrdered(), T(), prev, right) && dibs.Length > 1
      requires left == Next(dibs.Length, prev) && left != right && dibs[left] != 0
      requires k < |order| && order[k] == left && LowestOk()
      modifies this`head, this`tail, this`order, slots, dibs
      ensures Shifting(Hash(), IsOrdered(), T(), left, right) && LowestOk()
      ensures T().Contents() == old(T().Contents()) && order == old(order)[k := prev]
      ensures dibs[..] == old(dibs[..])[prev := dibs[prev]] && dibs[prev] <= DIB_RAW_OVERFLOW
    {
      hide Slots, Linked, KeysDiffer, RawOk, FreeIsZeroBut, NoRehash, SmoothWithHole, Tracks, DibAt;
      ghost var t := T();
      ShiftNext(Hash(), t, prev, k);
      var dib := BucketCalculateDib(left, dibs[left]);
      MoveToKeeps(t, IsOrdered(), k, prev);
      BucketMoveEntry(left, prev, k);
      BucketSetDib(prev, dib - 1);
      ShiftMovesHole(Hash(), IsOrdered(), t, T(), prev, right, k);
    }

    /** Shifts all entries between the hole and the stop bucket one step back. */
    method ShiftAll(idx: nat, right: nat) returns (prev: nat)
      requires Shifting(Hash(), IsOrdered(), T(), idx, right) && LowestOk()
      requires Busy(dibs[..], Next(dibs.Length, idx), right)
      modifies this`head, this`tail, this`order, slots, dibs
      ensures prev < dibs.Length && Next(dibs.Length, prev) == right
      ensures Shifting(Hash(), IsOrdered(), T(), prev, right) && LowestOk()
      ensures T().Contents() == old(T().Contents()) && StayedOrShifted(dibs.Length, old(order), order)
      ensures SameFree(old(dibs[..]), dibs[..])
    {
      hide Slots, Linked, KeysDiffer, RawOk, FreeIsZeroBut, SmoothWithHole, DibAt, LowestOk, Tracks, NoRehash, ShiftedBehind, StayedOrShifted;
      var n := dibs.Length;
      prev := idx;
      var left := Next(n, prev);
      HoleOrder(Hash(), IsOrdered(), T(), prev);
      NothingShifted(n, order, left, right);
      while left != right
        invariant Shifting(Hash(), IsOrdered(), T(), prev, right) && LowestOk()
        invariant left == Next(n, prev) && Busy(dibs[..], left, right)
        invariant ShiftedBehind(n, old(order), order, left, right)
        invariant T().Contents() == old(T().Contents()) && SameFree(old(dibs[..]), dibs[..])
        decreases Dist(n, right, left)
      {
        ghost var d := dibs[..];
        assert Dist(n, left, left) < Dist(n, right, left);
        ghost var k := HoleNext(Hash(), IsOrdered(), T(), prev, left);
        ShiftStaysBehind(n, old(order), order, prev, right, k);
        ShiftBack(prev, left, right, k);
        BusyShrinks(d, dibs[..], prev, left, right, dibs[prev]);
        prev := left;
        left := Next(n, left);
      }
      AllShifted(n, old(order), order, left, right);
    }

    /** Removes the entry at place `a` of the contents. */
    method RemoveEntry(idx: nat, ghost a: nat)
      requires Settled(Hash(), IsOrdered(), T()) && LowestOk() && nEntries == |order|
      requires a < |order| && order[a] == idx
      modifies this`head, this`tail, this`order, this`nEntries, slots, dibs
      ensures Settled(Hash(), IsOrdered(), T()) && LowestOk() && nEntries == |order|
      ensures T().Contents() == Without(old(T().Contents()), a)
      ensures StayedOrShifted(dibs.Length, Without(old(order), a), order)
      ensures FreesLast(old(dibs[..]), dibs[..], idx)
    {
      hide Linked, KeysDiffer, RawOk, FreeIsZero, FreeIsZeroBut, SmoothWithHole, Smooth, DibAt, Busy, HasStop, FreesLast, SameFree,
           StayedOrShifted, Dibs, NoRehash;
      ghost var t := T();
      var right := FindStopBucket(idx);
      UnlinkEntry(idx, a);
      UnlinkOpensHole(Hash(), IsOrdered(), t, T(), a, right);
      var prev := ShiftAll(idx, right);
      ghost var d := dibs[..];
      BucketMarkFree(prev);
      FreesBefore(t.dibs, d, dibs[..], idx, prev, right);
      nEntries := nEntries - 1;
    }

    /** Closes the hole before the stop bucket. */
    method BucketMarkFree(prev: nat)
      requires prev < dibs.Length && Shifting(Hash(), IsOrdered(), T(), prev, Next(dibs.Length, prev)) && LowestOk()
      modifies slots, dibs
      ensures Settled(Hash(), IsOrdered(), T()) && T().Contents() == old(T().Contents()) && LowestOk()
      ensures dibs[..] == old(dibs[..])[prev := DIB_RAW_FREE]
    {
      hide Linked, KeysDiffer, RawOk, FreeIsZero, FreeIsZeroBut, SmoothWithHole, Smooth, DibAt, HasStop, Dibs, NoRehash;
      ghost var u := T();
      slots[prev] := ZERO_ENTRY;
      dibs[prev] := DIB_RAW_FREE;
      HoleSettles(Hash(), IsOrdered(), u, T(), prev);
    }

    // ----- growing -----

    /** Puts the entry in IDX_PUT and then every entry it displaces. */
    method PutDisplaced() returns (count: nat)
      requires Core(Hash(), IsOrdered(), T()) && dibs.Length in order && LowestOk() && |order| < dibs.Length
      modifies this`head, this`tail, this`order, this`idxLowestEntry, slots, dibs
      ensures Core(Hash(), IsOrdered(), T()) && dibs.Length !in order && LowestOk()
      ensures T().Contents() == old(T().Contents())
      ensures Waiting(dibs[..]) <= old(Waiting(dibs[..]))
      ensures count + |Waiting(dibs[..])| == old(|Waiting(dibs[..])|) + 1
    {
      hide Smooth, RawOk, FreeIsZero, KeysDiffer, Linked, DibAt, Slots, HasStop;
      count := 0;
      var rehashNext := true;
      while rehashNext
        invariant Core(Hash(), IsOrdered(), T()) && LowestOk()
        invariant T().Contents() == old(T().Contents())
        invariant rehashNext <==> dibs.Length in order
        invariant Waiting(dibs[..]) <= old(Waiting(dibs[..]))
        invariant count + |Waiting(dibs[..])| + (if rehashNext then 1 else 0) == old(|Waiting(dibs[..])|) + 1
        decreases |Waiting(dibs[..])|, rehashNext
      {
        ghost var f := SomeIndexUnused(dibs.Length, order);
        ghost var d := dibs[..];
        var optimal := Hash().Home(dibs.Length, slots[dibs.Length].key);
        ghost var at;
        rehashNext, at := PutRobinHood(optimal, f);
        PutWaiting(d, dibs[..], at);
        count := count + 1;
      }
    }

    /** Rehashes the entry of bucket `idx`, and what putting it displaces. */
    method RehashBucket(idx: nat) returns (count: nat)
      requires Core(Hash(), IsOrdered(), T()) && dibs.Length !in order && LowestOk() && |order| < dibs.Length
      requires idx < dibs.Length && dibs[idx] == DIB_RAW_REHASH
      modifies this`head, this`tail, this`order, this`idxLowestEntry, slots, dibs
      ensures Core(Hash(), IsOrdered(), T()) && dibs.Length !in order && LowestOk()
      ensures T().Contents() == old(T().Contents())
      ensures Waiting(dibs[..]) <= old(Waiting(dibs[..])) - {idx}
      ensures count + |Waiting(dibs[..])| == old(|Waiting(dibs[..])|)
    {
      hide Smooth, RawOk, FreeIsZero, KeysDiffer, Linked, DibAt;
      ghost var t := T();
      var optimal := Hash().Home(dibs.Length, slots[idx].key);
      if optimal == idx {
        dibs[idx] := 0;
        SettleInPlace(Hash(), IsOrdered(), t, T(), idx);
        return 1;
      }
      LiftBucket(idx);
      count := PutDisplaced();
    }

    method LiftBucket(idx: nat)
      requires Core(Hash(), IsOrdered(), T()) && dibs.Length !in order && LowestOk()
      requires idx < dibs.Length && dibs[idx] == DIB_RAW_REHASH
      modifies this`head, this`tail, this`order, slots, dibs
      ensures Core(Hash(), IsOrdered(), T()) && dibs.Length in order && LowestOk()
      ensures T().Contents() == old(T().Contents())
      ensures Waiting(dibs[..]) == old(Waiting(dibs[..])) - {idx}
    {
      hide Smooth, RawOk, FreeIsZero, KeysDiffer, Linked, DibAt;
      ghost var t := T();
      ghost var k: nat :| 0 <= k < |order| && order[k] == idx;
      BucketMoveEntry(idx, dibs.Length, k);
      ghost var m := T();
      dibs[idx] := DIB_RAW_FREE;
      slots[idx] := ZERO_ENTRY;
      LiftToPut(Hash(), IsOrdered(), t, m, T(), idx, k);
    }

    /** Rehashes all entries that wait among the first `oldBuckets` buckets. */
    method RehashAll(oldBuckets: nat) returns (nRehashed: nat)
      requires Core(Hash(), IsOrdered(), T()) && dibs.Length !in order && LowestOk() && nEntries == |order| < dibs.Length
      requires oldBuckets <= dibs.Length && |Waiting(dibs[..])| == nEntries
      requires forall i :: oldBuckets <= i < dibs.Length ==> dibs[i] != DIB_RAW_REHASH
      modifies this`head, this`tail, this`order, this`idxLowestEntry, slots, dibs
      ensures Settled(Hash(), IsOrdered(), T()) && LowestOk() && nEntries == |order|
      ensures T().Contents() == old(T().Contents())
      ensures nRehashed == nEntries
    {
      hide Smooth, RawOk, FreeIsZero, KeysDiffer, Linked, DibAt, Slots, HasStop, Tracks;
      nRehashed := 0;
      for idx := 0 to oldBuckets
        invariant Core(Hash(), IsOrdered(), T()) && dibs.Length !in order && LowestOk()
        invariant T().Contents() == old(T().Contents())
        invariant forall i: nat {:trigger i in Waiting(dibs[..])} :: i in Waiting(dibs[..]) ==> idx <= i < oldBuckets
        invariant nRehashed + |Waiting(dibs[..])| == nEntries
      {
        if dibs[idx] == DIB_RAW_REHASH {
          var count := RehashBucket(idx);
          nRehashed := nRehashed + count;
        }
      }
      assert Waiting(dibs[..]) == {};
      forall i | 0 <= i < dibs.Length ensures dibs[i] != DIB_RAW_REHASH {
        assert i !in Waiting(dibs[..]);
      }
      RoomMeansStop(Hash(), IsOrdered(), T());
    }

    ghost predicate Valid()
      reads this, slots, dibs
    {
      Settled(Hash(), IsOrdered(), T()) && LowestOk() && nEntries == |order| <= dibs.Length &&
      StorageOk(kind, hasIndirect, dibs.Length)
    }

    /** The pairs, in insertion order. */
    ghost function Contents(): seq<Pair>
      requires Valid()
      reads this, slots, dibs
    {
      T().Contents()
    }

    constructor (kind: Kind, ops: HashOps, sharedHashKey: nat)
      ensures Valid() && Contents() == [] && fresh(slots) && fresh(dibs)
      ensures this.kind == kind && this.ops == ops && this.sharedHashKey == sharedHashKey && !hasIndirect
    {
      this.kind, this.ops, this.sharedHashKey := kind, ops, sharedHashKey;
      hasIndirect, indirectHashKey, nEntries, idxLowestEntry := false, 0, 0, 0;
      slots := new Entry[DirectBuckets(kind) + 2](_ => ZERO_ENTRY);
      dibs := new DibRaw[DirectBuckets(kind)](_ => DIB_RAW_FREE);
      head, tail, order := IDX_NIL, IDX_NIL, [];
      new;
      assert Dibs(Hash(), T())[0] <= 0;
    }

    /** The used buckets marked in the new, longer distance array. */
    static method MarkForRehash(dibs: array<DibRaw>, buckets: nat) returns (marked: array<DibRaw>)
      requires dibs.Length < buckets
      ensures fresh(marked) && marked.Length == buckets
      ensures forall i :: dibs.Length <= i < buckets ==> marked[i] == DIB_RAW_FREE
      ensures forall i :: 0 <= i < dibs.Length ==>
        marked[i] == if dibs[i] == DIB_RAW_FREE then DIB_RAW_FREE else DIB_RAW_REHASH
    {
      marked := new DibRaw[buckets](_ => DIB_RAW_FREE);
      for i := 0 to dibs.Length
        invariant forall j :: 0 <= j < i ==> marked[j] == if dibs[j] == DIB_RAW_FREE then DIB_RAW_FREE else DIB_RAW_REHASH
        invariant forall j :: i <= j < buckets ==> marked[j] == DIB_RAW_FREE
      {
        marked[i] := if dibs[i] == DIB_RAW_FREE then DIB_RAW_FREE else DIB_RAW_REHASH;
      }
    }

    static method CopyBuckets(slots: array<Entry>, oldBuckets: nat, buckets: nat) returns (copy: array<Entry>)
      requires oldBuckets < buckets && oldBuckets <= slots.Length
      ensures fresh(copy) && copy.Length == buckets + 2 && copy[..oldBuckets] == slots[..oldBuckets]
      ensures forall i :: oldBuckets <= i < buckets + 2 ==> copy[i] == ZERO_ENTRY
    {
      copy := new Entry[buckets + 2](_ => ZERO_ENTRY);
      forall i | 0 <= i < oldBuckets {
        copy[i] := slots[i];
      }
    }

    /** Takes larger storage, with every used bucket marked to be rehashed
        under a new hash key. */
    method Reallocate(buckets: nat, freshHashKey: nat)
      requires Valid() && dibs.Length < buckets && buckets + 2 < IDX_FIRST
      modifies this`slots, this`dibs, this`hasIndirect, this`indirectHashKey, this`idxLowestEntry
      ensures fresh(slots) && fresh(dibs) && dibs.Length == buckets && hasIndirect
      ensures Grown(old(T()), T()) && LowestOk()
    {
      hide Smooth, RawOk, FreeIsZero, KeysDiffer, Linked, DibAt, Slots, HasStop, Tracks;
      var newSlots := CopyBuckets(slots, dibs.Length, buckets);
      var newDibs := MarkForRehash(dibs, buckets);
      if !hasIndirect {
        idxLowestEntry := 0;
      }
      slots, dibs, hasIndirect, indirectHashKey := newSlots, newDibs, true, freshHashKey;
    }

    /** Makes room for `add` more entries. Returns 1 after growing, 0 when there
        was room, and -ENOMEM when sizes overflow or the allocation fails. */
    method ResizeBuckets(add: nat, allocates: bool, freshHashKey: nat) returns (r: int)
      requires Valid() && add <= UINT_MAX
      requires Defined(ResizePlan(kind, hasIndirect, nEntries, dibs.Length, add))
      modifies this, slots, dibs
      ensures Valid() && Contents() == old(Contents())
      ensures r == ENOMEM || r == 0 || r == 1
      ensures r == ENOMEM <==> Refuses(old(ResizePlan(kind, hasIndirect, nEntries, dibs.Length, add)), allocates)
      ensures r >= 0 ==> nEntries + add <= dibs.Length
      ensures r <= 0 ==> unchanged(this) && unchanged(slots) && unchanged(dibs)
      ensures r > 0 ==> fresh(slots) && fresh(dibs) && dibs.Length >= 2 * old(dibs.Length)
    {
      hide Settled, HasStop, Smooth, Log2RoundUp, Pow2, LowestOk;
      BucketsBounded(kind, hasIndirect, dibs.Length);
      var plan := ResizePlan(kind, hasIndirect, nEntries, dibs.Length, add);
      if Refuses(plan, allocates) {
        return ENOMEM;
      }
      if plan == Fits {
        FitsHasRoom(kind, hasIndirect, nEntries, dibs.Length, add);
        return 0;
      }
      Rebuild(plan.shift, add, freshHashKey);
      return 1;
    }

    method Rebuild(shift: nat, ghost add: nat, freshHashKey: nat)
      requires Valid() && add <= UINT_MAX
      requires ResizePlan(kind, hasIndirect, nEntries, dibs.Length, add) == Grow(shift) && shift <= 31
      modifies this, slots, dibs
      ensures Valid() && Contents() == old(Contents())
      ensures nEntries + add <= dibs.Length
      ensures fresh(slots) && fresh(dibs) && dibs.Length >= 2 * old(dibs.Length)
    {
      hide Smooth, RawOk, FreeIsZero, KeysDiffer, Linked, DibAt, Slots, HasStop, Tracks, ResizePlan, Pow2;
      BucketsBounded(kind, hasIndirect, dibs.Length);
      GrowDoubles(kind, hasIndirect, nEntries, dibs.Length, add);
      ghost var t, h := T(), Hash();
      var oldBuckets := dibs.Length;
      BucketsBounded(kind, true, BucketsOf(kind, shift));
      Reallocate(BucketsOf(kind, shift), freshHashKey);
      GrownCore(h, Hash(), IsOrdered(), t, T());
      var nRehashed := RehashAll(oldBuckets);
      assert nRehashed == nEntries;
    }

    // ----- putting -----

    /** Links a new entry in at the end of the list and leaves it in IDX_PUT. */
    method LinkNew(key: nat, value: nat)
      requires Settled(Hash(), IsOrdered(), T()) && LowestOk() && Absent(ops, T().Contents(), key)
      modifies this`head, this`tail, this`order, slots
      ensures Core(Hash(), IsOrdered(), T()) && order == old(order) + [dibs.Length] && LowestOk()
      ensures T().Contents() == old(T().Contents()) + [Pair(key, value)] && slots[dibs.Length].key == key
    {
      hide Smooth, RawOk, FreeIsZero, KeysDiffer, DibAt, HasStop, Absent, Tracks;
      ghost var t := T();
      var p := dibs.Length;
      if kind == Ordered {
        AppendKeepsList(slots[..], head, tail, order, p, key, value);
      }
      slots[p] := Entry(key, value, IDX_NIL, tail);
      if kind == Ordered {
        if tail != IDX_NIL {
          slots[tail] := slots[tail].(next := p);
        }
        tail := p;
        head := if head == IDX_NIL then p else head;
      }
      order := order + [p];
      assert slots[..] == Append(t.slots, IsOrdered(), t.tail, p, key, value);
      AppendedCore(Hash(), IsOrdered(), t, T(), key, value);
    }

    /** Puts an entry whose key is not there yet, without growing. */
    method PutBoldly(key: nat, value: nat)
      requires Valid() && Absent(ops, Contents(), key) && nEntries < dibs.Length
      modifies this`head, this`tail, this`order, this`idxLowestEntry, this`nEntries, slots, dibs
      ensures Valid() && Contents() == old(Contents()) + [Pair(key, value)]
    {
      hide Smooth, RawOk, FreeIsZero, KeysDiffer, Linked, DibAt, Slots, HasStop, Absent;
      ghost var f := SomeIndexUnused(dibs.Length, order);
      LinkNew(key, value);
      ghost var at;
      var displaced;
      ghost var d, c := dibs[..], T().Contents();
      displaced, at := PutRobinHood(Hash().Home(dibs.Length, key), f);
      assert !displaced;
      forall i | 0 <= i < dibs.Length ensures dibs[i] != DIB_RAW_REHASH {
        assert dibs[..][at := d[at]][i] != DIB_RAW_REHASH;
      }
      assert |T().Contents()| == |c|;
      nEntries := nEntries + 1;
    }

    /** Grows the storage if need be and puts an entry whose key is not there yet. */
    method PutResizing(key: nat, value: nat, allocates: bool, freshHashKey: nat) returns (r: int)
      requires Valid() && Absent(ops, Contents(), key)
      requires Defined(ResizePlan(kind, hasIndirect, nEntries, dibs.Length, 1))
      modifies this, slots, dibs
      ensures Valid() && (slots == old(slots) || fresh(slots)) && (dibs == old(dibs) || fresh(dibs))
      ensures r == 1 || r == ENOMEM
      ensures r == ENOMEM <==> Refuses(old(ResizePlan(kind, hasIndirect, nEntries, dibs.Length, 1)), allocates)
      ensures Contents() == if r == 1 then old(Contents()) + [Pair(key, value)] else old(Contents())
    {
      hide Settled;
      r := ResizeBuckets(1, allocates, freshHashKey);
      if r < 0 {
        return;
      }
      PutBoldly(key, value);
      r := 1;
    }

    // ----- the public operations -----

    /** The bucket of a key and its place in the contents. */
    method Locate(key: nat) returns (idx: nat, ghost a: int)
      requires Valid()
      ensures a == Find(ops, Contents(), key) && (idx == IDX_NIL <==> a < 0)
      ensures a >= 0 ==> idx < dibs.Length < slots.Length && order[a] == idx && Contents()[a] == slots[idx].KeyValue()
    {
      hide Smooth, RawOk, FreeIsZero, Linked, DibAt, HasStop, Tracks, Find;
      ghost var b;
      idx, b := BucketScan(key);
      a := Find(ops, Contents(), key);
      if idx != IDX_NIL {
        FindUnique(ops, Contents(), key, b);
      }
    }

    method Put(key: nat, value: nat, allocates: bool, freshHashKey: nat) returns (r: int)
      requires Valid() && Defined(ResizePlan(kind, hasIndirect, nEntries, dibs.Length, 1))
      modifies this, slots, dibs
      ensures Valid() && (slots == old(slots) || fresh(slots)) && (dibs == old(dibs) || fresh(dibs))
      ensures var c, a := old(Contents()), Find(ops, old(Contents()), key);
        if a >= 0 then Contents() == c && r == (if c[a].value == value then 0 else EEXIST)
        else if Refuses(old(ResizePlan(kind, hasIndirect, nEntries, dibs.Length, 1)), allocates)
        then Contents() == c && r == ENOMEM
        else Contents() == c + [Pair(key, value)] && r == 1
    {
      hide Settled;
      var idx; ghost var a;
      idx, a := Locate(key);
      if idx != IDX_NIL {
        return if slots[idx].value == value then 0 else EEXIST;
      }
      r := PutResizing(key, value, allocates, freshHashKey);
    }

    method Overwrite(idx: nat, key: nat, value: nat, ghost a: nat)
      requires Valid() && Stores(ops, Contents(), key, a) && order[a] == idx
      modifies slots
      ensures Valid() && Contents() == old(Contents())[a := Pair(key, value)]
    {
      ghost var t := T();
      slots[idx] := slots[idx].(key := key, value := value);
      OverwriteKeeps(Hash(), IsOrdered(), t, T(), a, key, value);
    }

    method Replace(key: nat, value: nat, allocates: bool, freshHashKey: nat) returns (r: int)
      requires Valid() && Defined(ResizePlan(kind, hasIndirect, nEntries, dibs.Length, 1))
      modifies this, slots, dibs
      ensures Valid() && (slots == old(slots) || fresh(slots)) && (dibs == old(dibs) || fresh(dibs))
      ensures var c, a := old(Contents()), Find(ops, old(Contents()), key);
        if a >= 0 then Contents() == c[a := Pair(key, value)] && r == 0
        else if Refuses(old(ResizePlan(kind, hasIndirect, nEntries, dibs.Length, 1)), allocates)
        then Contents() == c && r == ENOMEM
        else Contents() == c + [Pair(key, value)] && r == 1
    {
      hide Settled;
      var idx; ghost var a;
      idx, a := Locate(key);
      if idx != IDX_NIL {
        Overwrite(idx, key, value, a);
        return 0;
      }
      r := PutResizing(key, value, allocates, freshHashKey);
    }

    /** Keeps the stored key pointer and changes the value. */
    method Update(key: nat, value: nat) returns (r: int)
      requires Valid()
      modifies slots
      ensures Valid()
      ensures var c, a := old(Contents()), Find(ops, old(Contents()), key);
        if a >= 0 then Contents() == c[a := Pair(c[a].key, value)] && r == 0
        else Contents() == c && r == ENOENT
    {
      hide Settled;
      var idx; ghost var a;
      idx, a := Locate(key);
      if idx == IDX_NIL {
        return ENOENT;
      }
      assert Stores(ops, Contents(), Contents()[a].key, a);
      Overwrite(idx, slots[idx].key, value, a);
      return 0;
    }

    method Get(key: nat) returns (value: nat)
      requires Valid()
      ensures var a := Find(ops, Contents(), key);
        value == if a >= 0 then Contents()[a].value else NULL
    {
      hide Settled;
      var idx; ghost var a;
      idx, a := Locate(key);
      value := if idx == IDX_NIL then NULL else slots[idx].value;
    }

    method Contains(key: nat) returns (found: bool)
      requires Valid()
      ensures found <==> Find(ops, Contents(), key) >= 0
    {
      hide Settled;
      var idx; ghost var a;
      idx, a := Locate(key);
      found := idx != IDX_NIL;
    }

    method Remove(key: nat) returns (value: nat)
      requires Valid()
      modifies this`head, this`tail, this`order, this`nEntries, slots, dibs
      ensures Valid()
      ensures var c, a := old(Contents()), Find(ops, old(Contents()), key);
        if a >= 0 then Contents() == Without(c, a) && value == c[a].value
        else Contents() == c && value == NULL
    {
      hide Core, HasStop;
      var idx; ghost var a;
      idx, a := Locate(key);
      if idx == IDX_NIL {
        return NULL;
      }
      value := slots[idx].value;
      RemoveEntry(idx, a);
    }

    // ----- iterating -----

    method SkipFreeBuckets(from: nat) returns (r: nat)
      requires dibs.Length < IDX_NIL
      ensures FirstUsed(dibs[..], from, r)
    {
      r := from;
      while r < dibs.Length
        invariant from <= r
        invariant forall i :: from <= i < r && i < dibs.Length ==> dibs[i] == DIB_RAW_FREE
      {
        if dibs[r] != DIB_RAW_FREE {
          return;
        }
        r := r + 1;
      }
      r := IDX_NIL;
    }

    /** The bucket the iterator stands on, past a possible backward shift. */
    method Compensated(it: Iterator, ghost cursor: nat) returns (idx: nat, ghost a: nat)
      requires Valid() && KeysNonNull(Contents()) && it.idx != IDX_FIRST && it.idx != IDX_NIL
      requires Standing(T(), IsOrdered(), it.idx, it.nextKey, cursor)
      ensures a < |order| && order[a] == idx < dibs.Length && On(T(), IsOrdered(), cursor, a)
    {
      a :| StandingOn(T(), IsOrdered(), it.idx, it.nextKey, cursor, a);
      hide Smooth, RawOk, Linked, HasStop, KeysDiffer, FreeIsZero;
      assert Contents()[a].key == it.nextKey;
      CompensateIff(Hash(), IsOrdered(), T(), a, it.idx, it.nextKey);
      idx := if slots[it.idx].key != it.nextKey then Prev(dibs.Length, it.idx) else it.idx;
    }

    /** Visits the next entry in insertion order. */
    method IterateInInsertionOrder(it: Iterator, ghost cursor: nat) returns (idx: nat)
      requires Valid() && kind == Ordered && KeysNonNull(Contents())
      requires Standing(T(), true, it.idx, it.nextKey, cursor)
      modifies it
      ensures cursor <= |order| && (idx == IDX_NIL <==> cursor == |order|)
      ensures if cursor == |order| then idx == IDX_NIL && it.idx == IDX_NIL
              else idx == order[cursor] && Exact(T(), true, it.idx, it.nextKey, cursor + 1)
    {
      hide Smooth, RawOk, Linked, HasStop, KeysDiffer, FreeIsZero, Exact, StorageOk, Tracks;
      HeadIsFirst(Hash(), T());
      if it.idx == IDX_NIL || (it.idx == IDX_FIRST && head == IDX_NIL) {
        it.idx := IDX_NIL;
        return IDX_NIL;
      }
      if it.idx == IDX_FIRST {
        idx := head;
      } else {
        ghost var a;
        idx, a := Compensated(it, cursor);
      }
      StandOrdered(Hash(), T(), cursor + 1);
      NextIsNext(Hash(), T(), cursor);
      it.idx := slots[idx].next;
      it.nextKey := if slots[idx].next != IDX_NIL then slots[slots[idx].next].key else 0;
    }

    /** Visits the next entry in bucket order. */
    method IterateInInternalOrder(it: Iterator, ghost cursor: nat) returns (idx: nat, ghost a: nat, ghost cursor': nat)
      requires Valid() && kind != Ordered && KeysNonNull(Contents())
      requires Standing(T(), false, it.idx, it.nextKey, cursor)
      modifies it, this`idxLowestEntry
      ensures Valid() && T() == old(T())
      ensures idx == IDX_NIL ==> it.idx == IDX_NIL && forall b: nat :: b < |order| ==> Behind(T(), false, cursor, b)
      ensures idx != IDX_NIL ==> a < |order| && order[a] == idx && Steps(T(), false, cursor, cursor', a) &&
                                 Exact(T(), false, it.idx, it.nextKey, cursor')
    {
      hide Smooth, RawOk, Linked, HasStop, KeysDiffer, FreeIsZero, Exact, Steps, StorageOk;
      if it.idx == IDX_NIL {
        return IDX_NIL, 0, 0;
      }
      if it.idx == IDX_FIRST {
        idx := FirstBucket();
        if idx == IDX_NIL {
          it.idx := IDX_NIL;
          return IDX_NIL, 0, 0;
        }
      } else {
        idx, a := Compensated(it, cursor);
      }
      var next := SkipFreeBuckets(idx + 1);
      a, cursor' := StepPlain(Hash(), T(), cursor, idx, next);
      it.idx := next;
      it.nextKey := if next != IDX_NIL then slots[next].key else 0;
    }

    /** The first used bucket, remembered as the lowest one in indirect storage. */
    method FirstBucket() returns (idx: nat)
      requires Valid()
      modifies this`idxLowestEntry
      ensures Valid() && T() == old(T()) && FirstUsed(dibs[..], 0, idx)
      ensures idx == IDX_NIL ==> |order| == 0
      ensures idx != IDX_NIL ==> idx < dibs.Length
    {
      hide Smooth, RawOk, Linked, HasStop, KeysDiffer, FreeIsZero, StorageOk;
      assert |order| > 0 ==> order[0] < dibs.Length && dibs[order[0]] != DIB_RAW_FREE;
      if hasIndirect {
        idx := SkipFreeBuckets(idxLowestEntry);
        idxLowestEntry := idx;
      } else {
        idx := SkipFreeBuckets(0);
      }
    }

    /** The next entry to visit, whatever the kind; nothing unvisited is passed. */
    method Iterate(it: Iterator, ghost cursor: nat) returns (idx: nat, ghost a: nat, ghost cursor': nat)
      requires Valid() && KeysNonNull(Contents())
      requires Standing(T(), IsOrdered(), it.idx, it.nextKey, cursor)
      modifies it, this`idxLowestEntry
      ensures Valid() && T() == old(T())
      ensures idx == IDX_NIL ==> forall b: nat :: b < |order| ==> Behind(T(), IsOrdered(), cursor, b)
      ensures idx != IDX_NIL ==> a < |order| && order[a] == idx < dibs.Length < slots.Length &&
                                 Steps(T(), IsOrdered(), cursor, cursor', a) &&
                                 Exact(T(), IsOrdered(), it.idx, it.nextKey, cursor')
    {
      hide Smooth, RawOk, Linked, HasStop, KeysDiffer, FreeIsZero, Exact, StorageOk;
      if kind == Ordered {
        idx := IterateInInsertionOrder(it, cursor);
        if idx != IDX_NIL {
          StepOrdered(T(), cursor);
        }
        a, cursor' := cursor, cursor + 1;
      } else {
        idx, a, cursor' := IterateInInternalOrder(it, cursor);
      }
    }

    /** Removes the entry just visited; the iterator still stands on the next one. */
    method RemoveCurrent(it: Iterator, idx: nat, ghost a: nat, ghost cursor: nat) returns (ghost cursor': nat)
      requires Valid() && a < |order| && order[a] == idx && Behind(T(), IsOrdered(), cursor, a)
      requires Exact(T(), IsOrdered(), it.idx, it.nextKey, cursor)
      modifies this`head, this`tail, this`order, this`nEntries, slots, dibs
      ensures Valid() && Contents() == Without(old(Contents()), a)
      ensures Standing(T(), IsOrdered(), it.idx, it.nextKey, cursor')
      ensures |order| == |old(order)| - 1 && NothingPassed(old(T()), T(), IsOrdered(), cursor, cursor', a)
      ensures IsOrdered() && cursor == a + 1 ==> cursor' == a
    {
      hide Smooth, RawOk, Linked, HasStop, KeysDiffer, FreeIsZero, Standing, StandingOn, Exact, Behind, NothingPassed, StorageOk;
      ghost var t := T();
      RemoveEntry(idx, a);
      cursor' := RemoveKeepsStanding(t, T(), IsOrdered(), a, it.idx, it.nextKey, cursor);
    }

    /** One round of the loop below. */
    method VisitStep(it: Iterator, idx: nat, drop: Pair -> bool, ghost cursor: nat) returns (p: Pair, ghost cursor': nat)
      requires Valid() && kind == Ordered && cursor < |order| && order[cursor] == idx
      requires Exact(T(), true, it.idx, it.nextKey, cursor + 1)
      modifies this`head, this`tail, this`order, this`nEntries, slots, dibs
      ensures Valid() && p == old(Contents())[cursor]
      ensures if drop(p) then cursor' == cursor && Contents() == Without(old(Contents()), cursor)
              else cursor' == cursor + 1 && Contents() == old(Contents())
      ensures Standing(T(), true, it.idx, it.nextKey, cursor')
    {
      hide Smooth, RawOk, Linked, HasStop, KeysDiffer, FreeIsZero, Standing, StandingOn, NothingPassed, StorageOk;
      p := slots[idx].KeyValue();
      cursor' := cursor + 1;
      if drop(p) {
        cursor' := RemoveCurrent(it, idx, cursor, cursor + 1);
      }
    }

    ghost predicate OrderInv(it: Iterator, idx: nat, c: seq<Pair>, visited: seq<Pair>, keep: Pair -> bool, cursor: nat)
      requires Valid()
      reads this, slots, dibs, it
    {
      Visited(c, visited, keep, Contents(), cursor) && (idx == IDX_NIL <==> |visited| == |c|) &&
      (idx != IDX_NIL ==> cursor < |order| && idx == order[cursor] && Exact(T(), true, it.idx, it.nextKey, cursor + 1))
    }

    /** Goes on to the next entry of the loop below. */
    method OrderNext(it: Iterator, ghost c: seq<Pair>, ghost visited: seq<Pair>, ghost keep: Pair -> bool, ghost cursor: nat)
      returns (idx: nat)
      requires Valid() && kind == Ordered && KeysNonNull(c) && Visited(c, visited, keep, Contents(), cursor)
      requires Standing(T(), true, it.idx, it.nextKey, cursor)
      modifies it
      ensures OrderInv(it, idx, c, visited, keep, cursor)
    {
      hide Settled, Exact, StorageOk, LowestOk, Visited, KeysNonNull, Standing;
      VisitedNonNull(c, visited, keep, Contents(), cursor);
      idx := IterateInInsertionOrder(it, cursor);
    }

    /** One round of the loop below. */
    method OrderRound(it: Iterator, idx: nat, drop: Pair -> bool, ghost c: seq<Pair>, visited: seq<Pair>, ghost keep: Pair -> bool, ghost cursor: nat)
      returns (idx': nat, visited': seq<Pair>, ghost cursor': nat)
      requires Valid() && kind == Ordered && KeysNonNull(c) && (forall p :: keep(p) == !drop(p))
      requires idx != IDX_NIL && OrderInv(it, idx, c, visited, keep, cursor)
      modifies this`head, this`tail, this`order, this`nEntries, slots, dibs, it
      ensures Valid() && OrderInv(it, idx', c, visited', keep, cursor') && |visited| < |visited'| <= |c|
    {
      hide Settled, Exact, StorageOk, LowestOk, Visited, KeysNonNull, Standing;
      VisitedNext(c, visited, keep, Contents(), cursor);
      var p;
      p, cursor' := VisitStep(it, idx, drop, cursor);
      visited' := visited + [p];
      idx' := OrderNext(it, c, visited', keep, cursor');
    }

    /** `HASHMAP_FOREACH` over an ordered map, with a body that removes the current
        entry or leaves the map alone: every entry is visited exactly once, in
        insertion order. */
    method VisitInOrder(drop: Pair -> bool) returns (visited: seq<Pair>)
      requires Valid() && kind == Ordered && KeysNonNull(Contents())
      modifies this, slots, dibs
      ensures Valid() && visited == old(Contents())
      ensures Contents() == Filter(old(Contents()), p => !drop(p))
    {
      hide Settled, StorageOk, LowestOk, Visited, Filter, KeysNonNull, Exact;
      ghost var c, keep := Contents(), (p: Pair) => !drop(p);
      var it := new Iterator();
      visited := [];
      ghost var cursor: nat := 0;
      VisitedStarts(c, keep);
      var idx := OrderNext(it, c, visited, keep, cursor);
      while idx != IDX_NIL
        invariant Valid() && fresh(it) && slots == old(slots) && dibs == old(dibs)
        invariant OrderInv(it, idx, c, visited, keep, cursor)
        decreases |c| - |visited|
      {
        idx, visited, cursor := OrderRound(it, idx, drop, c, visited, keep, cursor);
      }
      VisitedNonNull(c, visited, keep, Contents(), cursor);
    }

    ghost predicate LoopInv(it: Iterator, c: seq<Pair>, visited: seq<Pair>, keep: Pair -> bool, cursor: nat)
      requires Valid()
      reads this, slots, dibs, it
    {
      KeysNonNull(Contents()) && Looping(c, visited, keep, Contents()) &&
      Standing(T(), IsOrdered(), it.idx, it.nextKey, cursor) && AllBehind(T(), IsOrdered(), cursor, SeenKeys(c, visited, keep))
    }

    /** One round of the loop below. */
    method LoopRound(it: Iterator, drop: Pair -> bool, ghost c: seq<Pair>, visited: seq<Pair>, ghost keep: Pair -> bool, ghost cursor: nat)
      returns (done: bool, visited': seq<Pair>, ghost cursor': nat)
      requires Valid() && LoopInv(it, c, visited, keep, cursor) && forall p :: keep(p) == !drop(p)
      modifies this`head, this`tail, this`order, this`idxLowestEntry, this`nEntries, slots, dibs, it
      ensures Valid() && Looping(c, visited', keep, Contents())
      ensures done || LoopInv(it, c, visited', keep, cursor')
      ensures done || nEntries < old(nEntries) ||
        (nEntries == old(nEntries) && T() == old(T()) && cursor < cursor' <= End(T(), IsOrdered()))
      ensures done ==> forall j :: 0 <= j < |order| ==> SeenKeys(c, visited', keep)(Contents()[j].key)
    {
      hide Smooth, RawOk, Linked, HasStop, KeysDiffer, FreeIsZero, StorageOk, LowestOk, Tracks, StandingOn, Standing, Behind,
           NothingPassed, Exact, Slots, Looping, AllBehind, SeenKeys;
      var idx; ghost var a; ghost var next;
      idx, a, next := Iterate(it, cursor);
      if idx == IDX_NIL {
        AllKnown(T(), IsOrdered(), cursor, SeenKeys(c, visited, keep));
        return true, visited, cursor;
      }
      ghost var t := T();
      var p := slots[idx].KeyValue();
      visited' := visited + [p];
      LoopVisits(c, visited, keep, Contents(), a);
      SeenGrows(c, visited, keep, t.Contents(), a, t, IsOrdered(), cursor);
      if drop(p) {
        WithoutNonNull(Contents(), a);
        cursor' := RemoveCurrent(it, idx, a, next);
        RemoveKeepsBehind(t, T(), IsOrdered(), cursor, next, cursor', a, SeenKeys(c, visited', keep));
        return false, visited', cursor';
      }
      SkipKeepsBehind(t, IsOrdered(), cursor, next, a, SeenKeys(c, visited', keep));
      ExactStands(T(), IsOrdered(), it.idx, it.nextKey, next);
      return false, visited', next;
    }

    /** `HASHMAP_FOREACH` over any map, with a body that removes the current entry or
        leaves the map alone: it ends, visits every pair, and leaves exactly the pairs
        that are not dropped. In a plain map a pair may be visited again. */
    method Visit(drop: Pair -> bool) returns (visited: seq<Pair>)
      requires Valid() && KeysNonNull(Contents())
      modifies this, slots, dibs
      ensures Valid() && Contents() == Filter(old(Contents()), p => !drop(p))
      ensures forall p :: p in old(Contents()) <==> p in visited
    {
      hide Settled, LowestOk, StorageOk, Standing, AllBehind, Filter, SeenKeys;
      ghost var c, keep := Contents(), (p: Pair) => !drop(p);
      ValidKeysDiffer();
      var it := new Iterator();
      visited := [];
      ghost var cursor: nat := 0;
      FreshLoop(it, c, keep);
      var done := false;
      while !done
        invariant Valid() && fresh(it) && slots == old(slots) && dibs == old(dibs)
        invariant Looping(c, visited, keep, Contents()) && (done || LoopInv(it, c, visited, keep, cursor))
        invariant done ==> forall j :: 0 <= j < |order| ==> SeenKeys(c, visited, keep)(Contents()[j].key)
        decreases !done, nEntries, End(T(), IsOrdered()) - cursor
      {
        done, visited, cursor := LoopRound(it, drop, c, visited, keep, cursor);
      }
      LoopEnds(ops, c, visited, keep, Contents());
    }

    lemma {:induction false} FreshLoop(it: Iterator, c: seq<Pair>, keep: Pair -> bool)
      requires Valid() && it.idx == IDX_FIRST && c == Contents() && KeysNonNull(c)
      ensures LoopInv(it, c, [], keep, 0)
    {
      hide Smooth, RawOk, Linked, HasStop, FreeIsZero, StorageOk, LowestOk, Tracks, Filter;
      FreshAllBehind(T(), IsOrdered(), SeenKeys(c, [], keep));
    }

    // ----- operations that combine removing and putting -----

    method RemoveAndPut(oldKey: nat, newKey: nat, value: nat) returns (r: int)
      requires Valid()
      modifies this, slots, dibs
      ensures Valid() && slots == old(slots) && dibs == old(dibs)
      ensures var c, a := old(Contents()), Find(ops, old(Contents()), oldKey);
        if a < 0 then Contents() == c && r == ENOENT
        else if Find(ops, c, newKey) >= 0 then Contents() == c && r == EEXIST
        else Contents() == Without(c, a) + [Pair(newKey, value)] && r == 0
    {
      hide Core, HasStop, StorageOk, Absent;
      var idx; ghost var a;
      idx, a := Locate(oldKey);
      if idx == IDX_NIL {
        return ENOENT;
      }
      var idxNew; ghost var b;
      idxNew, b := Locate(newKey);
      if idxNew != IDX_NIL {
        return EEXIST;
      }
      WithoutAbsent(ops, Contents(), newKey, a);
      RemoveEntry(idx, a);
      PutBoldly(newKey, value);
      return 0;
    }

    /** Removes the entry under the new key and looks for the other one again, which
        may have been shifted. */
    method RemoveNew(idxOld: nat, idxNew: nat, storedKey: nat, ghost a: nat, ghost b: nat) returns (idx: nat, ghost a': nat)
      requires Valid() && a < |order| && b < |order| && a != b && order[a] == idxOld && order[b] == idxNew
      requires Contents()[a].key == storedKey
      modifies this`head, this`tail, this`order, this`nEntries, slots, dibs
      ensures Valid() && Contents() == Without(old(Contents()), b) && a' == Shift(a, b) < |order| && idx < dibs.Length
      ensures order[a'] == idx <==> dibs[idx] != DIB_RAW_FREE
      ensures dibs[idx] == DIB_RAW_FREE <==> storedKey == NULL && LastShifted(old(T()), a, b)
    {
      hide Core, HasStop, StorageOk, LowestOk, StayedOrShifted, FreesLast;
      ghost var t, c := T(), Contents();
      idx, a' := idxOld, Shift(a, b);
      RemoveEntry(idxNew, b);
      FoundAgain(Hash(), IsOrdered(), T(), c, t, a, b, storedKey);
      if storedKey != slots[idxOld].key {
        idx := Prev(dibs.Length, idxOld);
      }
    }

    /** The entry of the old key has the key NULL and is the last one to be shifted
        when the entry of the new key goes. */
    ghost predicate LosesNull(oldKey: nat, newKey: nat)
      requires Valid()
      reads this, slots, dibs
    {
      var c := Contents();
      var a, b := Find(ops, c, oldKey), Find(ops, c, newKey);
      a >= 0 && b >= 0 && a != b && c[a].key == NULL && LastShifted(T(), a, b)
    }

    /** `hashmap_remove_and_replace`. Nothing is returned if the assertion fails that
        the entry to remove is in a used bucket: exactly if its key is NULL and it is the
        last one to be shifted when the entry under the new key goes. */
    method RemoveAndReplace(oldKey: nat, newKey: nat, value: nat) returns (r: Option<int>)
      requires Valid()
      modifies this, slots, dibs
      ensures r == None <==> old(LosesNull(oldKey, newKey))
      ensures r.Some? ==> Valid() && slots == old(slots) && dibs == old(dibs)
      ensures r.Some? ==> r.value == if Find(ops, old(Contents()), oldKey) < 0 then ENOENT else 0
      ensures r.Some? ==> Contents() == Replaced(ops, old(Contents()), oldKey, newKey, value)
    {
      hide Core, HasStop, StorageOk, Absent, LowestOk, Find, LastShifted;
      var idxOld; ghost var a;
      idxOld, a := Locate(oldKey);
      if idxOld == IDX_NIL {
        return Some(ENOENT);
      }
      var storedKey := slots[idxOld].key;
      var idxNew; ghost var b;
      idxNew, b := Locate(newKey);
      assert LosesNull(oldKey, newKey) <==> b >= 0 && a != b && storedKey == NULL && LastShifted(T(), a, b);
      ValidKeysDiffer();
      ReplacedAbsent(ops, Contents(), oldKey, newKey);
      hide LosesNull;
      if idxNew != IDX_NIL && idxOld != idxNew {
        idxOld, a := RemoveNew(idxOld, idxNew, storedKey, a, b);
        if dibs[idxOld] == DIB_RAW_FREE {
          return None;
        }
      }
      RemoveEntry(idxOld, a);
      PutBoldly(newKey, value);
      return Some(0);
    }

    lemma {:induction false} ValidKeysDiffer()
      requires Valid()
      ensures KeysDiffer(ops, Contents())
    {
    }

    // ----- moving all entries of another map -----

    /** The storage of the two maps is apart. */
    ghost predicate Apart(other: Hashmap)
      reads this, other
    {
      this != other && slots != other.slots && dibs != other.dibs
    }

    /** Moves the entry just visited, unless its key is here already. */
    method MoveOrSkip(other: Hashmap, it: Iterator, idx: nat, ghost a: nat, ghost cursor: nat)
      returns (moves: bool, ghost cursor': nat)
      requires Valid() && other.Valid() && Apart(other) && kind == other.kind && ops == other.ops
      requires nEntries < dibs.Length
      requires a < |other.order| && other.order[a] == idx && Behind(other.T(), other.IsOrdered(), cursor, a)
      requires Exact(other.T(), other.IsOrdered(), it.idx, it.nextKey, cursor)
      modifies this`head, this`tail, this`order, this`idxLowestEntry, this`nEntries, slots, dibs
      modifies other`head, other`tail, other`order, other`nEntries, other.slots, other.dibs
      ensures Valid() && other.Valid()
      ensures Standing(other.T(), other.IsOrdered(), it.idx, it.nextKey, cursor')
      ensures var p := old(other.Contents())[a]; moves <==> Find(ops, old(Contents()), p.key) < 0
      ensures if moves then
          && Contents() == old(Contents()) + [old(other.Contents())[a]]
          && other.Contents() == Without(old(other.Contents()), a)
          && |other.order| == |old(other.order)| - 1
          && NothingPassed(old(other.T()), other.T(), other.IsOrdered(), cursor, cursor', a)
        else
          Contents() == old(Contents()) && other.T() == old(other.T()) && cursor' == cursor
    {
      hide Smooth, RawOk, Linked, HasStop, FreeIsZero, StorageOk, Absent, Find, Tracks, KeysDiffer, Standing, StandingOn, NothingPassed;
      var e := other.slots[idx];
      var found := Contains(e.key);
      if found {
        return false, cursor;
      }
      PutBoldly(e.key, e.value);
      cursor' := other.RemoveCurrent(it, idx, a, cursor);
      return true, cursor';
    }

    /** Moves every entry of `other` whose key is not here; the others stay. */
    method MoveFrom(other: Hashmap, allocates: bool, freshHashKey: nat) returns (r: int, ghost moved: seq<Pair>)
      requires Valid() && other.Valid() && Apart(other) && kind == other.kind && ops == other.ops
      requires KeysNonNull(other.Contents())
      requires Defined(ResizePlan(kind, hasIndirect, nEntries, dibs.Length, other.nEntries))
      modifies this, slots, dibs, other, other.slots, other.dibs
      ensures Valid() && other.Valid() && (r == 0 || r == ENOMEM)
      ensures r == ENOMEM <==> Refuses(old(ResizePlan(kind, hasIndirect, nEntries, dibs.Length, other.nEntries)), allocates)
      ensures r == ENOMEM ==> moved == [] && other.Contents() == old(other.Contents())
      ensures Contents() == old(Contents()) + moved
      ensures multiset(other.Contents()) + multiset(moved) == multiset(old(other.Contents()))
      ensures r == 0 ==> forall i :: 0 <= i < |moved| ==> Find(ops, old(Contents()), moved[i].key) < 0
      ensures r == 0 ==> forall j :: 0 <= j < |other.order| ==> Find(ops, old(Contents()), other.Contents()[j].key) >= 0
    {
      hide Settled, LowestOk, Absent, Find;
      moved := [];
      ghost var h0, o0 := Contents(), other.Contents();
      BucketsBounded(other.kind, other.hasIndirect, other.dibs.Length);
      r := ResizeBuckets(other.nEntries, allocates, freshHashKey);
      if r < 0 {
        return;
      }
      moved := MoveEntries(other, h0);
      r := 0;
    }

    /** The loop of the move, once there is room for all entries of `other`. */
    method MoveEntries(other: Hashmap, ghost h0: seq<Pair>) returns (ghost moved: seq<Pair>)
      requires Valid() && other.Valid() && Apart(other) && kind == other.kind && ops == other.ops
      requires KeysNonNull(other.Contents()) && Contents() == h0 && nEntries + other.nEntries <= dibs.Length
      modifies this, slots, dibs, other, other.slots, other.dibs
      ensures Valid() && other.Valid()
      ensures Moving(ops, h0, old(other.Contents()), moved, Contents(), other.Contents())
      ensures forall j :: 0 <= j < |other.order| ==> Find(ops, h0, other.Contents()[j].key) >= 0
    {
      hide Settled, LowestOk, StorageOk, Absent, Find, Standing, AllBehind, Moving;
      ghost var o0 := other.Contents();
      ghost var cursor: nat := 0;
      moved := [];
      var it := new Iterator();
      FreshMove(other, it, h0);
      var done := false;
      while !done
        invariant Valid() && other.Valid() && fresh(it) && Apart(other)
        invariant slots == old(slots) && dibs == old(dibs) && other.slots == old(other.slots) && other.dibs == old(other.dibs)
        invariant done || MoveInv(other, it, h0, o0, moved, cursor)
        invariant Moving(ops, h0, o0, moved, Contents(), other.Contents())
        invariant done ==> forall j :: 0 <= j < |other.order| ==> Find(ops, h0, other.Contents()[j].key) >= 0
        decreases !done, other.nEntries, End(other.T(), other.IsOrdered()) - cursor
      {
        done, moved, cursor := MoveRound(other, it, h0, o0, moved, cursor);
      }
    }

    ghost predicate MoveInv(other: Hashmap, it: Iterator, h0: seq<Pair>, o0: seq<Pair>, moved: seq<Pair>, cursor: nat)
      requires Valid() && other.Valid()
      reads this, slots, dibs, other, other.slots, other.dibs, it
    {
      KeysNonNull(other.Contents()) && nEntries + other.nEntries <= dibs.Length &&
      Moving(ops, h0, o0, moved, Contents(), other.Contents()) &&
      Standing(other.T(), other.IsOrdered(), it.idx, it.nextKey, cursor) &&
      AllBehind(other.T(), other.IsOrdered(), cursor, KnownKeys(ops, h0))
    }

    lemma {:induction false} FreshMove(other: Hashmap, it: Iterator, h0: seq<Pair>)
      requires Valid() && other.Valid() && it.idx == IDX_FIRST
      requires KeysNonNull(other.Contents()) && Contents() == h0 && nEntries + other.nEntries <= dibs.Length
      ensures MoveInv(other, it, h0, other.Contents(), [], 0)
    {
      hide Smooth, RawOk, Linked, HasStop, FreeIsZero, StorageOk, LowestOk, Find, Tracks;
      FreshAllBehind(other.T(), other.IsOrdered(), KnownKeys(ops, h0));
    }

    /** One round: visits the next entry of `other`, and moves or skips it. */
    method MoveRound(other: Hashmap, it: Iterator, ghost h0: seq<Pair>, ghost o0: seq<Pair>, ghost moved: seq<Pair>, ghost cursor: nat)
      returns (done: bool, ghost moved': seq<Pair>, ghost cursor': nat)
      requires Valid() && other.Valid() && Apart(other) && kind == other.kind && ops == other.ops
      requires MoveInv(other, it, h0, o0, moved, cursor)
      modifies this`head, this`tail, this`order, this`idxLowestEntry, this`nEntries, slots, dibs, it
      modifies other`head, other`tail, other`order, other`idxLowestEntry, other`nEntries, other.slots, other.dibs
      ensures Valid() && other.Valid() && (done || MoveInv(other, it, h0, o0, moved', cursor'))
      ensures Moving(ops, h0, o0, moved', Contents(), other.Contents())
      ensures done || other.nEntries < old(other.nEntries) ||
        (other.T() == old(other.T()) && other.nEntries == old(other.nEntries) && cursor < cursor' <= End(other.T(), other.IsOrdered()))
      ensures done ==> forall j :: 0 <= j < |other.order| ==> Find(ops, h0, other.Contents()[j].key) >= 0
    {
      hide Smooth, RawOk, Linked, HasStop, FreeIsZero, StorageOk, LowestOk, Absent, Find, Tracks, StandingOn, Standing, Behind,
           NothingPassed, Exact, Slots, Moving, AllBehind;
      ghost var known := KnownKeys(ops, h0);
      var idx; ghost var a; ghost var next;
      idx, a, next := other.Iterate(it, cursor);
      if idx == IDX_NIL {
        AllKnown(other.T(), other.IsOrdered(), cursor, known);
        return true, moved, cursor;
      }
      ghost var t, h := other.T(), Contents();
      var moves;
      moves, cursor' := MoveOrSkip(other, it, idx, a, next);
      if moves {
        MovingMoves(ops, h0, o0, moved, h, t.Contents(), a);
        WithoutNonNull(t.Contents(), a);
        RemoveKeepsBehind(t, other.T(), other.IsOrdered(), cursor, next, cursor', a, known);
        return false, moved + [t.Contents()[a]], cursor';
      }
      MovingFound(ops, h0, o0, moved, h, t.Contents(), a);
      SkipKeepsBehind(t, other.IsOrdered(), cursor, next, a, known);
      return false, moved, cursor';
    }
  }

  /** Every key has its home in bucket 0, and keys are compared as they are. */
  const CROWDED := HashOps((hashKey, ident) => 0, (key: nat) => key)

  /** Key 5 in bucket 0 and, behind it, the key NULL in bucket 1. */
  ghost function NullBehind(slots: seq<Entry>): Table
    requires |slots| == 4
  {
    Table(slots[0 := Entry(5, 7, 0, 0)][1 := Entry(NULL, 8, 0, 0)], [0, 1], 0, 0, [0, 1])
  }

  lemma {:induction false} NullBehindDibs(slots: seq<Entry>)
    requires |slots| == 4
    ensures var h, t := Hasher(CROWDED, 0), NullBehind(slots);
      Shape(t) && Dibs(h, t) == [0, 1] && RawOk(h, t) && Smooth(Dibs(h, t)) && HasStop(h, t)
  {
    var h, t := Hasher(CROWDED, 0), NullBehind(slots);
    assert DibAt(h, t, 0) == 0 && DibAt(h, t, 1) == 1;
    assert Dibs(h, t) == [0, 1];
  }

  lemma {:induction false} NullBehindContents(slots: seq<Entry>)
    requires |slots| == 4
    ensures var t := NullBehind(slots);
      && Shape(t) && Tracks(t) && FreeIsZero(t) && t.Contents() == [Pair(5, 7), Pair(NULL, 8)]
      && KeysDiffer(CROWDED, t.Contents()) && LastShifted(t, 1, 0)
  {
    var t := NullBehind(slots);
    assert t.order[0] == 0 && t.order[1] == 1;
    assert t.Contents() == [Pair(5, 7), Pair(NULL, 8)];
  }

  lemma {:induction false} NullBehindFind()
    ensures Find(CROWDED, [Pair(5, 7), Pair(NULL, 8)], NULL) == 1 && Find(CROWDED, [Pair(5, 7), Pair(NULL, 8)], 5) == 0
  {
    var c := [Pair(5, 7), Pair(NULL, 8)];
    assert Stores(CROWDED, c, NULL, 1) && Stores(CROWDED, c, 5, 0);
  }

  lemma {:induction false} NullBehindIsFine(slots: seq<Entry>)
    requires |slots| == 4
    ensures Settled(Hasher(CROWDED, 0), false, NullBehind(slots))
  {
    hide RawOk, Smooth, HasStop, Tracks, FreeIsZero, KeysDiffer;
    NullBehindDibs(slots);
    NullBehindContents(slots);
  }

  lemma {:induction false} DirectStorage(h: Hashmap)
    requires h.Valid() && h.kind == Plain && !h.hasIndirect
    ensures h.dibs.Length == 2 && h.slots.Length == 4
  {
  }

  /** A table on which `hashmap_remove_and_replace` fails: when key 5 is removed the
      entry of NULL moves to bucket 0, and the free bucket 1 is taken for it. */
  method NullKeyIsLost() returns (r: Option<int>)
    ensures r == None
  {
    hide Settled, LastShifted, Find, NullBehind, StorageOk;
    var h := new Hashmap(Plain, CROWDED, 0);
    DirectStorage(h);
    NullBehindIsFine(h.slots[..]);
    NullBehindContents(h.slots[..]);
    NullBehindFind();
    ghost var t := NullBehind(h.slots[..]);
    FillNullBehind(h);
    assert h.T() == t;
    r := h.RemoveAndReplace(NULL, 5, 9);
  }

  method FillNullBehind(h: Hashmap)
    requires h.slots.Length == 4 && h.dibs.Length == 2
    modifies h, h.slots, h.dibs
    ensures h.T() == NullBehind(old(h.slots[..])) && h.slots == old(h.slots) && h.dibs == old(h.dibs)
    ensures h.nEntries == 2 && h.hasIndirect == old(h.hasIndirect)
  {
    h.slots[0], h.slots[1] := Entry(5, 7, 0, 0), Entry(NULL, 8, 0, 0);
    h.dibs[0], h.dibs[1] := 0, 1;
    h.head, h.tail, h.nEntries, h.order := 0, 0, 2, [0, 1];
  }
}
