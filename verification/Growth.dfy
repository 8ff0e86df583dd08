/** How many buckets a hashmap has, and when it must get more. */
module Growth {
  datatype Kind = Plain | Ordered | Set

  const UINT_MAX: nat := 0xffff_ffff
  const DIRECT_STORAGE_SIZE: nat := 39
  const INV_KEEP_FREE: nat := 5

  /** Bytes of one bucket and its distance byte. */
  function BucketSize(kind: Kind): nat {
    match kind
    case Plain => 17
    case Ordered => 25
    case Set => 9
  }

  function DirectBuckets(kind: Kind): nat {
    DIRECT_STORAGE_SIZE / BucketSize(kind)
  }

  function Pow2(s: nat): (r: nat)
    ensures r > 0
  {
    if s == 0 then 1 else 2 * Pow2(s - 1)
  }

  function Log2(x: nat): (s: nat)
    requires x > 0
    ensures Pow2(s) <= x < 2 * Pow2(s)
  {
    if x == 1 then 0 else Log2(x / 2) + 1
  }

  function Log2RoundUp(x: nat): (s: nat)
    requires x > 0
    ensures x <= Pow2(s)
    ensures s == 0 || Pow2(s - 1) < x
  {
    if x == 1 then 0 else Log2(x - 1) + 1
  }

  lemma {:induction false} Pow2Monotone(a: nat, b: nat)
    requires a <= b
    ensures Pow2(a) <= Pow2(b)
  {
    if a < b { Pow2Monotone(a, b - 1); }
  }

  datatype Plan = NoMemory | Fits | Grow(shift: nat)

  /** Buckets wanted for `e` entries at the maximal load, one fifth kept free. */
  function Wanted(e: nat): nat {
    e + e / (INV_KEEP_FREE - 1)
  }

  function StorageBytes(kind: Kind, buckets: nat): (b: nat)
    ensures b > 0
  {
    if buckets * BucketSize(kind) > 2 * DIRECT_STORAGE_SIZE then buckets * BucketSize(kind) else 2 * DIRECT_STORAGE_SIZE
  }

  /** The decision of `resize_buckets`, in 32-bit arithmetic. */
  function ResizePlan(kind: Kind, hasIndirect: bool, nEntries: nat, nBuckets: nat, add: nat): Plan {
    var newEntries := (nEntries + add) % (UINT_MAX + 1);
    if newEntries < add then NoMemory
    else if !hasIndirect && newEntries <= DirectBuckets(kind) then Fits
    else
      var newBuckets := Wanted(newEntries) % (UINT_MAX + 1);
      if newBuckets < newEntries then NoMemory
      else if newBuckets > UINT_MAX / BucketSize(kind) then NoMemory
      else if newBuckets <= nBuckets then Fits
      else Grow(Log2RoundUp(StorageBytes(kind, newBuckets)))
  }

  /** The request ends in -ENOMEM. */
  predicate Refuses(p: Plan, allocates: bool) {
    p == NoMemory || (p.Grow? && !allocates)
  }

  function BucketsOf(kind: Kind, shift: nat): nat {
    Pow2(shift) / BucketSize(kind)
  }

  /** Direct storage has its fixed size; indirect storage is a power of two of
      at least 128 bytes, filled with as many buckets as fit. */
  ghost predicate StorageOk(kind: Kind, hasIndirect: bool, nBuckets: nat) {
    if hasIndirect then exists s: nat :: 7 <= s <= 31 && nBuckets == BucketsOf(kind, s)
    else nBuckets == DirectBuckets(kind)
  }

  /** The shift `1U << shift` is defined. */
  predicate Defined(p: Plan) {
    p.Grow? ==> p.shift <= 31
  }

  lemma {:induction false} Pow2At7()
    ensures Pow2(6) == 64 && Pow2(7) == 128
  {
    assert Pow2(3) == 8;
  }

  lemma {:induction false} Pow2At31()
    ensures Pow2(31) == 0x8000_0000
  {
    assert Pow2(8) == 256 by { assert Pow2(4) == 16; }
    assert Pow2(16) == 0x1_0000 by { assert Pow2(12) == 4096; }
    assert Pow2(24) == 0x100_0000 by { assert Pow2(20) == 0x10_0000; }
    assert Pow2(28) == 0x1000_0000;
  }

  /** The overflow checks catch every wrap-around. */
  lemma {:induction false} PlanIsExact(kind: Kind, hasIndirect: bool, nEntries: nat, nBuckets: nat, add: nat)
    requires nEntries <= UINT_MAX && add <= UINT_MAX
    ensures var p := ResizePlan(kind, hasIndirect, nEntries, nBuckets, add);
      && (p != NoMemory ==> nEntries + add <= UINT_MAX)
      && (p == Fits ==> (!hasIndirect && nEntries + add <= DirectBuckets(kind)) || Wanted(nEntries + add) <= nBuckets)
      && (p.Grow? ==> hasIndirect || nEntries + add > DirectBuckets(kind))
      && (p.Grow? ==> nBuckets < Wanted(nEntries + add) <= UINT_MAX / BucketSize(kind))
      && (p.Grow? ==> p.shift == Log2RoundUp(StorageBytes(kind, Wanted(nEntries + add))))
      && (p == NoMemory <==>
            (nEntries + add > UINT_MAX ||
             ((hasIndirect || nEntries + add > DirectBuckets(kind)) && Wanted(nEntries + add) > UINT_MAX / BucketSize(kind))))
  {
    SizesAreBounded(kind, nEntries + add);
    SumWraps(nEntries, add);
    if nEntries + add <= UINT_MAX { WantedWraps(nEntries + add); }
    hide Log2RoundUp, StorageBytes, Wanted, BucketSize, DirectBuckets;
  }

  lemma {:induction false} SizesAreBounded(kind: Kind, n: nat)
    ensures Wanted(n) >= n && UINT_MAX / BucketSize(kind) < UINT_MAX && DirectBuckets(kind) < UINT_MAX
  {
  }

  lemma {:induction false} SumWraps(a: nat, b: nat)
    requires a <= UINT_MAX && b <= UINT_MAX
    ensures if a + b <= UINT_MAX then (a + b) % (UINT_MAX + 1) == a + b else (a + b) % (UINT_MAX + 1) < b
  {
  }

  lemma {:induction false} WantedWraps(n: nat)
    requires n <= UINT_MAX
    ensures Wanted(n) <= UINT_MAX ==> Wanted(n) % (UINT_MAX + 1) == Wanted(n)
    ensures Wanted(n) > UINT_MAX ==> Wanted(n) % (UINT_MAX + 1) < n
  {
  }

  /** Growing is defined exactly when the requested storage is at most 2^31 bytes. */
  lemma {:induction false} DefinedIff(kind: Kind, hasIndirect: bool, nEntries: nat, nBuckets: nat, add: nat)
    requires nEntries <= UINT_MAX && add <= UINT_MAX
    requires ResizePlan(kind, hasIndirect, nEntries, nBuckets, add).Grow?
    ensures Defined(ResizePlan(kind, hasIndirect, nEntries, nBuckets, add)) <==>
      StorageBytes(kind, Wanted(nEntries + add)) <= 0x8000_0000
  {
    PlanIsExact(kind, hasIndirect, nEntries, nBuckets, add);
    ShiftAtMost31(StorageBytes(kind, Wanted(nEntries + add)));
    hide ResizePlan, StorageBytes, Wanted;
  }

  lemma {:induction false} SevenBuckets()
    ensures StorageOk(Plain, true, 7)
  {
    Pow2At7();
    assert BucketsOf(Plain, 7) == 7;
  }

  /** A request that grows by an undefined shift: room for 110 million entries. */
  lemma {:induction false} UndefinedShift()
    ensures var p := ResizePlan(Plain, true, 0, 7, 110_000_000); StorageOk(Plain, true, 7) && p.Grow? && !Defined(p)
  {
    hide Log2RoundUp, Log2, Pow2, BucketsOf, StorageOk, ResizePlan;
    SevenBuckets();
    var n := 110_000_000;
    assert Wanted(n) == 137_500_000;
    assert StorageBytes(Plain, Wanted(n)) == 2_337_500_000;
    PlanIsExact(Plain, true, 0, 7, n);
    DefinedIff(Plain, true, 0, 7, n);
  }

  lemma {:induction false} ShiftAtMost31(bytes: nat)
    requires bytes > 0
    ensures Log2RoundUp(bytes) <= 31 <==> bytes <= 0x8000_0000
  {
    var s := Log2RoundUp(bytes);
    Pow2At31();
    if s <= 31 { Pow2Monotone(s, 31); } else { Pow2Monotone(31, s - 1); }
  }

  lemma {:induction false} ShiftAtLeast(bytes: nat, s: nat)
    requires bytes > Pow2(s)
    ensures Log2RoundUp(bytes) > s
  {
    if Log2RoundUp(bytes) <= s { Pow2Monotone(Log2RoundUp(bytes), s); }
  }

  lemma {:induction false} HalfBuckets(kind: Kind, s: nat)
    requires s > 0
    ensures BucketsOf(kind, s) >= 2 * BucketsOf(kind, s - 1)
  {
  }

  lemma {:induction false} BucketsMonotone(kind: Kind, a: nat, b: nat)
    requires a <= b
    ensures BucketsOf(kind, a) <= BucketsOf(kind, b)
  {
    if a < b {
      BucketsMonotone(kind, a, b - 1);
      HalfBuckets(kind, b);
    }
  }

  /** When the table grows there is room for all requested entries, and the
      number of buckets at least doubles. */
  lemma {:induction false} GrowDoubles(kind: Kind, hasIndirect: bool, nEntries: nat, nBuckets: nat, add: nat)
    requires nEntries <= UINT_MAX && add <= UINT_MAX && StorageOk(kind, hasIndirect, nBuckets)
    requires ResizePlan(kind, hasIndirect, nEntries, nBuckets, add).Grow?
    requires Defined(ResizePlan(kind, hasIndirect, nEntries, nBuckets, add))
    ensures var n := BucketsOf(kind, ResizePlan(kind, hasIndirect, nEntries, nBuckets, add).shift);
      && n >= 2 * nBuckets && n >= Wanted(nEntries + add) && n > 0 && StorageOk(kind, true, n)
  {
    hide ResizePlan, StorageBytes, Wanted, Log2RoundUp, Pow2, BucketsOf, DirectBuckets;
    PlanIsExact(kind, hasIndirect, nEntries, nBuckets, add);
    var s := ResizePlan(kind, hasIndirect, nEntries, nBuckets, add).shift;
    var w := Wanted(nEntries + add);
    RoomFor(kind, w);
    SmallestStorage(kind, w);
    BucketsMonotone(kind, 7, s);
    if hasIndirect { GrowsFrom(kind, nBuckets, w, s); }
  }

  lemma {:induction false} GrowsFrom(kind: Kind, nBuckets: nat, w: nat, s: nat)
    requires StorageOk(kind, true, nBuckets) && w > nBuckets && s == Log2RoundUp(StorageBytes(kind, w))
    ensures BucketsOf(kind, s) >= 2 * nBuckets
  {
    hide StorageBytes, Log2RoundUp, Pow2, BucketsOf;
    var before :| 7 <= before <= 31 && nBuckets == BucketsOf(kind, before);
    MoreThan(kind, before, w);
    ShiftAtLeast(StorageBytes(kind, w), before);
    BucketsMonotone(kind, before + 1, s);
    HalfBuckets(kind, before + 1);
  }

  lemma {:induction false} SmallestStorage(kind: Kind, w: nat)
    ensures Log2RoundUp(StorageBytes(kind, w)) >= 7
    ensures BucketsOf(kind, 7) > 0 && BucketsOf(kind, 7) >= 2 * DirectBuckets(kind)
  {
    Pow2At7();
    ShiftAtLeast(StorageBytes(kind, w), 6);
  }

  lemma {:induction false} RoomFor(kind: Kind, w: nat)
    ensures BucketsOf(kind, Log2RoundUp(StorageBytes(kind, w))) >= w
  {
  }

  lemma {:induction false} MoreThan(kind: Kind, s: nat, w: nat)
    requires w > BucketsOf(kind, s)
    ensures StorageBytes(kind, w) > Pow2(s)
  {
  }

  /** When the table need not grow there is room as well. */
  lemma {:induction false} FitsHasRoom(kind: Kind, hasIndirect: bool, nEntries: nat, nBuckets: nat, add: nat)
    requires nEntries <= UINT_MAX && add <= UINT_MAX && StorageOk(kind, hasIndirect, nBuckets)
    requires ResizePlan(kind, hasIndirect, nEntries, nBuckets, add) == Fits
    ensures nEntries + add <= nBuckets
  {
    PlanIsExact(kind, hasIndirect, nEntries, nBuckets, add);
  }

  /** The old distance bytes, moved to the end of the doubled bucket array, do
      not overlap the place they are read from. */
  lemma {:induction false} DibArraysApart(kind: Kind, before: nat, after: nat)
    requires after >= 2 * before
    ensures var size := BucketSize(kind) - 1; size * before + before <= size * after
  {
  }

  lemma {:induction false} LeastAndMost(kind: Kind)
    ensures 0 < BucketsOf(kind, 7) && BucketsOf(kind, 31) <= UINT_MAX / BucketSize(kind)
    ensures 0 < DirectBuckets(kind) <= UINT_MAX / BucketSize(kind)
  {
    Pow2At7();
    Pow2At31();
    hide Pow2;
  }

  lemma {:induction false} BucketsBounded(kind: Kind, hasIndirect: bool, nBuckets: nat)
    requires StorageOk(kind, hasIndirect, nBuckets)
    ensures 0 < nBuckets <= UINT_MAX / BucketSize(kind)
  {
    hide BucketsOf, BucketSize, DirectBuckets;
    LeastAndMost(kind);
    if hasIndirect {
      var s :| 7 <= s <= 31 && nBuckets == BucketsOf(kind, s);
      BucketsMonotone(kind, s, 31);
      BucketsMonotone(kind, 7, s);
    }
  }

  /** So many entries still need at most 2^31 bytes. */
  predicate WithinLimit(kind: Kind, entries: nat) {
    StorageBytes(kind, Wanted(entries)) <= 0x8000_0000
  }

  /** Within the limit no size computation overflows, and only the allocator can fail. */
  lemma {:induction false} WithinLimitGrows(kind: Kind, hasIndirect: bool, nEntries: nat, nBuckets: nat, add: nat, limit: nat)
    requires nEntries + add <= limit && WithinLimit(kind, limit)
    ensures var p := ResizePlan(kind, hasIndirect, nEntries, nBuckets, add); p != NoMemory && Defined(p)
  {
    hide Log2RoundUp, StorageBytes, BucketSize, DirectBuckets, Pow2;
    WantedMonotone(nEntries + add, limit);
    BytesMonotone(kind, Wanted(nEntries + add), Wanted(limit));
    ShiftAtMost31(StorageBytes(kind, Wanted(nEntries + add)));
    SmallWanted(kind, Wanted(nEntries + add));
    NoWrap(nEntries + add);
  }

  lemma {:induction false} NoWrap(e: nat)
    requires Wanted(e) <= UINT_MAX
    ensures e % (UINT_MAX + 1) == e <= Wanted(e)
  {
  }

  lemma {:induction false} SmallWanted(kind: Kind, w: nat)
    requires StorageBytes(kind, w) <= 0x8000_0000
    ensures w <= UINT_MAX / BucketSize(kind) && w % (UINT_MAX + 1) == w <= UINT_MAX
  {
    match kind
    case Plain =>
    case Ordered =>
    case Set =>
  }

  lemma {:induction false} WantedMonotone(a: nat, b: nat)
    requires a <= b
    ensures Wanted(a) <= Wanted(b)
  {
  }

  lemma {:induction false} BytesMonotone(kind: Kind, a: nat, b: nat)
    requires a <= b
    ensures StorageBytes(kind, a) <= StorageBytes(kind, b)
  {
  }

  // ---- the load factor ----

  /** So many entries leave one bucket in five free. */
  lemma {:induction false} WantedIsLoad(e: nat, buckets: nat)
    ensures Wanted(e) <= buckets <==> 5 * e <= 4 * buckets + 3
  {
  }

  /** Outside direct storage nothing need grow exactly if the entries fill at most
      four fifths of the buckets. */
  lemma {:induction false} FitsIff(kind: Kind, hasIndirect: bool, nEntries: nat, nBuckets: nat, add: nat)
    requires nEntries <= UINT_MAX && add <= UINT_MAX && (hasIndirect || nEntries + add > DirectBuckets(kind))
    requires ResizePlan(kind, hasIndirect, nEntries, nBuckets, add) != NoMemory
    ensures ResizePlan(kind, hasIndirect, nEntries, nBuckets, add) == Fits <==> 5 * (nEntries + add) <= 4 * nBuckets + 3
  {
    hide ResizePlan, Wanted;
    PlanIsExact(kind, hasIndirect, nEntries, nBuckets, add);
    WantedIsLoad(nEntries + add, nBuckets);
  }

  /** The new storage is the smallest power of two, of at least 128 bytes, that holds
      the entries at that load. */
  lemma {:induction false} GrowsToLeast(kind: Kind, hasIndirect: bool, nEntries: nat, nBuckets: nat, add: nat)
    requires nEntries <= UINT_MAX && add <= UINT_MAX
    requires ResizePlan(kind, hasIndirect, nEntries, nBuckets, add).Grow?
    ensures var s, e := ResizePlan(kind, hasIndirect, nEntries, nBuckets, add).shift, nEntries + add;
      && s >= 7 && 5 * e <= 4 * BucketsOf(kind, s) + 3
      && (s > 7 ==> 5 * e > 4 * BucketsOf(kind, s - 1) + 3)
  {
    hide ResizePlan, Wanted, Log2RoundUp, Pow2, BucketsOf, StorageBytes;
    PlanIsExact(kind, hasIndirect, nEntries, nBuckets, add);
    var s, w := ResizePlan(kind, hasIndirect, nEntries, nBuckets, add).shift, Wanted(nEntries + add);
    RoomFor(kind, w);
    SmallestStorage(kind, w);
    WantedIsLoad(nEntries + add, BucketsOf(kind, s));
    if s > 7 {
      HalfTooSmall(kind, w, s);
      WantedIsLoad(nEntries + add, BucketsOf(kind, s - 1));
    }
  }

  lemma {:induction false} HalfTooSmall(kind: Kind, w: nat, s: nat)
    requires s == Log2RoundUp(StorageBytes(kind, w)) && s > 7
    ensures w > BucketsOf(kind, s - 1)
  {
    Pow2At7();
    Pow2Monotone(7, s - 1);
    var half := Pow2(s - 1);
    hide Log2RoundUp, Pow2;
    assert StorageBytes(kind, w) == w * BucketSize(kind);
  }
}
