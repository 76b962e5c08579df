/** Retention of bulk slots, exactly: every slot is bounded except the one of the reserve limit itself, whose
    pages hold one object while Put looks for pages of four. */
module BulkRetention {
  import opened Words
  import opened SlotMath
  import opened FreeLists
  import opened SlotPages
  import opened PoolState
  import opened PoolRuns

  ghost predicate EntirelyFree(g: Geometry, s: Slot, page: nat) {
    page in s.free.objs && |s.free.objs[page]| == PerPage(g)
  }

  /** Below the mark plus one page, or no page with all of its objects free. */
  ghost predicate Kept(c: Config, p: Pool, k: SlotKey) {
    Total(At(p, k).free.objs) < Geo(c, k).resident + PerPage(Geo(c, k))
    || forall q :: !EntirelyFree(Geo(c, k), At(p, k), q)
  }

  ghost predicate AlwaysKept(c: Config, k: SlotKey) {
    forall run: seq<Snapshot>, i: nat :: IsRun(c, run) && i < |run| ==> Kept(c, run[i].pool, k)
  }

  /** The index of the slot whose objects have exactly the reserve limit. */
  function LimitIdx(c: Config): nat
    requires 0 < c.pageSize
  {
    Div(RESIDENT_BULK_MAX, c.pageSize)
  }

  /** A configuration in which requests of the reserve limit are bulk requests. */
  ghost predicate LimitIsBulk(c: Config) {
    ValidConfig(c) && c.bulkThreshold < RESIDENT_BULK_MAX && c.tinyThreshold < RESIDENT_BULK_MAX
  }

  lemma LimitGeometry(pageSize: uint32, resident: uint32)
    requires 0 < pageSize <= RESIDENT_BULK_MAX && RESIDENT_BULK_MAX % pageSize == 0
    ensures var g := BulkGeo(RESIDENT_BULK_MAX, pageSize, resident);
            Sound(g) && PerPage(g) == 1 && g.fullCnt == 4 && g.pageBytes == g.slotSize == RESIDENT_BULK_MAX
  {
    ExpandSizeExact(RESIDENT_BULK_MAX, BULK_EXPAND_FACTOR, pageSize);
  }

  lemma LeastMultipleUnique(a: nat, b: nat, n: nat, d: nat)
    requires 0 < d && IsLeastMultiple(a, n, d) && IsLeastMultiple(b, n, d)
    ensures a == b
  {
  }

  lemma LimitKey(c: Config)
    requires LimitIsBulk(c)
    ensures 0 < c.pageSize <= RESIDENT_BULK_MAX && RESIDENT_BULK_MAX % c.pageSize == 0
    ensures c.pageSize * LimitIdx(c) == RESIDENT_BULK_MAX && 1 <= LimitIdx(c)
    ensures Request(c, RESIDENT_BULK_MAX) && c.tinyThreshold < RESIDENT_BULK_MAX
  {
    hide ValidConfig;
    PageFacts(c);
    ExactDivision(RESIDENT_BULK_MAX, c.pageSize);
  }

  lemma ExactDivision(a: nat, d: nat)
    requires 0 < d <= a && a % d == 0
    ensures d * (a / d) == a && 1 <= a / d
  {
    MulLe(d, a / d, 0);
  }

  lemma LimitNeed(c: Config)
    requires LimitIsBulk(c)
    ensures PageExponentOk(c) && BulkNeed(c, RESIDENT_BULK_MAX) == LimitIdx(c)
  {
    LimitKey(c);
    BulkNeedValid(c, RESIDENT_BULK_MAX);
    LeastMultipleUnique(SizeOf(c, Bulk(BulkNeed(c, RESIDENT_BULK_MAX))), RESIDENT_BULK_MAX, RESIDENT_BULK_MAX,
                        c.pageSize);
    SameProduct(c.pageSize, BulkNeed(c, RESIDENT_BULK_MAX), LimitIdx(c));
  }

  lemma LimitSlot(c: Config)
    requires LimitIsBulk(c)
    ensures 0 < c.pageSize && SizeOf(c, Bulk(LimitIdx(c))) == RESIDENT_BULK_MAX && ValidKey(c, Bulk(LimitIdx(c)))
    ensures var g := Geo(c, Bulk(LimitIdx(c)));
            Sound(g) && PerPage(g) == 1 && g.fullCnt == 4 && g.pageBytes == g.slotSize == RESIDENT_BULK_MAX
  {
    LimitKey(c);
    LimitGeometry(c.pageSize, c.bulkResident);
  }

  lemma Longer(c: Config, run: seq<Snapshot>, s': Snapshot) returns (run': seq<Snapshot>)
    requires IsRun(c, run) && Step(c, run[|run| - 1], s')
    ensures IsRun(c, run') && run' == run + [s']
  {
    run' := run + [s'];
    forall i | 0 <= i < |run'| - 1
      ensures Step(c, run'[i], run'[i + 1])
    {
      if i < |run| - 1 { assert Step(c, run[i], run[i + 1]); }
    }
  }

  // A run that takes n objects of the limit slot and returns them all.

  ghost predicate TakingPhase(c: Config, s: Snapshot, n: nat)
    requires 0 < c.pageSize
  {
    && s.pool.bulkFree == map[] && s.pool.bulkOrder == map[] && |s.out| == n
    && (forall gr :: gr in s.out ==> gr.key == Bulk(LimitIdx(c)))
    && HeapBelow(s.pool.heap, (n + 1) * RESIDENT_BULK_MAX)
  }

  ghost predicate HeapBelow(heap: map<nat, Region>, top: nat) {
    forall q :: q in heap ==> q < top && q + heap[q].bytes <= top
  }

  lemma TakeAnother(c: Config, s: Snapshot, n: nat) returns (s': Snapshot)
    requires LimitIsBulk(c) && 0 < c.pageSize && PoolInv(c, s.pool, s.out) && TakingPhase(c, s, n)
    ensures Step(c, s, s') && TakingPhase(c, s', n + 1)
  {
    LimitSlot(c);
    GrantPages(c, s.pool, s.out);
    var page, r;
    s', page, r := TakeAbove(c, Geo(c, Bulk(LimitIdx(c))), s, n);
    ServedAtLimit(c, s, page, r, s');
  }

  lemma TakeAbove(c: Config, g: Geometry, s: Snapshot, n: nat) returns (s': Snapshot, page: nat, r: Option<Grant>)
    requires 0 < c.pageSize && TakingPhase(c, s, n) && PerPage(g) == 1 && g.pageBytes == RESIDENT_BULK_MAX
    requires forall gr :: gr in s.out ==> gr.page in s.pool.heap
    ensures TakingPhase(c, s', n + 1)
    ensures SlotGet(g, s.pool, Bulk(LimitIdx(c)), page, s'.pool, r) && s'.out == Extend(s.out, r)
  {
    page := (n + 1) * RESIDENT_BULK_MAX;
    var p';
    p', r := TakeNewPage(g, Bulk(LimitIdx(c)), s.pool, page);
    s' := Snapshot(p', Extend(s.out, r));
  }

  /** A limit-sized request with no free bulk object at all is served from a new page. */
  lemma ServedAtLimit(c: Config, s: Snapshot, offer: nat, r: Option<Grant>, s': Snapshot)
    requires LimitIsBulk(c) && 0 < c.pageSize && s'.out == Extend(s.out, r)
    requires s.pool.bulkFree == map[] && s.pool.bulkOrder == map[]
    requires SlotGet(Geo(c, Bulk(LimitIdx(c))), s.pool, Bulk(LimitIdx(c)), offer, s'.pool, r)
    ensures Step(c, s, s')
  {
    LimitKey(c);
    LimitNeed(c);
    NothingListed(s.pool, LimitIdx(c));
    assert BulkGet(c, s.pool, RESIDENT_BULK_MAX, offer, None, s'.pool, r);
    assert Got(c, s, RESIDENT_BULK_MAX, offer, r, s');
  }

  /** With nothing free there is nothing to find, and no slot to drain. */
  lemma NothingListed(p: Pool, need: nat)
    requires p.bulkFree == map[] && p.bulkOrder == map[]
    ensures Suitable(p.bulkFree.Keys, p.bulkOrder.Keys, need, None)
    ensures forall f :: !DrainsSlot(p, need, f)
  {
  }

  lemma TakeNewPage(g: Geometry, k: SlotKey, p: Pool, page: nat) returns (p': Pool, r: Option<Grant>)
    requires PerPage(g) == 1 && k.Bulk? && p.bulkFree == map[] && p.bulkOrder == map[]
    requires Accepts(p.heap, page, g.pageBytes)
    ensures SlotGet(g, p, k, page, p', r) && r == Some(Grant(k, page, page))
    ensures p'.bulkFree == map[] && p'.bulkOrder == map[] && p'.heap == p.heap[page := Region(g.pageBytes, k)]
    ensures p'.registry == p.registry[k.idx := {page}]
  {
    var slot := At(p, k);
    TakeFromNewPage(g, k, slot, page);
    r := Some(Grant(k, page, page));
    p' := Changed(p, k, Slot(slot.pages + {page}, NO_FREE), p.heap[page := Region(g.pageBytes, k)],
                  p.registry[k.idx := {page}]);
    SetAtReads(p, k, Slot(slot.pages + {page}, NO_FREE), k, p'.heap, p'.registry);
  }

  lemma TakeFromNewPage(g: Geometry, key: SlotKey, s: Slot, page: nat)
    requires PerPage(g) == 1 && s.free == NO_FREE
    ensures GetRel(g, key, s, Some(page), Slot(s.pages + {page}, NO_FREE), Some(Grant(key, page, page)))
  {
  }

  lemma {:induction false} TakeMany(c: Config, init: Snapshot, n: nat) returns (run: seq<Snapshot>)
    requires LimitIsBulk(c) && 0 < c.pageSize && Init(c, init)
    ensures IsRun(c, run) && TakingPhase(c, run[|run| - 1], n)
  {
    if n == 0 {
      run := [init];
    } else {
      var before := TakeMany(c, init, n - 1);
      RunKeeps(c, before, |before| - 1);
      var s' := TakeAnother(c, before[|before| - 1], n - 1);
      run := Longer(c, before, s');
    }
  }

  ghost predicate ReturningPhase(c: Config, s: Snapshot, n: nat)
    requires 0 < c.pageSize
  {
    && |s.out| + Total(At(s.pool, Bulk(LimitIdx(c))).free.objs) == n
    && (forall gr :: gr in s.out ==> gr.key == Bulk(LimitIdx(c)))
  }

  /** No list of the limit slot ever reaches the length Put looks for. */
  lemma NeverFull(g: Geometry, key: SlotKey, s: Slot, out: set<Grant>, q: nat)
    requires Sound(g) && PerPage(g) == 1 && SlotInv(g, key, s, out) && q in s.free.objs
    ensures |s.free.objs[q]| == 1
  {
    assert PageSplit(g, key, q, ListOf(s.free.objs, q), out);
    var list := s.free.objs[q];
    FullListHoldsAll(g.slotSize, q, 1, list, list[0]);
  }

  lemma ReturnAnother(c: Config, s: Snapshot, n: nat) returns (s': Snapshot)
    requires LimitIsBulk(c) && 0 < c.pageSize && PoolInv(c, s.pool, s.out) && ReturningPhase(c, s, n) && s.out != {}
    ensures Step(c, s, s') && ReturningPhase(c, s', n) && |s'.out| == |s.out| - 1
  {
    LimitSlot(c);
    var gr :| gr in s.out;
    assert SlotOk(Geo(c, gr.key), s.pool, gr.key, s.out);
    var p' := ReturnOne(Geo(c, gr.key), s.pool, s.out, gr);
    s' := Snapshot(p', s.out - {gr});
    assert SlotPut(Geo(c, gr.key), s.pool, gr, p', None);
    assert Gave(c, s, gr, s');
  }

  lemma ReturnOne(g: Geometry, p: Pool, out: set<Grant>, gr: Grant) returns (p': Pool)
    requires Sound(g) && PerPage(g) == 1 && g.fullCnt == 4 && gr.key.Bulk?
    requires SlotOk(g, p, gr.key, out) && gr in out
    ensures SlotPut(g, p, gr, p', None)
    ensures Total(At(p', gr.key).free.objs) == Total(At(p, gr.key).free.objs) + 1
  {
    var k, slot := gr.key, At(p, gr.key);
    var slot' := Pushed(slot, gr.page, gr.obj);
    PushKeeps(g, k, slot, out, gr);
    forall q
      ensures !IsFull(g, slot', q)
    {
      if q in slot'.free.objs { NeverFull(g, k, slot', out - {gr}, q); }
    }
    assert gr.page in slot'.free.objs;
    p' := Changed(p, k, slot', p.heap, p.registry);
    SetAtReads(p, k, slot', k, p.heap, p.registry);
  }

  lemma {:induction false} ReturnAll(c: Config, run: seq<Snapshot>, n: nat) returns (run': seq<Snapshot>)
    requires LimitIsBulk(c) && 0 < c.pageSize && IsRun(c, run) && ReturningPhase(c, run[|run| - 1], n)
    ensures IsRun(c, run') && ReturningPhase(c, run'[|run'| - 1], n) && run'[|run'| - 1].out == {}
    decreases |run[|run| - 1].out|
  {
    var s := run[|run| - 1];
    if s.out == {} {
      run' := run;
    } else {
      RunKeeps(c, run, |run| - 1);
      var s' := ReturnAnother(c, s, n);
      var longer := Longer(c, run, s');
      run' := ReturnAll(c, longer, n);
    }
  }

  /** For every n there is a run that ends with n free objects in the limit slot, everything returned, and every
      page there entirely free. */
  lemma LimitSlotGrows(c: Config, n: nat) returns (run: seq<Snapshot>)
    requires LimitIsBulk(c)
    ensures 0 < c.pageSize && IsRun(c, run)
    ensures var last, k := run[|run| - 1], Bulk(LimitIdx(c));
            last.out == {} && Total(At(last.pool, k).free.objs) == n
            && forall q :: q in At(last.pool, k).free.objs ==> EntirelyFree(Geo(c, k), At(last.pool, k), q)
  {
    LimitSlot(c);
    var k := Bulk(LimitIdx(c));
    var init := InitialOf(c);
    var taking := TakeMany(c, init, n);
    run := ReturnAll(c, taking, n);
    var last := run[|run| - 1];
    RunKeeps(c, run, |run| - 1);
    assert SlotOk(Geo(c, k), last.pool, k, last.out);
    forall q | q in At(last.pool, k).free.objs
      ensures EntirelyFree(Geo(c, k), At(last.pool, k), q)
    {
      NeverFull(Geo(c, k), k, At(last.pool, k), last.out, q);
    }
  }

  /** The map of 1..n to one value. */
  function Filled<T>(n: nat, v: T): (m: map<nat, T>)
    ensures forall i: nat :: i in m <==> 1 <= i <= n
    ensures forall i: nat :: i in m ==> m[i] == v
  {
    if n == 0 then map[] else Filled(n - 1, v)[n := v]
  }

  /** A constructor state exists. */
  lemma InitialOf(c: Config) returns (s: Snapshot)
    requires ValidConfig(c)
    ensures Init(c, s)
  {
    PageFacts(c);
    var n := c.bigThreshold + c.bulkThreshold;
    s := Snapshot(Pool(Slot({}, NO_FREE), Filled(n, {}), Filled(n, NO_FREE), Filled(n, {}), Filled(n, NO_FREE),
                       map[], map[], map[], map[], map[]), {});
    forall i: nat | ValidKey(c, Big(i))
      ensures i in s.pool.bigFree
    {
      MulLe(i, 1, c.pageSize);
    }
  }

  /** Where requests of the reserve limit are not bulk requests, only larger ones are. */
  lemma LargerOnly(c: Config, size: uint32)
    requires ValidConfig(c) && !LimitIsBulk(c) && Request(c, size) && BulkSize(c, size)
    ensures PageExponentOk(c) && SizeOf(c, Bulk(BulkNeed(c, size))) > RESIDENT_BULK_MAX
  {
    PageFacts(c);
    BulkNeedValid(c, size);
  }

  lemma {:induction false} LargerWithin(c: Config, run: seq<Snapshot>, i: nat)
    requires ValidConfig(c) && !LimitIsBulk(c) && IsRun(c, run) && i < |run|
    ensures BulkWithin(run[i], iset j: nat | SizeOf(c, Bulk(j)) > RESIDENT_BULK_MAX)
  {
    hide Got, Gave, ValidConfig, PoolInv, BulkNeed;
    if i > 0 {
      LargerWithin(c, run, i - 1);
      RunKeeps(c, run, i - 1);
      assert Step(c, run[i - 1], run[i - 1 + 1]);
      LargerStep(c, run[i - 1], run[i], iset j: nat | SizeOf(c, Bulk(j)) > RESIDENT_BULK_MAX);
    }
  }

  lemma LargerStep(c: Config, s: Snapshot, s': Snapshot, larger: iset<nat>)
    requires ValidConfig(c) && !LimitIsBulk(c) && PoolInv(c, s.pool, s.out) && Step(c, s, s') && BulkWithin(s, larger)
    requires larger == iset j: nat | SizeOf(c, Bulk(j)) > RESIDENT_BULK_MAX
    ensures BulkWithin(s', larger)
  {
    hide PoolInv, GetStep, Drains, BulkWithin;
    if size, offer, r :| Got(c, s, size, offer, r, s') {
      if BulkSize(c, size) { LargerOnly(c, size); }
      BulkNeedValid(c, size);
      GotWithin(c, s, size, offer, r, s', larger);
    } else {
      var gr :| Gave(c, s, gr, s');
      GaveWithin(c, s, gr, s', larger);
    }
  }

  lemma KeptInRuns(c: Config, k: SlotKey, run: seq<Snapshot>, i: nat)
    requires ValidConfig(c) && ValidKey(c, k) && IsRun(c, run) && i < |run|
    requires !(LimitIsBulk(c) && k.Bulk? && SizeOf(c, k) == RESIDENT_BULK_MAX)
    ensures Kept(c, run[i].pool, k)
  {
    GeoFacts(c, k);
    RunKeeps(c, run, i);
    if k.Bulk? && SizeOf(c, k) == RESIDENT_BULK_MAX {
      LargerWithin(c, run, i);
      assert Total(At(run[i].pool, k).free.objs) == 0;
    } else {
      assert Bounded(Geo(c, k), At(run[i].pool, k));
      assert forall q :: EntirelyFree(Geo(c, k), At(run[i].pool, k), q) ==> IsFull(Geo(c, k), At(run[i].pool, k), q);
    }
  }

  /** Which slots keep their bound in every run, for every configuration: all but the bulk slot of exactly the reserve
      limit, where requests of that size are bulk requests. */
  lemma RetentionIff(c: Config, k: SlotKey)
    requires ValidConfig(c) && ValidKey(c, k)
    ensures AlwaysKept(c, k) <==> !(LimitIsBulk(c) && k.Bulk? && SizeOf(c, k) == RESIDENT_BULK_MAX)
  {
    hide Kept;
    if LimitIsBulk(c) && k.Bulk? && SizeOf(c, k) == RESIDENT_BULK_MAX {
      LimitNotKept(c, k);
    } else {
      forall run: seq<Snapshot>, i: nat | IsRun(c, run) && i < |run|
        ensures Kept(c, run[i].pool, k)
      {
        KeptInRuns(c, k, run, i);
      }
    }
  }

  lemma LimitNotKept(c: Config, k: SlotKey)
    requires LimitIsBulk(c) && ValidKey(c, k) && k.Bulk? && SizeOf(c, k) == RESIDENT_BULK_MAX
    ensures !AlwaysKept(c, k)
  {
    GeoFacts(c, k);
    LimitSlot(c);
    SameProduct(c.pageSize, k.idx, LimitIdx(c));
    var n := Geo(c, k).resident + 1;
    var run := LimitSlotGrows(c, n);
    var s := At(run[|run| - 1].pool, k);
    assert s.free.objs != map[];
    var q :| q in s.free.objs;
    assert EntirelyFree(Geo(c, k), s, q);
    assert !Kept(c, run[|run| - 1].pool, k);
  }

  lemma SameProduct(d: int, a: int, b: int)
    requires 0 < d && d * a == d * b
    ensures a == b
  {
    MulLe(d, a + 1, b);
    MulLe(d, b + 1, a);
  }
}
