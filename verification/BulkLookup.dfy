/** When a bulk request leaves the two indices in agreement: the lookup erases a slot it emptied correctly only on the
    exact hit. */
module BulkLookup {
  import opened Words
  import opened SlotMath
  import opened FreeLists
  import opened SlotPages
  import opened PoolState
  import opened PoolRuns
  import opened BulkRetention
  import opened BulkRegistry

  predicate IndicesAgree(p: Pool) {
    p.bulkOrder.Keys == p.bulkFree.Keys
  }

  // A Get that is defined has a step.

  lemma SlotGetExists(g: Geometry, p: Pool, k: SlotKey, out: set<Grant>, offer: nat)
    returns (p': Pool, r: Option<Grant>)
    requires SlotOk(g, p, k, out) && Sound(g) && 0 < PerPage(g)
    requires Accepts(p.heap, offer, g.pageBytes) ==> offer !in p.heap
    requires k.Bulk? && At(p, k).free.objs == map[] ==> At(p, k).free.cnt == 0
    ensures SlotGet(g, p, k, offer, p', r)
  {
    var s, o := At(p, k), Accepted(p.heap, offer, g.pageBytes);
    var refill := s.free.objs == map[];
    var s';
    s', r := GetRelExists(g, k, s, out, o);
    GetEmptyCounts(g, k, s, out, o, s', r);
    var heap' := if refill && o.Some? then p.heap[offer := Region(g.pageBytes, k)] else p.heap;
    var registry' := if refill then RegistryRefilled(p.registry, k, o) else p.registry;
    p' := Changed(p, k, s', heap', registry');
    hide GetRel;
    SetAtReads(p, k, s', k, heap', registry');
  }

  lemma GetRelExists(g: Geometry, key: SlotKey, s: Slot, out: set<Grant>, o: Option<nat>)
    returns (s': Slot, r: Option<Grant>)
    requires SlotInv(g, key, s, out) && 0 < PerPage(g) && (o.Some? ==> o.value !in s.pages)
    ensures GetRel(g, key, s, o, s', r)
    ensures r == None ==> s' == s
  {
    var refill := s.free.objs == map[] && o.Some?;
    var s1 := if refill then Refilled(g, s, o.value) else s;
    if refill { assert o.value in s1.free.objs; }
    if s1.free.objs == map[] {
      s', r := s1, None;
    } else {
      var q :| q in s1.free.objs;
      if !refill { assert PageSplit(g, key, q, ListOf(s.free.objs, q), out); }
      s', r := Taken(s1, q), Some(Grant(key, s1.free.objs[q][0], q));
    }
  }

  /** The request is served from k, which needs its page only if nothing is free there. */
  lemma ServedExists(c: Config, p: Pool, out: set<Grant>, k: SlotKey, offer: nat) returns (p': Pool, r: Option<Grant>)
    requires PoolInv(c, p, out) && ValidKey(c, k)
    ensures SlotGet(Geo(c, k), p, k, offer, p', r)
  {
    hide SlotGet, Geo, ValidConfig;
    GeoFacts(c, k);
    var g := Geo(c, k);
    assert SlotOk(g, p, k, out);
    if Accepts(p.heap, offer, g.pageBytes) { AcceptKeepsHeap(c, p.heap, offer, k, g.pageBytes); }
    AbsentCountsZero(p, k);
    p', r := SlotGetExists(g, p, k, out, offer);
  }

  /** What the lookup settles on. */
  lemma SuitableExists(free: set<nat>, need: nat) returns (r: Option<nat>)
    ensures Suitable(free, free, need, r)
  {
    if need in free {
      r := Some(need);
    } else if free != {} && !ScansBack(free, need) {
      r := SmallestIn(free);
      assert r.value in free;
      if !exists i :: i in free && i <= 2 * need { r := None; }
    } else {
      var inRange := set i | i in free && need < i <= 2 * need;
      r := LargestIn(inRange);
      assert forall i :: i in free && need < i <= 2 * need ==> i in inRange;
    }
  }

  lemma {:induction false} SmallestIn(s: set<nat>) returns (r: Option<nat>)
    ensures if s == {} then r == None else r.Some? && r.value in s && forall i :: i in s ==> r.value <= i
  {
    r := None;
    if s != {} {
      var x :| x in s;
      r := SmallestIn(s - {x});
      if r == None || x < r.value { r := Some(x); }
      assert forall i :: i in s ==> i == x || i in s - {x};
    }
  }

  lemma {:induction false} LargestIn(s: set<nat>) returns (r: Option<nat>)
    ensures if s == {} then r == None else r.Some? && r.value in s && forall i :: i in s ==> i <= r.value
  {
    r := None;
    if s != {} {
      var x :| x in s;
      r := LargestIn(s - {x});
      if r == None || r.value < x { r := Some(x); }
      assert forall i :: i in s ==> i == x || i in s - {x};
    }
  }

  lemma GetExists(c: Config, p: Pool, out: set<Grant>, size: uint32, offer: nat) returns (p': Pool, r: Option<Grant>)
    requires PoolInv(c, p, out) && Request(c, size) && LookupDefined(c, p, size)
    ensures GetStep(c, p, size, offer, p', r)
  {
    hide SlotsOk, HeapOk, SlotGet, ValidConfig, RoundUp, BulkNeed;
    if BulkSize(c, size) {
      var found;
      found, p', r := BulkGetExists(c, p, out, size, offer);
    } else {
      SmallKeyValid(c, size);
      p', r := ServedExists(c, p, out, SmallKey(c, size), offer);
    }
  }

  lemma BulkGetExists(c: Config, p: Pool, out: set<Grant>, size: uint32, offer: nat)
    returns (found: Option<nat>, p': Pool, r: Option<Grant>)
    requires PoolInv(c, p, out) && Request(c, size) && BulkSize(c, size) && LookupDefined(c, p, size)
    ensures BulkGet(c, p, size, offer, found, p', r)
  {
    hide SlotsOk, HeapOk, SlotGet, ValidConfig, RoundUp, BulkNeed, TakesLast, Suitable, OneLeft, Geo;
    BulkNeedValid(c, size);
    var need := BulkNeed(c, size);
    found := SuitableExists(p.bulkFree.Keys, need);
    SuitableComplete(p.bulkFree.Keys, need, found);
    var k := Bulk(if found.Some? then found.value else need);
    if found.Some? && k.idx != need && OneLeft(At(p, k).free.objs) {
      assert DrainsSlot(p, need, k.idx);
      p', r := TakesLastExists(p, need, k.idx);
    } else {
      AbsentEmpty(p, k);
      p', r := ServedExists(c, p, out, k, offer);
    }
  }

  lemma AbsentEmpty(p: Pool, k: SlotKey)
    requires k.Bulk?
    ensures k.idx !in p.bulkFree ==> At(p, k).free == NO_FREE
    ensures OneLeft(At(p, k).free.objs) ==> k.idx in p.bulkFree
  {
  }

  lemma TakesLastExists(p: Pool, need: nat, f: nat) returns (p': Pool, r: Option<Grant>)
    requires ScansBack(p.bulkOrder.Keys, need) && need < f && f in p.bulkFree && OneLeft(At(p, Bulk(f)).free.objs)
    ensures TakesLast(p, need, f, p', r)
  {
    var s := At(p, Bulk(f));
    var q :| q in s.free.objs && s.free.objs == map[q := s.free.objs[q]] && |s.free.objs[q]| == 1;
    var low :| low in p.bulkOrder && low <= need;
    var smaller := set i | i in p.bulkOrder && i < f;
    assert low in smaller;
    var below := LargestIn(smaller);
    assert IsNextBelow(p.bulkOrder.Keys, f, below.value) by {
      assert forall i :: i in p.bulkOrder && i < f ==> i in smaller;
    }
    r := Some(Grant(Bulk(f), s.free.objs[q][0], q));
    p' := p.(bulkFree := p.bulkFree[f := Taken(s, q).free] - {below.value}, bulkOrder := p.bulkOrder - {f});
    assert At(p', Bulk(f)) == Taken(s, q);
  }

  /** Main result: at the end of every run, for every request and every allocator answer, Get is defined if and only if
      it does not take, by the forward search, the last free object of a slot other than the exact one; and it is
      defined and leaves both indices listing the same slots if and only if it takes no such object at all. */
  lemma AgreesIff(c: Config, run: seq<Snapshot>, size: uint32, offer: nat)
    requires ValidConfig(c) && IsRun(c, run) && Request(c, size)
    ensures var p := run[|run| - 1].pool;
      && ((exists p', r :: GetStep(c, p, size, offer, p', r)) <==> LookupDefined(c, p, size))
      && ((exists p', r :: GetStep(c, p, size, offer, p', r) && IndicesAgree(p')) <==> !Drains(c, p, size))
      && (forall p', r :: GetStep(c, p, size, offer, p', r) ==> (IndicesAgree(p') <==> !Drains(c, p, size)))
  {
    hide GetStep, Drains, PoolInv;
    RunKeeps(c, run, |run| - 1);
    var s := run[|run| - 1];
    forall p', r | GetStep(c, s.pool, size, offer, p', r)
      ensures LookupDefined(c, s.pool, size) && (IndicesAgree(p') <==> !Drains(c, s.pool, size))
    {
      GetStepKeeps(c, s.pool, s.out, size, offer, p', r);
      StepIsDefined(c, s.pool, size, offer, p', r);
    }
    if LookupDefined(c, s.pool, size) {
      var p', r := GetExists(c, s.pool, s.out, size, offer);
    }
  }

  lemma StepIsDefined(c: Config, p: Pool, size: uint32, offer: nat, p': Pool, r: Option<Grant>)
    requires ValidConfig(c) && Request(c, size) && GetStep(c, p, size, offer, p', r)
    ensures LookupDefined(c, p, size)
  {
    hide GetStep, Drains;
    if Drains(c, p, size) {
      var f := DrainedSlot(c, p, size, offer, p', r);
    }
  }

  // Which page counts a client may mix.

  /** Objects of i pages are bulk objects. */
  ghost predicate Requestable(c: Config, i: nat) {
    0 < c.pageSize && Request(c, c.pageSize * i) && BulkSize(c, c.pageSize * i)
  }

  lemma RequestableNeed(c: Config, i: nat)
    requires ValidConfig(c) && Requestable(c, i)
    ensures PageExponentOk(c) && BulkNeed(c, c.pageSize * i) == i && ValidKey(c, Bulk(i)) && 1 <= i
  {
    var size := c.pageSize * i;
    QuotientUnique(size, c.pageSize, i, 0);
    BulkNeedValid(c, size);
    LeastMultipleUnique(SizeOf(c, Bulk(BulkNeed(c, size))), size, size, c.pageSize);
    SameProduct(c.pageSize, BulkNeed(c, size), i);
  }

  /** Every bulk request is for one of these page counts. */
  ghost predicate Asks(c: Config, e: Call, counts: iset<nat>) {
    e.Takes? && BulkSize(c, e.size) ==> PageExponentOk(c) && BulkNeed(c, e.size) in counts
  }

  ghost predicate AllAsk(c: Config, calls: seq<Call>, counts: iset<nat>) {
    forall i :: 0 <= i < |calls| ==> Asks(c, calls[i], counts)
  }

  /** No request for these page counts ever drains another slot. */
  ghost predicate NeverDrains(c: Config, counts: iset<nat>) {
    forall run: seq<Snapshot>, calls: seq<Call>, i: nat {:trigger IsTrace(c, run, calls), Requestable(c, i)} ::
      IsTrace(c, run, calls) && AllAsk(c, calls, counts) && i in counts && Requestable(c, i)
      ==> !Drains(c, run[|calls|].pool, c.pageSize * i)
  }

  /** No reserved page count lies above another one by a factor of at most 2. */
  ghost predicate FarApart(c: Config, counts: iset<nat>) {
    forall n: nat, b: nat :: n in counts && b in counts && n < b <= 2 * n ==> SizeOf(c, Bulk(b)) > RESIDENT_BULK_MAX
  }

  lemma {:induction false} TraceWithin(c: Config, run: seq<Snapshot>, calls: seq<Call>, counts: iset<nat>)
    requires ValidConfig(c) && IsTrace(c, run, calls) && AllAsk(c, calls, counts)
    ensures PoolInv(c, run[|calls|].pool, run[|calls|].out) && BulkWithin(run[|calls|], counts)
  {
    hide PoolInv, Got, Gave, ValidConfig, BulkWithin, BulkNeed, Asks;
    TraceIsRun(c, run, calls);
    RunKeeps(c, run, |calls|);
    if calls == [] {
      InitWithin(c, run[0], counts);
    } else {
      var n := |calls| - 1;
      TraceWithin(c, run[..|calls|], calls[..n], counts);
      RunKeeps(c, run, n);
      assert Calls(c, run[n], calls[n], run[n + 1]) && Asks(c, calls[n], counts);
      CallWithin(c, run[n], calls[n], run[n + 1], counts);
    }
  }

  lemma InitWithin(c: Config, s: Snapshot, counts: iset<nat>)
    requires Init(c, s)
    ensures BulkWithin(s, counts)
  {
  }

  lemma CallWithin(c: Config, s: Snapshot, e: Call, s': Snapshot, counts: iset<nat>)
    requires PoolInv(c, s.pool, s.out) && Calls(c, s, e, s') && Asks(c, e, counts) && BulkWithin(s, counts)
    ensures BulkWithin(s', counts)
  {
    hide PoolInv, GetStep, Drains, BulkWithin, RoundUp;
    match e
    case Takes(size, offer, r) =>
      BulkNeedValid(c, size);
      GotWithin(c, s, size, offer, r, s', counts);
    case Returns(gr) => GaveWithin(c, s, gr, s', counts);
  }

  /** Free slots far apart leave an inexact lookup nothing to find. */
  lemma FarApartSafe(c: Config, s: Snapshot, i: nat, counts: iset<nat>)
    requires PoolInv(c, s.pool, s.out) && BulkWithin(s, counts) && FarApart(c, counts)
    requires i in counts && Requestable(c, i)
    ensures !Drains(c, s.pool, c.pageSize * i)
  {
    hide SlotsOk, HeapOk, ValidConfig, BulkNeed, Suitable, OneLeft, SizeOf;
    RequestableNeed(c, i);
    if f: nat :| DrainsSlot(s.pool, i, f) {
      SuitableComplete(s.pool.bulkFree.Keys, i, Some(f));
    }
  }

  // Runs that end before such a request.

  /** The free objects are m objects of one page. */
  ghost predicate OnePage(objs: map<nat, seq<nat>>, m: nat) {
    exists q :: q in objs && objs == map[q := objs[q]] && |objs[q]| == m
  }

  /** The free slots are b, with m objects, and smaller ones. */
  ghost predicate Left(p: Pool, low: set<nat>, b: nat, m: nat) {
    && p.bulkFree.Keys == low + {b} && b !in low && OnePage(p.bulkFree[b].objs, m)
  }

  lemma LongerTrace(c: Config, run: seq<Snapshot>, calls: seq<Call>, e: Call, s': Snapshot)
    requires ValidConfig(c) && IsTrace(c, run, calls) && Calls(c, run[|calls|], e, s')
    ensures IsTrace(c, run + [s'], calls + [e]) && PoolInv(c, s'.pool, s'.out)
  {
    hide Calls, PoolInv, Init;
    var run', calls' := run + [s'], calls + [e];
    forall i | 0 <= i < |calls'|
      ensures Calls(c, run'[i], calls'[i], run'[i + 1])
    {
      if i < |calls| { assert Calls(c, run[i], calls[i], run[i + 1]); }
    }
    TraceIsRun(c, run', calls');
    RunKeeps(c, run', |calls'|);
  }

  /** Pages of bulk slots below the limit hold four objects. */
  lemma FourPerPage(c: Config, i: nat)
    requires ValidConfig(c) && ValidKey(c, Bulk(i)) && SizeOf(c, Bulk(i)) < RESIDENT_BULK_MAX
    ensures PerPage(Geo(c, Bulk(i))) == 4
  {
    PageFacts(c);
    SizeInRange(c, Bulk(i));
    var size := SizeOf(c, Bulk(i));
    ExpandSizeExact(size, BULK_EXPAND_FACTOR, c.pageSize);
    QuotientUnique(size * 4, size, 4, 0);
  }

  /** With only smaller slots free, a request is served from a new page. */
  lemma TakeFresh(c: Config, s: Snapshot, i: nat, page: nat) returns (s': Snapshot, r: Option<Grant>)
    requires PoolInv(c, s.pool, s.out) && Requestable(c, i) && SizeOf(c, Bulk(i)) < RESIDENT_BULK_MAX
    requires (forall j :: j in s.pool.bulkFree ==> j < i) && Accepts(s.pool.heap, page, Geo(c, Bulk(i)).pageBytes)
    ensures Calls(c, s, Takes(c.pageSize * i, page, r), s')
    ensures Left(s'.pool, s.pool.bulkFree.Keys, i, 3)
    ensures forall j :: j in s.pool.bulkFree ==> s'.pool.bulkFree[j] == s.pool.bulkFree[j]
    ensures s'.pool.heap == s.pool.heap[page := Region(Geo(c, Bulk(i)).pageBytes, Bulk(i))]
  {
    hide SlotsOk, HeapOk, IndicesOk, Accepts, BulkNeed, ValidConfig, RoundUp, Geo, SlotGet, Suitable;
    RequestableNeed(c, i);
    var k := Bulk(i);
    GeoFacts(c, k);
    FourPerPage(c, i);
    var p';
    p', r := ServedExists(c, s.pool, s.out, k, page);
    s' := Snapshot(p', Extend(s.out, r));
    SmallerListed(c, s.pool, s.out, i);
    assert BulkGet(c, s.pool, c.pageSize * i, page, None, p', r);
    FreshPage(Geo(c, k), s.pool, i, page, p', r);
  }

  lemma SmallerListed(c: Config, p: Pool, out: set<Grant>, i: nat)
    requires PoolInv(c, p, out) && forall j :: j in p.bulkFree ==> j < i
    ensures Suitable(p.bulkFree.Keys, p.bulkOrder.Keys, i, None)
    ensures forall f: nat :: !DrainsSlot(p, i, f)
  {
  }

  lemma FreshPage(g: Geometry, p: Pool, i: nat, page: nat, p': Pool, r: Option<Grant>)
    requires SlotGet(g, p, Bulk(i), page, p', r) && Accepts(p.heap, page, g.pageBytes) && i !in p.bulkFree
    requires PerPage(g) == 4
    ensures Left(p', p.bulkFree.Keys, i, 3)
    ensures forall j :: j in p.bulkFree ==> p'.bulkFree[j] == p.bulkFree[j]
    ensures p'.heap == p.heap[page := Region(g.pageBytes, Bulk(i))]
  {
    var k := Bulk(i);
    var s1 := Refilled(g, At(p, k), page);
    assert page in s1.free.objs;
    assert At(p', k) == Taken(s1, page);
    assert At(p', k).free.objs == map[page := s1.free.objs[page][1..]];
    assert page in At(p', k).free.objs;
  }

  /** A request for n is served from b, the one larger slot in range. */
  lemma LargerFound(c: Config, p: Pool, out: set<Grant>, low: set<nat>, n: nat, b: nat)
    requires PoolInv(c, p, out) && p.bulkFree.Keys == low + {b} && n < b <= 2 * n && forall j :: j in low ==> j < n
    ensures Suitable(p.bulkFree.Keys, p.bulkOrder.Keys, n, Some(b))
    ensures ScansBack(p.bulkOrder.Keys, n) <==> low != {}
  {
  }

  /** While it has more than one object, nothing is drained. */
  lemma TakeLarger(c: Config, s: Snapshot, low: set<nat>, n: nat, b: nat, m: nat)
    returns (s': Snapshot, r: Option<Grant>)
    requires PoolInv(c, s.pool, s.out) && Requestable(c, n) && Left(s.pool, low, b, m) && 2 <= m
    requires n < b <= 2 * n && forall j :: j in low ==> j < n
    ensures Calls(c, s, Takes(c.pageSize * n, 0, r), s')
    ensures Left(s'.pool, low, b, m - 1)
    ensures forall j :: j in low ==> s'.pool.bulkFree[j] == s.pool.bulkFree[j]
  {
    hide SlotsOk, HeapOk, IndicesOk, Accepts, BulkNeed, ValidConfig, RoundUp, Geo, SlotGet, Suitable, OnePage, OneLeft;
    RequestableNeed(c, n);
    var k := Bulk(b);
    LargerFound(c, s.pool, s.out, low, n, b);
    MoreThanOne(s.pool.bulkFree[b].objs, m);
    forall f: nat ensures !DrainsSlot(s.pool, n, f) {
      if DrainsSlot(s.pool, n, f) { SuitableUnique(s.pool.bulkFree.Keys, s.pool.bulkOrder.Keys, n, Some(b), Some(f)); }
    }
    ListedKey(c, s.pool, s.out, b);
    var p';
    p', r := ServedExists(c, s.pool, s.out, k, 0);
    s' := Snapshot(p', Extend(s.out, r));
    assert BulkGet(c, s.pool, c.pageSize * n, 0, Some(b), p', r);
    FromOnePage(Geo(c, k), s.pool, low, b, m, p', r);
  }

  lemma ListedKey(c: Config, p: Pool, out: set<Grant>, b: nat)
    requires PoolInv(c, p, out) && b in p.bulkFree
    ensures ValidKey(c, Bulk(b)) && At(p, Bulk(b)).free.objs != map[]
  {
  }

  lemma MoreThanOne(objs: map<nat, seq<nat>>, m: nat)
    requires OnePage(objs, m) && 2 <= m
    ensures !OneLeft(objs)
  {
  }

  lemma FromOnePage(g: Geometry, p: Pool, low: set<nat>, b: nat, m: nat, p': Pool, r: Option<Grant>)
    requires Left(p, low, b, m) && 2 <= m && SlotGet(g, p, Bulk(b), 0, p', r)
    ensures Left(p', low, b, m - 1)
    ensures forall j :: j in low ==> p'.bulkFree[j] == p.bulkFree[j]
  {
    var k := Bulk(b);
    var q :| q in p.bulkFree[b].objs && p.bulkFree[b].objs == map[q := p.bulkFree[b].objs[q]]
             && |p.bulkFree[b].objs[q]| == m;
    assert At(p', k) == Taken(At(p, k), q);
    assert At(p', k).free.objs == map[q := p.bulkFree[b].objs[q][1..]];
    assert q in At(p', k).free.objs;
  }

  /** The next request for n takes the last object of b. */
  lemma DrainsNext(c: Config, p: Pool, out: set<Grant>, low: set<nat>, n: nat, b: nat)
    requires PoolInv(c, p, out) && Requestable(c, n) && Left(p, low, b, 1)
    requires n < b <= 2 * n && forall j :: j in low ==> j < n
    ensures Drains(c, p, c.pageSize * n)
    ensures LookupDefined(c, p, c.pageSize * n) <==> low != {}
  {
    hide SlotsOk, HeapOk, IndicesOk, ValidConfig, BulkNeed, Suitable, ScansBack;
    RequestableNeed(c, n);
    LargerFound(c, p, out, low, n, b);
    assert DrainsSlot(p, n, b);
  }

  predicate AllTake(calls: seq<Call>, size: int) {
    forall i :: 0 <= i < |calls| ==> calls[i].Takes? && calls[i].size == size
  }

  /** Requests for n until one object of b is left. */
  lemma {:induction false} RunDown(c: Config, run: seq<Snapshot>, calls: seq<Call>, low: set<nat>, n: nat, b: nat,
                                   m: nat)
    returns (run': seq<Snapshot>, more: seq<Call>)
    requires ValidConfig(c) && IsTrace(c, run, calls) && Requestable(c, n) && 1 <= m
    requires n < b <= 2 * n && (forall j :: j in low ==> j < n) && Left(run[|calls|].pool, low, b, m)
    ensures IsTrace(c, run', calls + more) && AllTake(more, c.pageSize * n) && |more| == m - 1
    ensures Left(run'[|calls + more|].pool, low, b, 1)
    ensures forall j :: j in low ==> run'[|calls + more|].pool.bulkFree[j] == run[|calls|].pool.bulkFree[j]
    decreases m
  {
    hide PoolInv, Calls, ValidConfig, Init, OnePage;
    if m == 1 {
      run', more := run, [];
      assert calls + more == calls;
    } else {
      TraceIsRun(c, run, calls);
      RunKeeps(c, run, |calls|);
      var s', r := TakeLarger(c, run[|calls|], low, n, b, m);
      var e := Takes(c.pageSize * n, 0, r);
      LongerTrace(c, run, calls, e, s');
      var rest;
      run', rest := RunDown(c, run + [s'], calls + [e], low, n, b, m - 1);
      more := [e] + rest;
      assert calls + [e] + rest == calls + more;
    }
  }

  /** From the start: b is requested, and the free objects of its page are used up but one. */
  lemma DownToOne(c: Config, n: nat, b: nat) returns (run: seq<Snapshot>, calls: seq<Call>)
    requires ValidConfig(c) && Requestable(c, n) && Requestable(c, b)
    requires n < b <= 2 * n && SizeOf(c, Bulk(b)) < RESIDENT_BULK_MAX
    ensures IsTrace(c, run, calls) && Left(run[|calls|].pool, {}, b, 1)
    ensures |calls| == 3 && AllTake(calls[..1], c.pageSize * b) && AllTake(calls[1..], c.pageSize * n)
  {
    hide PoolInv, Calls, ValidConfig, Requestable, OnePage;
    var s0 := InitialOf(c);
    InitInv(c, s0);
    var s1, r := TakeFresh(c, s0, b, 1);
    var e := Takes(c.pageSize * b, 1, r);
    LongerTrace(c, [s0], [], e, s1);
    assert [s0] + [s1] == [s0, s1] && [] + [e] == [e];
    var more;
    run, more := RunDown(c, [s0, s1], [e], {}, n, b, 3);
    calls := [e] + more;
    assert calls[1..] == more;
  }

  /** A limit-sized object goes back to a page of its own, which is then the one free object. */
  lemma LimitReturned(c: Config, b: nat) returns (run: seq<Snapshot>, calls: seq<Call>)
    requires ValidConfig(c) && Requestable(c, b) && SizeOf(c, Bulk(b)) == RESIDENT_BULK_MAX
    ensures IsTrace(c, run, calls) && Left(run[|calls|].pool, {}, b, 1)
    ensures |calls| == 2 && AllTake(calls[..1], c.pageSize * b) && calls[1].Returns?
  {
    hide PoolInv, Geo, BulkNeed, ValidConfig, RoundUp, SlotGet, Suitable, SlotPut, OnePage;
    LimitSlot(c);
    LimitKey(c);
    SameProduct(c.pageSize, b, LimitIdx(c));
    var k := Bulk(b);
    var s0 := InitialOf(c);
    InitInv(c, s0);
    var p1, r := TakeNewPage(Geo(c, k), k, s0.pool, 1);
    var s1, gr := Snapshot(p1, Extend(s0.out, r)), Grant(k, 1, 1);
    var e := Takes(c.pageSize * b, 1, r);
    RequestableNeed(c, b);
    NothingListed(s0.pool, b);
    assert BulkGet(c, s0.pool, c.pageSize * b, 1, None, p1, r);
    LongerTrace(c, [s0], [], e, s1);
    assert [s0] + [s1] == [s0, s1] && [] + [e] == [e];
    BulkSlotOk(c, p1, s1.out, b);
    var p2 := ReturnOne(Geo(c, k), p1, s1.out, gr);
    var s2 := Snapshot(p2, s1.out - {gr});
    LongerTrace(c, [s0, s1], [e], Returns(gr), s2);
    run, calls := [s0, s1] + [s2], [e] + [Returns(gr)];
    OneReturned(Geo(c, k), p1, gr, p2);
  }

  lemma BulkSlotOk(c: Config, p: Pool, out: set<Grant>, b: nat)
    requires PoolInv(c, p, out) && ValidKey(c, Bulk(b))
    ensures SlotOk(Geo(c, Bulk(b)), p, Bulk(b), out)
  {
  }

  lemma OneReturned(g: Geometry, p: Pool, gr: Grant, p': Pool)
    requires gr.key.Bulk? && p.bulkFree == map[] && SlotPut(g, p, gr, p', None)
    ensures Left(p', {}, gr.key.idx, 1)
  {
    assert gr.page in At(p', gr.key).free.objs;
  }

  /** Two page counts within a factor of 2, the larger one reserved: some run of requests for these two counts alone
      drains it. */
  lemma CloseCountsDrain(c: Config, n: nat, b: nat) returns (run: seq<Snapshot>, calls: seq<Call>)
    requires ValidConfig(c) && Requestable(c, n) && Requestable(c, b)
    requires n < b <= 2 * n && SizeOf(c, Bulk(b)) <= RESIDENT_BULK_MAX
    ensures IsTrace(c, run, calls) && AllAsk(c, calls, iset{n, b})
    ensures Drains(c, run[|calls|].pool, c.pageSize * n) && !LookupDefined(c, run[|calls|].pool, c.pageSize * n)
  {
    hide PoolInv, IsTrace, ValidConfig, Drains, LookupDefined, AllTake, AllAsk, Left;
    if SizeOf(c, Bulk(b)) < RESIDENT_BULK_MAX {
      run, calls := DownToOne(c, n, b);
      AskTwo(c, calls, n, b);
    } else {
      run, calls := LimitReturned(c, b);
      AskTwo(c, calls, n, b);
    }
    TraceIsRun(c, run, calls);
    TraceLength(c, run, calls);
    RunKeeps(c, run, |calls|);
    DrainsNext(c, run[|calls|].pool, run[|calls|].out, {}, n, b);
  }

  lemma TraceLength(c: Config, run: seq<Snapshot>, calls: seq<Call>)
    requires IsTrace(c, run, calls)
    ensures |run| == |calls| + 1
  {
  }

  /** One request for b, then requests for n or a return. */
  lemma AskTwo(c: Config, calls: seq<Call>, n: nat, b: nat)
    requires ValidConfig(c) && Requestable(c, n) && Requestable(c, b) && 1 <= |calls|
    requires AllTake(calls[..1], c.pageSize * b)
    requires AllTake(calls[1..], c.pageSize * n) || (|calls| == 2 && calls[1].Returns?)
    ensures AllAsk(c, calls, iset{n, b})
  {
    hide ValidConfig, BulkNeed, BulkSize;
    RequestableNeed(c, n);
    RequestableNeed(c, b);
    assert calls == calls[..1] + calls[1..];
  }

  /** Main result for clients: requests for these page counts never drain another slot, in any run whose bulk requests
      are for them, if and only if every two of them are more than a factor of 2 apart or the larger one is never
      kept. */
  lemma SafeCountsIff(c: Config, counts: iset<nat>)
    requires ValidConfig(c) && forall i :: i in counts ==> Requestable(c, i)
    ensures NeverDrains(c, counts) <==> FarApart(c, counts)
  {
    hide PoolInv, Calls, Init, ValidConfig, Drains, BulkWithin, Asks;
    if FarApart(c, counts) {
      forall run: seq<Snapshot>, calls: seq<Call>, i: nat
        | IsTrace(c, run, calls) && AllAsk(c, calls, counts) && i in counts && Requestable(c, i)
        ensures !Drains(c, run[|calls|].pool, c.pageSize * i)
      {
        TraceWithin(c, run, calls, counts);
        FarApartSafe(c, run[|calls|], i, counts);
      }
    } else {
      var n: nat, b: nat :| n in counts && b in counts && n < b <= 2 * n && SizeOf(c, Bulk(b)) <= RESIDENT_BULK_MAX;
      var run, calls := CloseCountsDrain(c, n, b);
      AskMore(c, calls, iset{n, b}, counts);
    }
  }

  lemma AskMore(c: Config, calls: seq<Call>, counts: iset<nat>, counts': iset<nat>)
    requires AllAsk(c, calls, counts) && counts <= counts'
    ensures AllAsk(c, calls, counts')
  {
    forall i | 0 <= i < |calls|
      ensures Asks(c, calls[i], counts')
    {
      assert Asks(c, calls[i], counts);
    }
  }

  /** From the start: a, then b, whose free objects are used up but one. */
  lemma BackToOne(c: Config, a: nat, n: nat, b: nat) returns (run: seq<Snapshot>, calls: seq<Call>)
    requires ValidConfig(c) && Requestable(c, a) && Requestable(c, n) && Requestable(c, b)
    requires a < n < b <= 2 * n && SizeOf(c, Bulk(b)) < RESIDENT_BULK_MAX
    ensures IsTrace(c, run, calls) && |calls| == 4 && Left(run[4].pool, {a}, b, 1)
    ensures AllTake(calls[..1], c.pageSize * a) && AllTake(calls[1..2], c.pageSize * b)
    ensures AllTake(calls[2..], c.pageSize * n)
    ensures OnePage(run[4].pool.bulkFree[a].objs, 3)
  {
    hide PoolInv, Calls, ValidConfig, Requestable, OnePage, Init;
    var run2, calls2 := TwoSlots(c, a, b);
    var more;
    run, more := RunDown(c, run2, calls2, {a}, n, b, 3);
    calls := calls2 + more;
    assert calls[2..] == more && calls[..1] == calls2[..1] && calls[1..2] == calls2[1..];
  }

  lemma TwoSlots(c: Config, a: nat, b: nat) returns (run: seq<Snapshot>, calls: seq<Call>)
    requires ValidConfig(c) && Requestable(c, a) && Requestable(c, b)
    requires a < b && SizeOf(c, Bulk(b)) < RESIDENT_BULK_MAX
    ensures IsTrace(c, run, calls) && |calls| == 2 && Left(run[2].pool, {a}, b, 3)
    ensures AllTake(calls[..1], c.pageSize * a) && AllTake(calls[1..], c.pageSize * b)
    ensures OnePage(run[2].pool.bulkFree[a].objs, 3)
  {
    hide PoolInv, Calls, ValidConfig, OnePage, Geo, Accepts, BulkSize, SizeOf;
    SmallerReserved(c, a, b);
    var s0 := InitialOf(c);
    InitInv(c, s0);
    AcceptsAbove(s0.pool.heap, 1, Geo(c, Bulk(a)).pageBytes);
    var s1, r1 := TakeFresh(c, s0, a, 1);
    var e1 := Takes(c.pageSize * a, 1, r1);
    LongerTrace(c, [s0], [], e1, s1);
    assert [s0] + [s1] == [s0, s1] && [] + [e1] == [e1];
    var page := 1 + Geo(c, Bulk(a)).pageBytes;
    AcceptsAbove(s1.pool.heap, page, Geo(c, Bulk(b)).pageBytes);
    var s2, r2 := TakeFresh(c, s1, b, page);
    var e2 := Takes(c.pageSize * b, page, r2);
    LongerTrace(c, [s0, s1], [e1], e2, s2);
    run, calls := [s0, s1] + [s2], [e1] + [e2];
  }

  lemma SmallerReserved(c: Config, a: nat, b: nat)
    requires a < b && SizeOf(c, Bulk(b)) < RESIDENT_BULK_MAX
    ensures SizeOf(c, Bulk(a)) < RESIDENT_BULK_MAX
  {
    MulLe(c.pageSize, a, b);
  }

  lemma AcceptsAbove(heap: map<nat, Region>, page: nat, bytes: nat)
    requires 0 < page && forall q :: q in heap ==> q + heap[q].bytes <= page
    ensures Accepts(heap, page, bytes)
  {
  }

  /** With a smaller slot free the search goes back, and the wrong record is erased: requests for a, b, n and n, then a
      third one for n. Slot a loses its three free objects and stays in the ordered index; slot b stays in the hash
      index without an object, so that the next request for b is undefined. */
  lemma ErasesWrong(c: Config, a: nat, n: nat, b: nat) returns (run: seq<Snapshot>, calls: seq<Call>)
    requires ValidConfig(c) && Requestable(c, a) && Requestable(c, n) && Requestable(c, b)
    requires a < n < b <= 2 * n && SizeOf(c, Bulk(b)) < RESIDENT_BULK_MAX
    ensures IsTrace(c, run, calls) && |calls| == 4 && AllTake(calls[..1], c.pageSize * a)
    ensures AllTake(calls[1..2], c.pageSize * b) && AllTake(calls[2..], c.pageSize * n)
    ensures a in run[4].pool.bulkFree && OnePage(run[4].pool.bulkFree[a].objs, 3)
    ensures LookupDefined(c, run[4].pool, c.pageSize * n)
    ensures forall offer, p', r :: GetStep(c, run[4].pool, c.pageSize * n, offer, p', r) ==> Torn(c, p', a, b)
  {
    run, calls := BackToOne(c, a, n, b);
    hide IsTrace, SlotsOk, HeapOk, Drains, OnePage, LookupDefined, GetStep, Left, ValidConfig, BulkNeed;
    var p, out := run[4].pool, run[4].out;
    TraceIsRun(c, run, calls);
    RunKeeps(c, run, 4);
    DrainsNext(c, p, out, {a}, n, b);
    forall offer, p', r | GetStep(c, p, c.pageSize * n, offer, p', r)
      ensures Torn(c, p', a, b)
    {
      RequestableNeed(c, n);
      TornApart(c, p, out, a, n, b, c.pageSize * n, offer, p', r);
    }
  }

  /** A bulk request whose exact slot is i. */
  ghost predicate Exact(c: Config, size: uint32, i: nat) {
    ValidConfig(c) && Request(c, size) && BulkSize(c, size) && PageExponentOk(c) && BulkNeed(c, size) == i
  }

  /** The indices list different slots, and the next exact request for b has no defined outcome. */
  ghost predicate Torn(c: Config, p: Pool, a: nat, b: nat) {
    && p.bulkOrder.Keys == {a} && p.bulkFree.Keys == {b} && p.bulkFree[b].objs == map[]
    && forall size: uint32, offer, p', r :: Exact(c, size, b) ==> !GetStep(c, p, size, offer, p', r)
  }

  lemma TornApart(c: Config, p: Pool, out: set<Grant>, a: nat, n: nat, b: nat, size: uint32, offer: nat, p': Pool,
                  r: Option<Grant>)
    requires PoolInv(c, p, out) && Exact(c, size, n) && p.bulkFree.Keys == {a, b}
    requires a < n < b <= 2 * n && Drains(c, p, size) && GetStep(c, p, size, offer, p', r)
    ensures Torn(c, p', a, b)
  {
    hide SlotsOk, HeapOk, Drains, OneLeft, GetStep, ValidConfig, BulkNeed, Suitable, TakesLast, IndicesOk;
    var f := DrainedSlot(c, p, size, offer, p', r);
    LargerFound(c, p, out, {a}, n, b);
    SuitableUnique(p.bulkFree.Keys, p.bulkOrder.Keys, n, Some(b), Some(f));
    AgreeIn(c, p, out);
    TornKeys(p, n, a, b, p', r);
    forall size': uint32, offer', p'', r' | Exact(c, size', b)
      ensures !GetStep(c, p', size', offer', p'', r')
    {
      EmptyRecord(c, p', b, size', offer', p'', r');
    }
  }

  lemma AgreeIn(c: Config, p: Pool, out: set<Grant>)
    requires PoolInv(c, p, out)
    ensures IndicesAgree(p)
  {
  }

  lemma TornKeys(p: Pool, n: nat, a: nat, b: nat, p': Pool, r: Option<Grant>)
    requires p.bulkFree.Keys == {a, b} && p.bulkOrder.Keys == {a, b} && a < b
    requires OneLeft(At(p, Bulk(b)).free.objs) && TakesLast(p, n, b, p', r)
    ensures p'.bulkOrder.Keys == {a} && p'.bulkFree.Keys == {b} && p'.bulkFree[b].objs == map[]
  {
    var below :| IsNextBelow(p.bulkOrder.Keys, b, below)
                 && p' == p.(bulkFree := p.bulkFree[b := At(p', Bulk(b)).free] - {below},
                             bulkOrder := p.bulkOrder - {b});
    assert a in p.bulkOrder.Keys && below == a;
    assert b in p'.bulkFree;
    assert At(p', Bulk(b)).free.objs == map[];
  }

  /** The exact hit reads the first object of a record that has none. */
  lemma EmptyRecord(c: Config, p: Pool, b: nat, size: uint32, offer: nat, p': Pool, r: Option<Grant>)
    requires Exact(c, size, b) && b in p.bulkFree && p.bulkFree[b].objs == map[]
    ensures !GetStep(c, p, size, offer, p', r)
  {
    hide ValidConfig, BulkNeed, SlotGet, RoundUp, TakesLast;
  }

  /** Page counts 40, 100 and 60 of pages of 4 KiB. */
  lemma FortyHundredSixty(c: Config) returns (run: seq<Snapshot>, calls: seq<Call>)
    requires ValidConfig(c) && c.pageSize == 4096 && c.bulkThreshold < 40 * 4096
    ensures IsTrace(c, run, calls) && |calls| == 4 && AllTake(calls[..1], 163840)
    ensures AllTake(calls[1..2], 409600) && AllTake(calls[2..], 245760)
    ensures forall offer, p', r :: GetStep(c, run[4].pool, 245760, offer, p', r) ==> Torn(c, p', 40, 100)
  {
    run, calls := ErasesWrong(c, 40, 60, 100);
  }
}
