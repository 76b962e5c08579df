/** What one Get and one Put do to free objects, pages and the system heap, said without the relations that define the
    steps: which object is taken, when a page is allocated, and when one is given back. */
module PoolEffects {
  import opened Words
  import opened SlotMath
  import opened FreeLists
  import opened SlotPages
  import opened PoolState
  import opened PoolRuns

  ghost function FreeCount(p: Pool, k: SlotKey): nat {
    TotalIsNat(At(p, k).free.objs);
    Total(At(p, k).free.objs)
  }

  lemma {:induction false} TotalIsNat(objs: map<nat, seq<nat>>)
    ensures 0 <= Total(objs)
    decreases |objs|
  {
  }

  /** The resident count the constructor was given for the slot's class. */
  function Mark(c: Config, k: SlotKey): nat {
    match k
    case Tiny => c.tinyResident
    case Small(_) => c.smallResident
    case Big(_) => c.bigResident
    case Bulk(_) => c.bulkResident
  }

  ghost predicate OthersKept(p: Pool, p': Pool, k: SlotKey) {
    forall k' :: k' != k ==> At(p', k') == At(p, k')
  }

  /** The free objects of a page, in the order they will be taken. */
  function ListAt(p: Pool, k: SlotKey, page: nat): seq<nat> {
    ListOf(At(p, k).free.objs, page)
  }

  // Put.

  /** The object is the last one of its page's list, and all else is as it was. */
  ghost predicate JustAdded(p: Pool, gr: Grant, p': Pool) {
    && p'.heap == p.heap && At(p', gr.key).pages == At(p, gr.key).pages
    && FreeCount(p', gr.key) == FreeCount(p, gr.key) + 1
    && ListAt(p', gr.key, gr.page) == ListAt(p, gr.key, gr.page) + [gr.obj]
    && forall q :: q != gr.page ==> ListAt(p', gr.key, q) == ListAt(p, gr.key, q)
  }

  /** One page of the slot, with as many free objects as Put takes for a full page, has gone back to the system. */
  ghost predicate PageReleased(p: Pool, gr: Grant, p': Pool, page: nat, fullCnt: nat) {
    && page in At(p, gr.key).pages && p'.heap == p.heap - {page}
    && At(p', gr.key).pages == At(p, gr.key).pages - {page}
    && FullWith(p, gr, page, fullCnt)
    && FreeCount(p', gr.key) + fullCnt == FreeCount(p, gr.key) + 1
    && ListAt(p', gr.key, page) == []
  }

  /** With the object back, the page has as many free objects as Put takes for a full page. */
  predicate FullWith(p: Pool, gr: Grant, page: nat, fullCnt: nat) {
    |ListAt(p, gr.key, page) + if page == gr.page then [gr.obj] else []| == fullCnt
  }

  /** Put of an object up to the reserve limit. A page is given back exactly when the mark and one page are reached and
      a page is full; one full page then goes, and at least the mark remains. Otherwise one free object is added. */
  ghost predicate KeptEffect(c: Config, p: Pool, gr: Grant, p': Pool) {
    var k, full := gr.key, Geo(c, gr.key).fullCnt;
    && (FreeCount(p, k) + 1 < Mark(c, k) + full ==> JustAdded(p, gr, p'))
    && (p'.heap == p.heap ==> JustAdded(p, gr, p'))
    && (p'.heap != p.heap ==>
          FreeCount(p', k) >= Mark(c, k) && exists page :: PageReleased(p, gr, p', page, full))
    && (FreeCount(p, k) + 1 >= Mark(c, k) + full && (exists page :: FullWith(p, gr, page, full)) ==> p'.heap != p.heap)
  }

  /** Put of an object above the limit: its page goes, and nothing is kept. */
  ghost predicate DroppedEffect(p: Pool, gr: Grant, p': Pool) {
    && p'.heap == p.heap - {gr.page} && At(p', gr.key).pages == At(p, gr.key).pages - {gr.page}
    && forall q :: ListAt(p', gr.key, q) == ListAt(p, gr.key, q)
  }

  ghost predicate PutEffect(c: Config, p: Pool, gr: Grant, p': Pool) {
    && OthersKept(p, p', gr.key)
    && if Oversized(c, gr.key) then DroppedEffect(p, gr, p') else KeptEffect(c, p, gr, p')
  }

  lemma PutStepEffect(c: Config, p: Pool, out: set<Grant>, gr: Grant, p': Pool)
    requires PoolInv(c, p, out) && gr in out && PutStep(c, p, gr, p')
    ensures PutEffect(c, p, gr, p')
  {
    hide HeapOk, PutRel, Geo;
    var k := gr.key;
    GeoFacts(c, k);
    var g := Geo(c, k);
    assert SlotOk(g, p, k, out);
    if Oversized(c, k) {
      DropEffect(c, p, out, gr, p');
    } else {
      var freed :| SlotPut(g, p, gr, p', freed);
      MarkIs(c, k);
      SlotEffect(g, p, out, gr, p', freed);
    }
  }

  lemma DropEffect(c: Config, p: Pool, out: set<Grant>, gr: Grant, p': Pool)
    requires IndicesOk(c, p) && Oversized(c, gr.key) && DirectPut(p, gr, p')
    ensures OthersKept(p, p', gr.key) && DroppedEffect(p, gr, p')
  {
    var s := Slot(At(p, gr.key).pages - {gr.page}, At(p, gr.key).free);
    forall k'
      ensures At(p', k') == if k' == gr.key then s else At(p, k')
    {
      SetAtReads(p, gr.key, s, k', p'.heap, p'.registry);
    }
  }

  lemma MarkIs(c: Config, k: SlotKey)
    requires ValidConfig(c) && ValidKey(c, k)
    ensures Geo(c, k).resident == Mark(c, k)
  {
    GeoFacts(c, k);
  }

  lemma SlotEffect(g: Geometry, p: Pool, out: set<Grant>, gr: Grant, p': Pool, freed: Option<nat>)
    requires Sound(g) && 0 < g.fullCnt && SlotOk(g, p, gr.key, out) && gr in out && SlotPut(g, p, gr, p', freed)
    ensures OthersKept(p, p', gr.key)
    ensures FreeCount(p, gr.key) + 1 < g.resident + g.fullCnt ==> freed == None
    ensures freed == None ==> p'.heap == p.heap && JustAdded(p, gr, p')
    ensures FreeCount(p, gr.key) + 1 >= g.resident + g.fullCnt && (exists page :: FullWith(p, gr, page, g.fullCnt)) ==>
              freed.Some?
    ensures freed.Some? ==>
              && p'.heap != p.heap && PageReleased(p, gr, p', freed.value, g.fullCnt)
              && FreeCount(p', gr.key) >= g.resident
  {
    var k := gr.key;
    var s, s1 := At(p, k), Pushed(At(p, k), gr.page, gr.obj);
    PutEmptyCounts(g, k, s, out, gr, At(p', k), freed);
    forall k' | k' != k
      ensures At(p', k') == At(p, k')
    {
      SetAtReads(p, k, At(p', k), k', p'.heap, p'.registry);
    }
    PushKeeps(g, k, s, out, gr);
    PushCounts(s, gr);
    forall page | FullWith(p, gr, page, g.fullCnt)
      ensures IsFull(g, s1, page)
    {
    }
    if freed.Some? {
      TotalWithout(s1.free.objs, freed.value);
    }
  }

  lemma PushCounts(s: Slot, gr: Grant)
    ensures Total(Pushed(s, gr.page, gr.obj).free.objs) == Total(s.free.objs) + 1
  {
    var objs := s.free.objs;
    TotalReplace(objs, gr.page, ListOf(objs, gr.page) + [gr.obj]);
    if gr.page in objs {
      TotalWithout(objs, gr.page);
    } else {
      TotalAbsent(objs, gr.page);
    }
  }

  // Get.

  /** The first free object of a page has been taken. */
  ghost predicate JustTaken(p: Pool, gr: Grant, p': Pool) {
    && p'.heap == p.heap && At(p', gr.key).pages == At(p, gr.key).pages
    && FreeCount(p', gr.key) == FreeCount(p, gr.key) - 1
    && ListAt(p, gr.key, gr.page) == [gr.obj] + ListAt(p', gr.key, gr.page)
    && forall q :: q != gr.page ==> ListAt(p', gr.key, q) == ListAt(p, gr.key, q)
  }

  /** A new page of so many bytes was allocated and cut; its first object has been taken, the others are free. */
  ghost predicate PageAdded(p: Pool, gr: Grant, p': Pool, page: nat, bytes: nat, size: nat) {
    && 0 < size && Accepts(p.heap, page, bytes) && p'.heap == p.heap[page := Region(bytes, gr.key)]
    && At(p', gr.key).pages == At(p, gr.key).pages + {page} && gr.page == gr.obj == page
    && FreeCount(p', gr.key) == Div(bytes, size) - 1 == |ListAt(p', gr.key, page)|
    && forall i: nat :: i < |ListAt(p', gr.key, page)| ==> ListAt(p', gr.key, page)[i] == page + size * (i + 1)
  }

  /** Get that drains no other slot: while the slot has a free object that is taken, and only otherwise a page is
      allocated; without either nothing is handed out, and free objects, pages and heap are as before. */
  ghost predicate GetEffect(c: Config, p: Pool, offer: nat, p': Pool, r: Option<Grant>) {
    if r == None then p'.heap == p.heap && forall k :: At(p', k) == At(p, k)
    else
      var k := r.value.key;
      && OthersKept(p, p', k)
      && if FreeCount(p, k) > 0 then JustTaken(p, r.value, p')
         else SizeOf(c, k) >= 0 && PageAdded(p, r.value, p', offer, Geo(c, k).pageBytes, SizeOf(c, k))
  }

  lemma GetStepEffect(c: Config, p: Pool, out: set<Grant>, size: uint32, offer: nat, p': Pool, r: Option<Grant>)
    requires PoolInv(c, p, out) && Request(c, size) && GetStep(c, p, size, offer, p', r) && !Drains(c, p, size)
    ensures GetEffect(c, p, offer, p', r)
  {
    hide HeapOk, Geo, GetStep, Drains, SlotGet, RoundUp;
    var k := ServingSlot(c, p, size, offer, p', r);
    GeoFacts(c, k);
    var g := Geo(c, k);
    assert SlotOk(g, p, k, out);
    if Accepts(p.heap, offer, g.pageBytes) { AcceptKeepsHeap(c, p.heap, offer, k, g.pageBytes); }
    AbsentCountsZero(p, k);
    SlotGetEffect(g, p, out, k, offer, p', r);
  }

  lemma SlotGetEffect(g: Geometry, p: Pool, out: set<Grant>, k: SlotKey, offer: nat, p': Pool, r: Option<Grant>)
    requires SlotOk(g, p, k, out) && Sound(g) && 0 < PerPage(g) && SlotGet(g, p, k, offer, p', r)
    requires Accepts(p.heap, offer, g.pageBytes) ==> offer !in p.heap
    requires k.Bulk? && At(p, k).free.objs == map[] ==> At(p, k).free.cnt == 0
    ensures r.Some? ==> r.value.key == k && OthersKept(p, p', k)
    ensures r == None ==> p'.heap == p.heap && forall k' :: At(p', k') == At(p, k')
    ensures r.Some? && FreeCount(p, k) > 0 ==> JustTaken(p, r.value, p')
    ensures r.Some? && FreeCount(p, k) == 0 ==> PageAdded(p, r.value, p', offer, g.pageBytes, g.slotSize)
  {
    hide GetRel;
    var s := At(p, k);
    SlotGetOwn(g, p, out, k, offer, p', r);
    forall k' | k' != k
      ensures At(p', k') == At(p, k')
    {
      SetAtReads(p, k, At(p', k), k', p'.heap, p'.registry);
    }
    if s.free.objs == map[] {
      if r.Some? { FreshEffect(g, p, k, offer, p', r.value); }
    } else {
      TakenEffect(g, p, k, offer, p', r);
    }
  }

  lemma TakenEffect(g: Geometry, p: Pool, k: SlotKey, offer: nat, p': Pool, r: Option<Grant>)
    requires At(p, k).free.objs != map[] && SlotGet(g, p, k, offer, p', r)
    requires forall q :: q in At(p, k).free.objs ==> At(p, k).free.objs[q] != []
    ensures r.Some? && FreeCount(p, k) > 0 && JustTaken(p, r.value, p')
  {
    var s := At(p, k);
    var q :| q in s.free.objs;
    TotalPositive(s.free.objs, q);
    TakeShrinks(s, r.value.page);
  }

  lemma FreshEffect(g: Geometry, p: Pool, k: SlotKey, offer: nat, p': Pool, gr: Grant)
    requires Sound(g) && 0 < PerPage(g) && At(p, k).free.objs == map[] && SlotGet(g, p, k, offer, p', Some(gr))
    requires Accepts(p.heap, offer, g.pageBytes)
    ensures PageAdded(p, gr, p', offer, g.pageBytes, g.slotSize)
  {
    var s1 := Refilled(g, At(p, k), offer);
    assert offer in s1.free.objs;
    TakeShrinks(s1, offer);
    var list := Pieces(g.slotSize, offer, PerPage(g));
    assert s1.free.objs == map[offer := list];
    TotalWithout(s1.free.objs, offer);
    assert s1.free.objs - {offer} == map[];
  }

  /** How large the pages are: a system page of tiny objects, the least number of system pages for 32 small or big
      objects, four bulk objects below 1 MiB, and one from there on. */
  lemma PageBytesAre(c: Config, k: SlotKey)
    requires ValidConfig(c) && ValidKey(c, k)
    ensures var bytes, size := Geo(c, k).pageBytes, SizeOf(c, k);
      && (k.Tiny? ==> bytes == c.pageSize)
      && (k.Small? || k.Big? ==> bytes % c.pageSize == 0 && 32 * size <= bytes < 32 * size + c.pageSize)
      && (k.Bulk? && size < 1048576 ==> bytes == 4 * size)
      && (k.Bulk? && size >= 1048576 ==> bytes == size)
  {
    hide ValidConfig, Expanded, BulkGeo;
    SizeInRange(c, k);
    PageFacts(c);
    match k
    case Tiny =>
    case Small(_) => ExpandedBytes(SizeOf(c, k), c.pageSize, c.smallResident);
    case Big(_) => ExpandedBytes(SizeOf(c, k), c.pageSize, c.bigResident);
    case Bulk(_) => BulkBytes(SizeOf(c, k), c.pageSize, c.bulkResident);
  }

  lemma ExpandedBytes(size: uint32, pageSize: uint32, resident: uint32)
    requires 0 < size <= 0x400_0000 && 0 < pageSize <= RESIDENT_BULK_MAX
    ensures var bytes := Expanded(size, EXPAND_FACTOR, pageSize, resident).pageBytes;
            bytes % pageSize == 0 && 32 * size <= bytes < 32 * size + pageSize
  {
    ExpandSizeIsLeast(size, EXPAND_FACTOR, pageSize);
    RoundedIdx(size * 32, pageSize, ExpandSize(size, EXPAND_FACTOR, pageSize), 0);
  }

  lemma BulkBytes(size: uint32, pageSize: uint32, resident: uint32)
    requires 0 < size && 0 < pageSize <= RESIDENT_BULK_MAX && size % pageSize == 0
    ensures BulkGeo(size, pageSize, resident).pageBytes == if size < 1048576 then 4 * size else size
  {
    if size < RESIDENT_BULK_MAX { ExpandSizeExact(size, BULK_EXPAND_FACTOR, pageSize); }
  }

  // Which slot.

  /** The request rounded up to the unit. */
  predicate RoundsTo(unit: nat, size: nat, idx: nat) {
    unit * (idx - 1) < size <= unit * idx
  }

  /** The bulk slot for a request of `need` pages: the exact one if it has free objects. Else, with a smaller one
      listed, the largest one up to twice the need; with none, the smallest one if it is not larger than that; and the
      exact one if nothing listed will do. */
  ghost predicate BulkChoice(listed: set<nat>, need: nat, i: nat) {
    && (need in listed ==> i == need)
    && (need !in listed && (exists j :: j in listed && j < need)
        && (exists j :: j in listed && need < j <= 2 * need) ==>
          i in listed && need < i <= 2 * need && forall j :: j in listed && need < j <= 2 * need ==> j <= i)
    && ((forall j :: j in listed ==> need < j) && (exists j :: j in listed && j <= 2 * need) ==>
          i in listed && forall j :: j in listed ==> i <= j)
    && ((forall j :: j in listed ==> !(need <= j <= 2 * need)) ==> i == need)
  }

  ghost predicate RightSlot(c: Config, p: Pool, size: uint32, k: SlotKey) {
    if size <= c.tinyThreshold then k == Tiny
    else if size <= c.bulkThreshold then
      if size <= c.bigThreshold then k.Small? && RoundsTo(32, size, k.idx)
      else k.Big? && RoundsTo(c.pageSize, size, k.idx)
    else k.Bulk? && exists need :: RoundsTo(c.pageSize, size, need) && BulkChoice(p.bulkFree.Keys, need, k.idx)
  }

  /** Every Get that hands something out hands out an object of the slot the size demands. */
  lemma ChoosesSlot(c: Config, p: Pool, out: set<Grant>, size: uint32, offer: nat, p': Pool, r: Option<Grant>)
    requires PoolInv(c, p, out) && Request(c, size) && GetStep(c, p, size, offer, p', r) && r.Some?
    ensures RightSlot(c, p, size, r.value.key)
  {
    hide RoundUp, SlotGet, HeapOk, SlotsOk, BulkNeed, ValidConfig;
    if size <= c.tinyThreshold || size <= c.bulkThreshold {
      SmallRounds(c, size);
      SlotGetKey(Geo(c, SmallKey(c, size)), p, SmallKey(c, size), offer, p', r);
    } else {
      var found :| BulkGet(c, p, size, offer, found, p', r);
      BulkChosen(c, p, out, size, offer, found, p', r);
    }
  }

  lemma SlotGetKey(g: Geometry, p: Pool, k: SlotKey, offer: nat, p': Pool, r: Option<Grant>)
    requires SlotGet(g, p, k, offer, p', r)
    ensures r.Some? ==> r.value.key == k
  {
  }

  lemma SmallRounds(c: Config, size: uint32)
    requires ValidConfig(c) && 0 < size && (size <= c.tinyThreshold || size <= c.bulkThreshold)
    ensures PageExponentOk(c)
    ensures var k := SmallKey(c, size);
      && (size <= c.tinyThreshold ==> k == Tiny)
      && (c.tinyThreshold < size <= c.bigThreshold ==> k.Small? && RoundsTo(32, size, k.idx))
      && (c.tinyThreshold < size && c.bigThreshold < size ==> k.Big? && RoundsTo(c.pageSize, size, k.idx))
  {
    hide RoundUp;
    SmallKeyValid(c, size);
  }

  lemma BulkChosen(c: Config, p: Pool, out: set<Grant>, size: uint32, offer: nat, found: Option<nat>, p': Pool,
                   r: Option<Grant>)
    requires PoolInv(c, p, out) && Request(c, size) && BulkGet(c, p, size, offer, found, p', r) && r.Some?
    ensures r.value.key.Bulk?
    ensures exists need :: RoundsTo(c.pageSize, size, need) && BulkChoice(p.bulkFree.Keys, need, r.value.key.idx)
  {
    hide RoundUp, SlotGet, HeapOk, SlotsOk, BulkNeed, ValidConfig, Suitable, OneLeft, RoundsTo, BulkChoice;
    BulkNeedValid(c, size);
    NeedRounds(c, size);
    var need := BulkNeed(c, size);
    var k := Bulk(if found.Some? then found.value else need);
    if k.idx == need || !OneLeft(At(p, k).free.objs) {
      SlotGetKey(Geo(c, k), p, k, offer, p', r);
    }
    SuitableChoice(p.bulkFree.Keys, need, found);
  }

  lemma NeedRounds(c: Config, size: uint32)
    requires ValidConfig(c) && Request(c, size)
    ensures PageExponentOk(c) && RoundsTo(c.pageSize, size, BulkNeed(c, size))
  {
    hide RoundUp;
    BulkNeedValid(c, size);
    RoundedIdx(size, c.pageSize, RoundUp(size, Log2(c.pageSize)), 0);
  }

  lemma SuitableChoice(listed: set<nat>, need: nat, found: Option<nat>)
    requires Suitable(listed, listed, need, found)
    ensures BulkChoice(listed, need, if found.Some? then found.value else need)
  {
  }

  /** Nothing is handed out only if the right slot has nothing free and the system refuses its page. */
  ghost predicate Refused(c: Config, p: Pool, size: uint32, offer: nat) {
    exists k :: RightSlot(c, p, size, k) && FreeCount(p, k) == 0 && !Accepts(p.heap, offer, Geo(c, k).pageBytes)
  }

  lemma NoneIsRefused(c: Config, p: Pool, out: set<Grant>, size: uint32, offer: nat, p': Pool, r: Option<Grant>)
    requires PoolInv(c, p, out) && Request(c, size) && GetStep(c, p, size, offer, p', r) && r == None
    ensures Refused(c, p, size, offer)
  {
    hide RoundUp, SlotGet, SlotsOk, HeapOk, BulkNeed, ValidConfig, RightSlot, Accepts, Geo;
    if size <= c.tinyThreshold || size <= c.bulkThreshold {
      SmallIsRight(c, p, size);
      NoneServed(c, p, out, SmallKey(c, size), offer, p', r);
    } else {
      var found :| BulkGet(c, p, size, offer, found, p', r);
      BulkNone(c, p, out, size, offer, found, p', r);
    }
  }

  lemma SmallIsRight(c: Config, p: Pool, size: uint32)
    requires ValidConfig(c) && 0 < size && (size <= c.tinyThreshold || size <= c.bulkThreshold)
    ensures PageExponentOk(c) && ValidKey(c, SmallKey(c, size)) && RightSlot(c, p, size, SmallKey(c, size))
  {
    SmallKeyValid(c, size);
    SmallRounds(c, size);
  }

  lemma NoneServed(c: Config, p: Pool, out: set<Grant>, k: SlotKey, offer: nat, p': Pool, r: Option<Grant>)
    requires PoolInv(c, p, out) && ValidKey(c, k) && SlotGet(Geo(c, k), p, k, offer, p', r) && r == None
    ensures At(p, k).free.objs == map[] && FreeCount(p, k) == 0 && !Accepts(p.heap, offer, Geo(c, k).pageBytes)
  {
    hide SlotGet, Geo, Accepts, SlotsOk, HeapOk, IndicesOk;
    GeoFacts(c, k);
    SlotGetKeeps(c, p, out, k, Geo(c, k), offer, p', r);
  }

  lemma BulkNone(c: Config, p: Pool, out: set<Grant>, size: uint32, offer: nat, found: Option<nat>, p': Pool,
                 r: Option<Grant>)
    requires PoolInv(c, p, out) && Request(c, size) && BulkGet(c, p, size, offer, found, p', r) && r == None
    requires BulkSize(c, size)
    ensures Refused(c, p, size, offer)
  {
    hide RoundUp, SlotGet, SlotsOk, HeapOk, BulkNeed, ValidConfig, Suitable, OneLeft, RoundsTo, BulkChoice;
    hide Accepts, Geo;
    BulkNeedValid(c, size);
    NeedRounds(c, size);
    var need := BulkNeed(c, size);
    var k := Bulk(if found.Some? then found.value else need);
    SuitableComplete(p.bulkFree.Keys, need, found);
    SuitableChoice(p.bulkFree.Keys, need, found);
    NoneServed(c, p, out, k, offer, p', r);
    assert RightSlot(c, p, size, k);
  }

  /** All that holds after a Get. */
  lemma GetOutcome(c: Config, p: Pool, out: set<Grant>, size: uint32, offer: nat, p': Pool, r: Option<Grant>)
    requires PoolInv(c, p, out) && Retained(c, p) && Request(c, size) && GetStep(c, p, size, offer, p', r)
    ensures PoolInv(c, p', Extend(out, r)) <==> !Drains(c, p, size)
    ensures !Drains(c, p, size) ==> Retained(c, p') && GetEffect(c, p, offer, p', r)
    ensures r.Some? ==> WordSize(c, r.value.key) && r.value !in out && size <= SizeOf(c, r.value.key)
    ensures if r.Some? then RightSlot(c, p, size, r.value.key) else Refused(c, p, size, offer)
  {
    hide SlotsOk, HeapOk, IndicesOk, Retained, GetStep, Drains, GetEffect, RightSlot, WordSize, Refused;
    if r == None { NoneIsRefused(c, p, out, size, offer, p', r); }
    GetStepKeeps(c, p, out, size, offer, p', r);
    if r.Some? {
      ChoosesSlot(c, p, out, size, offer, p', r);
      SizeInRange(c, r.value.key);
    }
    if !Drains(c, p, size) { GetStepEffect(c, p, out, size, offer, p', r); }
  }
}
