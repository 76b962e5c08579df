/** What every run of Get and Put keeps: ownership of every byte handed out, the two bulk indices, retention. */
module PoolRuns {
  import opened Words
  import opened SlotMath
  import opened FreeLists
  import opened SlotPages
  import opened PoolState

  // The invariant, clause by clause.

  ghost predicate SlotsOk(c: Config, p: Pool, out: set<Grant>) {
    forall k {:trigger SlotOk(Geo(c, k), p, k, out)} :: ValidKey(c, k) ==> SlotOk(Geo(c, k), p, k, out)
  }

  ghost predicate SlotOk(g: Geometry, p: Pool, k: SlotKey, out: set<Grant>) {
    && SlotInv(g, k, At(p, k), out)
    // The registered pages of the slot are exactly its live allocations.
    && (forall q :: q in At(p, k).pages <==> q in p.heap && p.heap[q].owner == k)
    && (forall q :: q in p.heap && p.heap[q].owner == k ==> p.heap[q].bytes == g.pageBytes)
  }

  ghost predicate HeapOk(c: Config, heap: map<nat, Region>) {
    && (forall q :: q in heap ==> 0 < q && 0 < heap[q].bytes && ValidKey(c, heap[q].owner))
    && (forall q, q' {:trigger Apart(q, heap[q].bytes, q', heap[q'].bytes)} ::
          q in heap && q' in heap && q != q' ==> Apart(q, heap[q].bytes, q', heap[q'].bytes))
  }

  /** The constructor's slots exist; the bulk indices agree, list no empty record and nothing above the limit. */
  ghost predicate IndicesOk(c: Config, p: Pool) {
    && (forall i :: ValidKey(c, Small(i)) ==> i in p.smallFree && i in p.smallPages)
    && (forall i :: ValidKey(c, Big(i)) ==> i in p.bigFree && i in p.bigPages)
    && p.bulkOrder.Keys == p.bulkFree.Keys
    && (forall i :: i in p.bulkOrder ==> p.bulkOrder[i] == i)
    && (forall i :: i in p.bulkFree ==> p.bulkFree[i].objs != map[] && ValidKey(c, Bulk(i))
                                        && SizeOf(c, Bulk(i)) <= RESIDENT_BULK_MAX)
  }

  ghost predicate PoolInv(c: Config, p: Pool, out: set<Grant>) {
    && ValidConfig(c)
    && SlotsOk(c, p, out)
    && HeapOk(c, p.heap)
    && IndicesOk(c, p)
    && (forall gr :: gr in out ==> ValidKey(c, gr.key))
  }

  /** Retention, for every slot whose full-page test fits its pages. */
  ghost predicate Retained(c: Config, p: Pool) {
    forall k {:trigger Bounded(Geo(c, k), At(p, k))} ::
      ValidKey(c, k) && !(k.Bulk? && SizeOf(c, k) == RESIDENT_BULK_MAX) ==> Bounded(Geo(c, k), At(p, k))
  }

  // Preservation.

  /** A slot does not see grants of other slots. */
  lemma SlotInvFrame(g: Geometry, key: SlotKey, s: Slot, out: set<Grant>, out': set<Grant>)
    requires SlotInv(g, key, s, out)
    requires forall gr: Grant :: gr.key == key ==> (gr in out <==> gr in out')
    ensures SlotInv(g, key, s, out')
  {
    forall q | q in s.pages
      ensures PageSplit(g, key, q, ListOf(s.free.objs, q), out')
    {
      assert PageSplit(g, key, q, ListOf(s.free.objs, q), out);
    }
  }

  /** An accepted page is new to the heap and leaves the live regions pairwise apart. */
  lemma AcceptKeepsHeap(c: Config, heap: map<nat, Region>, offer: nat, k: SlotKey, bytes: nat)
    requires HeapOk(c, heap) && Accepts(heap, offer, bytes) && 0 < bytes && ValidKey(c, k)
    ensures offer !in heap && HeapOk(c, heap[offer := Region(bytes, k)])
  {
    NotApartFromItself(bytes);
  }

  lemma NotApartFromItself(n: nat)
    requires 0 < n
    ensures forall a: nat, m: nat :: 0 < m ==> !Apart(a, n, a, m)
  {
  }

  /** All other slots are as before when one slot and its heap entries change. */
  lemma OtherSlots(c: Config, p: Pool, out: set<Grant>, k: SlotKey, s': Slot, heap': map<nat, Region>,
                   registry': map<nat, set<nat>>, out': set<Grant>)
    requires PoolInv(c, p, out)
    requires k.Bulk? && s'.free.objs == map[] ==> s'.free.cnt == 0
    requires forall gr: Grant :: gr.key != k ==> (gr in out <==> gr in out')
    requires forall q :: (q in heap' && heap'[q].owner != k) <==> (q in p.heap && p.heap[q].owner != k)
    requires forall q :: q in heap' && q in p.heap ==> heap'[q] == p.heap[q]
    ensures var p' := Changed(p, k, s', heap', registry');
            forall k' :: ValidKey(c, k') && k' != k ==> SlotOk(Geo(c, k'), p', k', out')
  {
    var p' := Changed(p, k, s', heap', registry');
    forall k' | ValidKey(c, k') && k' != k
      ensures SlotOk(Geo(c, k'), p', k', out')
    {
      assert SlotOk(Geo(c, k'), p, k', out);
      OtherSlot(Geo(c, k'), p, out, k, s', heap', registry', out', k');
    }
  }

  lemma OtherSlot(g: Geometry, p: Pool, out: set<Grant>, k: SlotKey, s': Slot, heap': map<nat, Region>,
                  registry': map<nat, set<nat>>, out': set<Grant>, k': SlotKey)
    requires SlotOk(g, p, k', out) && k' != k
    requires k.Bulk? && s'.free.objs == map[] ==> s'.free.cnt == 0
    requires forall gr: Grant :: gr.key != k ==> (gr in out <==> gr in out')
    requires forall q :: (q in heap' && heap'[q].owner != k) <==> (q in p.heap && p.heap[q].owner != k)
    requires forall q :: q in heap' && q in p.heap ==> heap'[q] == p.heap[q]
    ensures SlotOk(g, Changed(p, k, s', heap', registry'), k', out')
  {
    SetAtReads(p, k, s', k', heap', registry');
    SlotInvFrame(g, k', At(p, k'), out, out');
  }

  /** Get on a slot whose objects and pages are in order keeps them in order. */
  lemma SlotGetOwn(g: Geometry, p: Pool, out: set<Grant>, k: SlotKey, offer: nat, p': Pool, r: Option<Grant>)
    requires SlotOk(g, p, k, out) && Sound(g) && 0 < PerPage(g) && SlotGet(g, p, k, offer, p', r)
    requires Accepts(p.heap, offer, g.pageBytes) ==> offer !in p.heap
    ensures SlotOk(g, p', k, Extend(out, r))
    ensures r.Some? ==> r.value !in out && r.value.key == k && r.value.page in At(p', k).pages
    ensures r == None <==> At(p, k).free.objs == map[] && !Accepts(p.heap, offer, g.pageBytes)
    ensures r.Some? && At(p', k).free.objs == map[] ==> At(p', k).free.cnt == 0
    ensures r == None ==> At(p', k) == At(p, k)
  {
    var o := Accepted(p.heap, offer, g.pageBytes);
    GetKeeps(g, k, At(p, k), out, o, At(p', k), r);
    GetEmptyCounts(g, k, At(p, k), out, o, At(p', k), r);
    GetPages(g, k, At(p, k), o, At(p', k), r);
  }

  lemma SlotGetKeeps(c: Config, p: Pool, out: set<Grant>, k: SlotKey, g: Geometry, offer: nat, p': Pool,
                     r: Option<Grant>)
    requires PoolInv(c, p, out) && ValidKey(c, k) && g == Geo(c, k) && SlotGet(g, p, k, offer, p', r)
    requires Sound(g) && 0 < PerPage(g)
    ensures SlotsOk(c, p', Extend(out, r)) && HeapOk(c, p'.heap)
    ensures r.Some? ==> r.value !in out && r.value.key == k && r.value.page in At(p', k).pages
    ensures r == None <==> At(p, k).free.objs == map[] && !Accepts(p.heap, offer, g.pageBytes)
  {
    hide HeapOk, GetRel;
    assert SlotOk(g, p, k, out);
    if Accepts(p.heap, offer, g.pageBytes) { AcceptKeepsHeap(c, p.heap, offer, k, g.pageBytes); }
    SlotGetOwn(g, p, out, k, offer, p', r);
    AbsentCountsZero(p, k);
    OtherSlots(c, p, out, k, At(p', k), p'.heap, p'.registry, Extend(out, r));
  }

  /** The pages of a slot change only by the page of a refill. */
  lemma GetPages(g: Geometry, key: SlotKey, s: Slot, o: Option<nat>, s': Slot, r: Option<Grant>)
    requires 0 < PerPage(g) && GetRel(g, key, s, o, s', r)
    ensures s'.pages == if s.free.objs == map[] && o.Some? then s.pages + {o.value} else s.pages
  {
  }

  lemma AbsentCountsZero(p: Pool, k: SlotKey)
    requires k.Bulk? && At(p, k).free.objs == map[] ==> k.idx !in p.bulkFree
    ensures k.Bulk? && At(p, k).free.objs == map[] ==> At(p, k).free.cnt == 0
  {
  }

  lemma GetEmptyCounts(g: Geometry, key: SlotKey, s: Slot, out: set<Grant>, o: Option<nat>, s': Slot, r: Option<Grant>)
    requires Sound(g) && 0 < PerPage(g) && SlotInv(g, key, s, out) && GetRel(g, key, s, o, s', r)
    requires o.Some? ==> o.value !in s.pages
    ensures r.Some? && s'.free.objs == map[] ==> s'.free.cnt == 0
  {
    GetKeeps(g, key, s, out, o, s', r);
  }

  lemma PutEmptyCounts(g: Geometry, key: SlotKey, s: Slot, out: set<Grant>, gr: Grant, s': Slot, freed: Option<nat>)
    requires Sound(g) && SlotInv(g, key, s, out) && gr in out && gr.key == key && PutRel(g, s, gr, s', freed)
    ensures s'.free.objs == map[] ==> s'.free.cnt == 0
    ensures s'.pages == if freed.Some? then s.pages - {freed.value} else s.pages
    ensures freed.Some? ==> freed.value in s.pages
  {
    var s1 := Pushed(s, gr.page, gr.obj);
    PushKeeps(g, key, s, out, gr);
    if freed.Some? {
      DropKeeps(g, key, s1, out - {gr}, freed.value);
    }
  }

  lemma SlotPutKeeps(c: Config, p: Pool, out: set<Grant>, gr: Grant, g: Geometry, p': Pool, freed: Option<nat>)
    requires PoolInv(c, p, out) && gr in out && g == Geo(c, gr.key) && SlotPut(g, p, gr, p', freed) && Sound(g)
    ensures SlotsOk(c, p', out - {gr}) && HeapOk(c, p'.heap)
    ensures freed.Some? ==> forall h :: h in out - {gr} ==> h.page != freed.value
  {
    var k := gr.key;
    var s, s' := At(p, k), At(p', k);
    assert SlotOk(g, p, k, out);
    PutKeeps(g, k, s, out, gr, s', freed);
    PutEmptyCounts(g, k, s, out, gr, s', freed);
    OtherSlots(c, p, out, k, s', p'.heap, p'.registry, out - {gr});
    assert SlotOk(g, p', k, out - {gr});
    if freed.Some? {
      GrantPages(c, p, out);
    }
  }

  /** Every outstanding object lies on a live page of its own slot. */
  lemma GrantPages(c: Config, p: Pool, out: set<Grant>)
    requires PoolInv(c, p, out)
    ensures forall h :: h in out ==> h.page in p.heap && p.heap[h.page].owner == h.key
  {
    forall h | h in out
      ensures h.page in p.heap && p.heap[h.page].owner == h.key
    {
      assert SlotOk(Geo(c, h.key), p, h.key, out);
    }
  }

  /** A bulk object above the limit is alone on its page, so its page can be released with it. */
  lemma DirectPutKeeps(c: Config, p: Pool, out: set<Grant>, gr: Grant, g: Geometry, p': Pool)
    requires PoolInv(c, p, out) && gr in out && g == Geo(c, gr.key) && gr.key.Bulk? && DirectPut(p, gr, p')
    requires Sound(g) && PerPage(g) == 1 && gr.key.idx !in p.bulkFree
    ensures SlotsOk(c, p', out - {gr}) && HeapOk(c, p'.heap)
    ensures forall h :: h in out - {gr} ==> h.page != gr.page
  {
    assert SlotOk(g, p, gr.key, out);
    GrantPages(c, p, out);
    DirectPutOwn(g, p, out, gr, p');
    OtherSlots(c, p, out, gr.key, At(p', gr.key), p'.heap, p'.registry, out - {gr});
  }

  lemma DirectPutOwn(g: Geometry, p: Pool, out: set<Grant>, gr: Grant, p': Pool)
    requires Sound(g) && PerPage(g) == 1 && SlotOk(g, p, gr.key, out) && gr in out
    requires gr.key.Bulk? && DirectPut(p, gr, p') && gr.key.idx !in p.bulkFree
    ensures SlotOk(g, p', gr.key, out - {gr}) && At(p', gr.key).free == NO_FREE
    ensures p' == Changed(p, gr.key, At(p', gr.key), p.heap - {gr.page}, p'.registry)
    ensures forall h :: h in out - {gr} && h.key == gr.key ==> h.page != gr.page
  {
    var s := At(p, gr.key);
    LonePage(g, gr.key, s, out, gr);
    SetAtReads(p, gr.key, Slot(s.pages - {gr.page}, s.free), gr.key, p'.heap, p'.registry);
  }

  lemma LonePage(g: Geometry, key: SlotKey, s: Slot, out: set<Grant>, gr: Grant)
    requires Sound(g) && PerPage(g) == 1 && SlotInv(g, key, s, out) && gr in out && gr.key == key
    requires s.free == NO_FREE
    ensures SlotInv(g, key, Slot(s.pages - {gr.page}, s.free), out - {gr})
    ensures forall h :: h in out - {gr} && h.key == key ==> h.page != gr.page
  {
    forall h | h in out && h.key == key && h.page == gr.page
      ensures h == gr
    {
      LonePageObject(g, key, s, out, gr);
      LonePageObject(g, key, s, out, h);
    }
    forall q | q in s.pages - {gr.page}
      ensures PageSplit(g, key, q, ListOf(s.free.objs, q), out - {gr})
    {
      assert PageSplit(g, key, q, ListOf(s.free.objs, q), out);
    }
  }

  lemma LonePageObject(g: Geometry, key: SlotKey, s: Slot, out: set<Grant>, gr: Grant)
    requires Sound(g) && PerPage(g) == 1 && SlotInv(g, key, s, out) && gr in out && gr.key == key
    ensures gr == Grant(key, gr.page, gr.page)
  {
    assert PageSplit(g, key, gr.page, ListOf(s.free.objs, gr.page), out);
    assert ObjAt(g.slotSize, gr.page, 0) == gr.page;
  }

  /** Replacing one slot keeps the constructor's slots and the agreement of the bulk indices. */
  lemma SetAtIndices(c: Config, p: Pool, k: SlotKey, s': Slot, heap': map<nat, Region>, registry': map<nat, set<nat>>)
    requires IndicesOk(c, p) && ValidKey(c, k) && (Oversized(c, k) ==> s'.free.objs == map[])
    ensures IndicesOk(c, Changed(p, k, s', heap', registry'))
  {
  }

  lemma GetIndices(c: Config, p: Pool, k: SlotKey, g: Geometry, offer: nat, p': Pool, r: Option<Grant>)
    requires IndicesOk(c, p) && ValidKey(c, k) && SlotGet(g, p, k, offer, p', r)
    requires Oversized(c, k) ==> PerPage(g) == 1
    ensures IndicesOk(c, p')
  {
    if Oversized(c, k) {
      assert At(p, k).free.objs == map[];
      OversizedEmpty(g, k, At(p, k), Accepted(p.heap, offer, g.pageBytes), At(p', k), r);
    }
    SetAtIndices(c, p, k, At(p', k), p'.heap, p'.registry);
  }

  /** A slot with one object per page is empty again after an object was taken from a fresh page. */
  lemma OversizedEmpty(g: Geometry, key: SlotKey, s: Slot, o: Option<nat>, s': Slot, r: Option<Grant>)
    requires PerPage(g) == 1 && s.free.objs == map[] && GetRel(g, key, s, o, s', r)
    ensures s'.free.objs == map[]
  {
  }

  lemma PutIndices(c: Config, p: Pool, gr: Grant, p': Pool)
    requires IndicesOk(c, p) && ValidKey(c, gr.key) && PutStep(c, p, gr, p')
    ensures IndicesOk(c, p')
  {
    if Oversized(c, gr.key) {
      SetAtIndices(c, p, gr.key, Slot(At(p, gr.key).pages - {gr.page}, At(p, gr.key).free), p'.heap, p'.registry);
    } else {
      var freed :| SlotPut(Geo(c, gr.key), p, gr, p', freed);
      SetAtIndices(c, p, gr.key, At(p', gr.key), p'.heap, p'.registry);
    }
  }

  lemma ServedKeeps(c: Config, p: Pool, out: set<Grant>, k: SlotKey, offer: nat, p': Pool, r: Option<Grant>)
    requires PoolInv(c, p, out) && ValidKey(c, k) && SlotGet(Geo(c, k), p, k, offer, p', r)
    ensures PoolInv(c, p', Extend(out, r))
    ensures r.Some? ==> r.value !in out && r.value.key == k
  {
    GeoFacts(c, k);
    SlotGetKeeps(c, p, out, k, Geo(c, k), offer, p', r);
    GetIndices(c, p, k, Geo(c, k), offer, p', r);
  }

  /** Get keeps the whole invariant, from any state that has it, for any request and any allocator answer, exactly when
      it does not take the last object of a slot other than the exact one. Even then the object is new and large
      enough. */
  lemma GetStepKeeps(c: Config, p: Pool, out: set<Grant>, size: uint32, offer: nat, p': Pool, r: Option<Grant>)
    requires PoolInv(c, p, out) && Request(c, size) && GetStep(c, p, size, offer, p', r)
    ensures PoolInv(c, p', Extend(out, r)) <==> !Drains(c, p, size)
    ensures p'.bulkOrder.Keys == p'.bulkFree.Keys <==> !Drains(c, p, size)
    ensures Retained(c, p) && !Drains(c, p, size) ==> Retained(c, p')
    ensures r.Some? ==> r.value !in out && ValidKey(c, r.value.key) && size <= SizeOf(c, r.value.key)
  {
    hide Drains, GetStep, SlotsOk, HeapOk, Retained, ValidConfig;
    if Drains(c, p, size) {
      DrainingGet(c, p, out, size, offer, p', r);
    } else {
      var k := ServingSlot(c, p, size, offer, p', r);
      ServedKeeps(c, p, out, k, offer, p', r);
      if Retained(c, p) { GetRetained(c, p, out, k, offer, p', r); }
    }
  }

  predicate BulkSize(c: Config, size: uint32) {
    c.tinyThreshold < size && c.bulkThreshold < size
  }

  /** The slot a Get works on covers the request; a bulk request is served from the exact slot or a listed one. */
  lemma ServingSlot(c: Config, p: Pool, size: uint32, offer: nat, p': Pool, r: Option<Grant>) returns (k: SlotKey)
    requires ValidConfig(c) && IndicesOk(c, p) && Request(c, size) && GetStep(c, p, size, offer, p', r)
    requires !Drains(c, p, size)
    ensures ValidKey(c, k) && size <= SizeOf(c, k) && SlotGet(Geo(c, k), p, k, offer, p', r)
    ensures k.Bulk? <==> BulkSize(c, size)
    ensures k.Bulk? ==> PageExponentOk(c) && BulkNeed(c, size) <= k.idx
                        && (k.idx in p.bulkFree || k.idx == BulkNeed(c, size))
  {
    hide RoundUp, SlotGet;
    if size <= c.tinyThreshold || size <= c.bulkThreshold {
      SmallKeyValid(c, size);
      k := SmallKey(c, size);
    } else {
      BulkNeedValid(c, size);
      var found :| BulkGet(c, p, size, offer, found, p', r);
      k := BulkServed(c, p, size, offer, found, p', r);
    }
  }

  lemma BulkServed(c: Config, p: Pool, size: uint32, offer: nat, found: Option<nat>, p': Pool, r: Option<Grant>)
    returns (k: SlotKey)
    requires ValidConfig(c) && IndicesOk(c, p) && Request(c, size) && BulkGet(c, p, size, offer, found, p', r)
    requires BulkSize(c, size) && !Drains(c, p, size)
    ensures PageExponentOk(c) && k == Bulk(if found.Some? then found.value else BulkNeed(c, size))
    ensures ValidKey(c, k) && size <= SizeOf(c, k) && SlotGet(Geo(c, k), p, k, offer, p', r)
    ensures BulkNeed(c, size) <= k.idx <= 2 * BulkNeed(c, size)
    ensures found.Some? <==> exists i :: i in p.bulkFree && BulkNeed(c, size) <= i <= 2 * BulkNeed(c, size)
    ensures found.Some? ==> At(p, k).free.objs != map[]
  {
    hide RoundUp, SlotGet, Suitable, BulkNeed, OneLeft, Geo;
    BulkNeedValid(c, size);
    var need := BulkNeed(c, size);
    SuitableComplete(p.bulkFree.Keys, need, found);
    k := Bulk(if found.Some? then found.value else need);
    assert !DrainsSlot(p, need, k.idx);
    MulLe(c.pageSize, need, k.idx);
  }

  /** Which slot the lookup settles on is determined. */
  lemma SuitableUnique(hash: set<nat>, ordered: set<nat>, need: nat, r: Option<nat>, r': Option<nat>)
    requires Suitable(hash, ordered, need, r) && Suitable(hash, ordered, need, r')
    ensures r == r'
  {
  }

  /** What a Get does that takes the last object of a larger slot. */
  lemma DrainingGet(c: Config, p: Pool, out: set<Grant>, size: uint32, offer: nat, p': Pool, r: Option<Grant>)
    requires PoolInv(c, p, out) && Request(c, size) && GetStep(c, p, size, offer, p', r) && Drains(c, p, size)
    ensures p'.bulkOrder.Keys != p'.bulkFree.Keys
    ensures r.Some? && r.value !in out && ValidKey(c, r.value.key) && size <= SizeOf(c, r.value.key)
    ensures PageExponentOk(c) && Drained(p, BulkNeed(c, size), p')
  {
    hide RoundUp, SlotsOk, HeapOk, Geo, GetStep, Drains, BulkNeed, OneLeft, Suitable;
    BulkNeedValid(c, size);
    var need := BulkNeed(c, size);
    var f := DrainedSlot(c, p, size, offer, p', r);
    DrainedKeys(p, need, f, p', r);
    SuitableComplete(p.bulkFree.Keys, need, Some(f));
    MulLe(c.pageSize, need, f);
    TakenIsNew(c, p, out, Bulk(f), At(p', Bulk(f)), r);
  }

  lemma DrainedSlot(c: Config, p: Pool, size: uint32, offer: nat, p': Pool, r: Option<Grant>) returns (f: nat)
    requires ValidConfig(c) && Request(c, size) && GetStep(c, p, size, offer, p', r) && Drains(c, p, size)
    ensures PageExponentOk(c)
    ensures DrainsSlot(p, BulkNeed(c, size), f) && TakesLast(p, BulkNeed(c, size), f, p', r)
  {
    hide RoundUp, Suitable, SlotGet, TakesLast, ValidConfig, BulkNeed, OneLeft;
    BulkNeedValid(c, size);
    var need := BulkNeed(c, size);
    var found :| BulkGet(c, p, size, offer, found, p', r);
    f :| DrainsSlot(p, need, f);
    SuitableUnique(p.bulkFree.Keys, p.bulkOrder.Keys, need, found, Some(f));
  }

  lemma DrainedKeys(p: Pool, need: nat, f: nat, p': Pool, r: Option<Grant>)
    requires p.bulkOrder.Keys == p.bulkFree.Keys && forall i :: i in p.bulkFree ==> p.bulkFree[i].objs != map[]
    requires DrainsSlot(p, need, f) && TakesLast(p, need, f, p', r)
    ensures p'.bulkOrder.Keys != p'.bulkFree.Keys && Drained(p, need, p')
  {
    SuitableComplete(p.bulkFree.Keys, need, Some(f));
    var q :| q in At(p, Bulk(f)).free.objs && At(p, Bulk(f)).free.objs == map[q := At(p, Bulk(f)).free.objs[q]];
    var below :| IsNextBelow(p.bulkOrder.Keys, f, below)
                 && p' == p.(bulkFree := p.bulkFree[f := At(p', Bulk(f)).free] - {below},
                             bulkOrder := p.bulkOrder - {f});
    assert f in p'.bulkFree && f !in p'.bulkOrder;
    assert At(p', Bulk(f)).free.objs == map[];
  }

  lemma TakenIsNew(c: Config, p: Pool, out: set<Grant>, k: SlotKey, s': Slot, r: Option<Grant>)
    requires PoolInv(c, p, out) && ValidKey(c, k) && TakeRel(k, At(p, k), s', r)
    ensures r.value !in out
  {
    GeoFacts(c, k);
    assert SlotOk(Geo(c, k), p, k, out);
    TakeKeeps(Geo(c, k), k, At(p, k), out, r.value.page);
  }

  /** After such a Get the slot it was served from is in the hash index without an object and out of the ordered one;
      the next smaller slot is in the ordered index, and its record with all free objects is gone. */
  ghost predicate Drained(p: Pool, need: nat, p': Pool) {
    exists f: nat, below: nat {:trigger IsNextBelow(p.bulkOrder.Keys, f, below)} ::
      && IsNextBelow(p.bulkOrder.Keys, f, below) && need < f <= 2 * need
      && f in p'.bulkFree && p'.bulkFree[f].objs == map[] && f !in p'.bulkOrder
      && below in p.bulkFree && p.bulkFree[below].objs != map[] && below !in p'.bulkFree && below in p'.bulkOrder
  }

  /** A bulk request gets an object between the rounded request and twice it; it gets none exactly when no free slot
      is in range and the system allocator refuses the page of the exact one. */
  lemma BulkSizeBounded(c: Config, p: Pool, out: set<Grant>, size: uint32, offer: nat, p': Pool, r: Option<Grant>)
    requires PoolInv(c, p, out) && Request(c, size) && GetStep(c, p, size, offer, p', r)
    requires BulkSize(c, size)
    ensures PageExponentOk(c)
    ensures var rounded := RoundUp(size, Log2(c.pageSize));
      && size <= rounded
      && (r.Some? ==> r.value.key.Bulk? && rounded <= SizeOf(c, r.value.key) <= 2 * rounded)
    ensures var need := BulkNeed(c, size);
      r == None <==>
        && (forall i :: i in p.bulkFree ==> !(need <= i <= 2 * need))
        && !Accepts(p.heap, offer, Geo(c, Bulk(need)).pageBytes)
  {
    hide RoundUp, BulkGet, SlotsOk, HeapOk;
    BulkNeedValid(c, size);
    var found :| BulkGet(c, p, size, offer, found, p', r);
    BulkGetBounded(c, p, out, size, offer, found, p', r, BulkNeed(c, size));
  }

  lemma BulkGetBounded(c: Config, p: Pool, out: set<Grant>, size: uint32, offer: nat, found: Option<nat>, p': Pool,
                       r: Option<Grant>, need: nat)
    requires PoolInv(c, p, out) && Request(c, size) && BulkGet(c, p, size, offer, found, p', r)
    requires PageExponentOk(c) && need == BulkNeed(c, size)
    ensures r.Some? ==> r.value.key.Bulk?
    ensures r.Some? ==> SizeOf(c, Bulk(need)) <= SizeOf(c, r.value.key) <= 2 * SizeOf(c, Bulk(need))
    ensures r == None <==>
      && (forall i :: i in p.bulkFree ==> !(need <= i <= 2 * need))
      && !Accepts(p.heap, offer, Geo(c, Bulk(need)).pageBytes)
  {
    hide RoundUp, SlotGet, Suitable, Geo, SizeOf, BulkNeed, Accepts, SlotsOk, HeapOk, OneLeft;
    BulkNeedValid(c, size);
    SuitableComplete(p.bulkFree.Keys, need, found);
    var k := Bulk(if found.Some? then found.value else need);
    BulkSizes(c, need, k.idx);
    GeoFacts(c, k);
    if k.idx == need || !OneLeft(At(p, k).free.objs) {
      SlotGetKeeps(c, p, out, k, Geo(c, k), offer, p', r);
    }
  }

  lemma BulkSizes(c: Config, need: nat, idx: nat)
    requires 0 < c.pageSize && need <= idx <= 2 * need
    ensures SizeOf(c, Bulk(need)) <= SizeOf(c, Bulk(idx)) <= 2 * SizeOf(c, Bulk(need))
  {
    MulLe(c.pageSize, need, idx);
    MulLe(c.pageSize, idx, 2 * need);
  }

  /** Bulk lookup finds a slot exactly when one lies in [need, 2 * need], and prefers the exact one. */
  lemma SuitableComplete(free: set<nat>, need: nat, r: Option<nat>)
    requires Suitable(free, free, need, r)
    ensures r.Some? <==> exists i :: i in free && need <= i <= 2 * need
    ensures r.Some? ==> r.value in free && need <= r.value <= 2 * need
    ensures need in free ==> r == Some(need)
  {
  }

  lemma GetRetained(c: Config, p: Pool, out: set<Grant>, k: SlotKey, offer: nat, p': Pool, r: Option<Grant>)
    requires PoolInv(c, p, out) && Retained(c, p) && ValidKey(c, k) && SlotGet(Geo(c, k), p, k, offer, p', r)
    ensures Retained(c, p')
  {
    var g := Geo(c, k);
    GeoFacts(c, k);
    hide HeapOk, GetRel;
    assert SlotOk(g, p, k, out);
    if Accepts(p.heap, offer, g.pageBytes) { AcceptKeepsHeap(c, p.heap, offer, k, g.pageBytes); }
    SlotGetOwn(g, p, out, k, offer, p', r);
    AbsentCountsZero(p, k);
    if Bounded(g, At(p, k)) {
      GetBounded(g, k, At(p, k), out, Accepted(p.heap, offer, g.pageBytes), At(p', k), r);
    }
    SlotChangeRetained(c, p, k, At(p', k), p'.heap, p'.registry);
  }

  /** Replacing one slot by one that meets its bound keeps all bounds. */
  lemma SlotChangeRetained(c: Config, p: Pool, k: SlotKey, s': Slot, heap': map<nat, Region>,
                           registry': map<nat, set<nat>>)
    requires Retained(c, p) && (k.Bulk? && s'.free.objs == map[] ==> s'.free.cnt == 0)
    requires (k.Bulk? && SizeOf(c, k) == RESIDENT_BULK_MAX) || Bounded(Geo(c, k), s')
    ensures Retained(c, Changed(p, k, s', heap', registry'))
  {
    forall k' | ValidKey(c, k') && !(k'.Bulk? && SizeOf(c, k') == RESIDENT_BULK_MAX)
      ensures Bounded(Geo(c, k'), At(Changed(p, k, s', heap', registry'), k'))
    {
      SetAtReads(p, k, s', k', heap', registry');
    }
  }

  /** Put keeps the whole invariant; a page it releases has nothing outstanding on it. */
  lemma PutStepKeeps(c: Config, p: Pool, out: set<Grant>, gr: Grant, p': Pool)
    requires PoolInv(c, p, out) && gr in out && PutStep(c, p, gr, p')
    ensures PoolInv(c, p', out - {gr})
    ensures Retained(c, p) ==> Retained(c, p')
    ensures forall h :: h in out - {gr} ==> h.page in p'.heap
  {
    var k := gr.key;
    GeoFacts(c, k);
    PutIndices(c, p, gr, p');
    if Oversized(c, k) {
      assert k.idx !in p.bulkFree;
      DirectPutKeeps(c, p, out, gr, Geo(c, k), p');
      if Retained(c, p) {
        SlotChangeRetained(c, p, k, Slot(At(p, k).pages - {gr.page}, At(p, k).free), p'.heap, p'.registry);
      }
    } else {
      var freed :| SlotPut(Geo(c, k), p, gr, p', freed);
      SlotPutKeeps(c, p, out, gr, Geo(c, k), p', freed);
      if Retained(c, p) { PutRetained(c, p, out, gr, p', freed); }
    }
    GrantPages(c, p', out - {gr});
  }

  lemma PutRetained(c: Config, p: Pool, out: set<Grant>, gr: Grant, p': Pool, freed: Option<nat>)
    requires PoolInv(c, p, out) && Retained(c, p) && gr in out && SlotPut(Geo(c, gr.key), p, gr, p', freed)
    ensures Retained(c, p')
  {
    var k := gr.key;
    var g := Geo(c, k);
    GeoFacts(c, k);
    assert SlotOk(g, p, k, out);
    PutEmptyCounts(g, k, At(p, k), out, gr, At(p', k), freed);
    if Bounded(g, At(p, k)) {
      PutBounded(g, k, At(p, k), out, gr, At(p', k), freed);
    }
    SlotChangeRetained(c, p, k, At(p', k), p'.heap, p'.registry);
  }

  // Runs.

  datatype Snapshot = Snapshot(pool: Pool, out: set<Grant>)

  /** What the constructor leaves: the slots of the thresholds, no pages, and a tiny counter of any value. */
  ghost predicate Init(c: Config, s: Snapshot) {
    && s.out == {} && s.pool.heap == map[]
    && s.pool.tiny.pages == {} && s.pool.tiny.free.objs == map[]
    && FreshSlots(s.pool.smallPages, s.pool.smallFree) && FreshSlots(s.pool.bigPages, s.pool.bigFree)
    && (forall i :: ValidKey(c, Small(i)) ==> i in s.pool.smallFree)
    && (forall i :: ValidKey(c, Big(i)) ==> i in s.pool.bigFree)
    && s.pool.bulkPages == map[] && s.pool.bulkFree == map[] && s.pool.bulkOrder == map[] && s.pool.registry == map[]
  }

  ghost predicate FreshSlots(pages: map<nat, set<nat>>, free: map<nat, FreeList>) {
    && pages.Keys == free.Keys
    && forall i :: i in free ==> pages[i] == {} && free[i] == NO_FREE
  }

  /** A Get that does not take the last object of a slot other than the exact one. */
  ghost predicate Got(c: Config, s: Snapshot, size: uint32, offer: nat, r: Option<Grant>, s': Snapshot) {
    && ValidConfig(c) && Request(c, size) && !Drains(c, s.pool, size)
    && GetStep(c, s.pool, size, offer, s'.pool, r) && s'.out == Extend(s.out, r)
  }

  ghost predicate Gave(c: Config, s: Snapshot, gr: Grant, s': Snapshot) {
    gr in s.out && PutStep(c, s.pool, gr, s'.pool) && s'.out == s.out - {gr}
  }

  ghost predicate Step(c: Config, s: Snapshot, s': Snapshot) {
    (exists size, offer, r :: Got(c, s, size, offer, r, s')) || (exists gr :: Gave(c, s, gr, s'))
  }

  /** Any sequence of requests that drain no other slot, each object returned at most once and only while its return
      is defined, with any allocator behaviour. */
  ghost predicate IsRun(c: Config, run: seq<Snapshot>) {
    |run| > 0 && Init(c, run[0]) && forall i :: 0 <= i < |run| - 1 ==> Step(c, run[i], run[i + 1])
  }

  // Which bulk slots a run uses.

  /** Free and outstanding bulk objects are of slots in the set. */
  ghost predicate BulkWithin(s: Snapshot, slots: iset<nat>) {
    && (forall i :: i in s.pool.bulkFree ==> i in slots)
    && (forall gr :: gr in s.out && gr.key.Bulk? ==> gr.key.idx in slots)
  }

  lemma GotWithin(c: Config, s: Snapshot, size: uint32, offer: nat, r: Option<Grant>, s': Snapshot, slots: iset<nat>)
    requires PoolInv(c, s.pool, s.out) && Got(c, s, size, offer, r, s') && BulkWithin(s, slots)
    requires PageExponentOk(c) && (BulkSize(c, size) ==> BulkNeed(c, size) in slots)
    ensures BulkWithin(s', slots)
  {
    hide GetStep, Drains, SlotsOk, HeapOk, Geo, SizeOf, ValidConfig, BulkNeed, BulkSize;
    var k := ServingSlot(c, s.pool, size, offer, s'.pool, r);
  }

  lemma GaveWithin(c: Config, s: Snapshot, gr: Grant, s': Snapshot, slots: iset<nat>)
    requires Gave(c, s, gr, s') && BulkWithin(s, slots)
    ensures BulkWithin(s', slots)
  {
    hide Geo, PutRel, SizeOf, SetAt, At, RegistryErased;
    var p, p', k := s.pool, s'.pool, gr.key;
    if Oversized(c, k) {
      ListedWithin(p, k, Slot(At(p, k).pages - {gr.page}, At(p, k).free), p'.heap, p'.registry);
    } else {
      var freed :| SlotPut(Geo(c, k), p, gr, p', freed);
      ListedWithin(p, k, At(p', k), p'.heap, p'.registry);
    }
  }

  /** Replacing one slot lists at most that slot. */
  lemma ListedWithin(p: Pool, k: SlotKey, s': Slot, heap: map<nat, Region>, registry: map<nat, set<nat>>)
    ensures forall i :: i in Changed(p, k, s', heap, registry).bulkFree ==> i in p.bulkFree || k == Bulk(i)
  {
  }

  lemma InitInv(c: Config, s: Snapshot)
    requires ValidConfig(c) && Init(c, s)
    ensures PoolInv(c, s.pool, s.out) && Retained(c, s.pool)
  {
  }

  lemma StepKeeps(c: Config, s: Snapshot, s': Snapshot)
    requires PoolInv(c, s.pool, s.out) && Retained(c, s.pool) && Step(c, s, s')
    ensures PoolInv(c, s'.pool, s'.out) && Retained(c, s'.pool)
  {
    if size, offer, r :| Got(c, s, size, offer, r, s') {
      GetStepKeeps(c, s.pool, s.out, size, offer, s'.pool, r);
    } else {
      var gr :| Gave(c, s, gr, s');
      PutStepKeeps(c, s.pool, s.out, gr, s'.pool);
    }
  }

  /** Safety and retention over every run. */
  lemma {:induction false} RunKeeps(c: Config, run: seq<Snapshot>, i: nat)
    requires ValidConfig(c) && IsRun(c, run) && i < |run|
    ensures PoolInv(c, run[i].pool, run[i].out) && Retained(c, run[i].pool)
  {
    if i == 0 {
      InitInv(c, run[0]);
    } else {
      RunKeeps(c, run, i - 1);
      assert Step(c, run[i - 1], run[i - 1 + 1]);
      StepKeeps(c, run[i - 1], run[i]);
    }
  }

  /** In every run the two bulk indices list the same slots under their own index, no listed slot is empty or above
      the reserve limit, and each counter is exact. */
  lemma BulkIndicesAgree(c: Config, run: seq<Snapshot>, i: nat)
    requires ValidConfig(c) && IsRun(c, run) && i < |run|
    ensures var p := run[i].pool;
      && p.bulkOrder.Keys == p.bulkFree.Keys
      && forall j :: j in p.bulkFree ==>
           p.bulkOrder[j] == j && p.bulkFree[j].objs != map[] && SizeOf(c, Bulk(j)) <= RESIDENT_BULK_MAX
           && p.bulkFree[j].cnt == Total(p.bulkFree[j].objs)
  {
    RunKeeps(c, run, i);
    var p := run[i].pool;
    forall j | j in p.bulkFree
      ensures p.bulkFree[j].cnt == Total(p.bulkFree[j].objs)
    {
      assert SlotOk(Geo(c, Bulk(j)), p, Bulk(j), run[i].out);
      var q :| q in p.bulkFree[j].objs;
      assert q in At(p, Bulk(j)).pages;
    }
  }

  /** At every point of every run, two objects in clients' hands never share a byte, and each lies inside a page
      that has not been released. */
  lemma OutstandingApart(c: Config, run: seq<Snapshot>, i: nat, a: Grant, b: Grant)
    requires ValidConfig(c) && IsRun(c, run) && i < |run| && a in run[i].out && b in run[i].out
    ensures SizeOf(c, a.key) >= 0 && SizeOf(c, b.key) >= 0
    ensures a != b ==> Apart(a.obj, SizeOf(c, a.key), b.obj, SizeOf(c, b.key))
    ensures var heap := run[i].pool.heap;
            a.page in heap && a.page <= a.obj && a.obj + SizeOf(c, a.key) <= a.page + heap[a.page].bytes
  {
    RunKeeps(c, run, i);
    var p, out := run[i].pool, run[i].out;
    GeoFacts(c, a.key);
    GeoFacts(c, b.key);
    assert SlotOk(Geo(c, a.key), p, a.key, out) && SlotOk(Geo(c, b.key), p, b.key, out);
    var ia := GrantInside(Geo(c, a.key), p, out, a);
    var ib := GrantInside(Geo(c, b.key), p, out, b);
    if a.page == b.page {
      SamePageApart(SizeOf(c, a.key), a.page, ia, ib);
    } else {
      assert Apart(a.page, p.heap[a.page].bytes, b.page, p.heap[b.page].bytes);
    }
  }

  lemma SamePageApart(size: nat, page: nat, i: nat, j: nat)
    requires 0 < size
    ensures i != j ==> Apart(ObjAt(size, page, i), size, ObjAt(size, page, j), size)
  {
    if i < j { PieceOrder(size, page, i, j); }
    if j < i { PieceOrder(size, page, j, i); }
  }

  /** An outstanding object is one of the pieces of its page, and lies inside it. */
  lemma GrantInside(g: Geometry, p: Pool, out: set<Grant>, gr: Grant) returns (i: nat)
    requires Sound(g) && SlotOk(g, p, gr.key, out) && gr in out
    ensures gr.obj == ObjAt(g.slotSize, gr.page, i)
    ensures gr.page in p.heap && p.heap[gr.page].owner == gr.key
    ensures gr.page <= gr.obj && gr.obj + g.slotSize <= gr.page + p.heap[gr.page].bytes
  {
    i := PieceOf(g, gr.key, At(p, gr.key), out, gr);
    PieceInside(g.slotSize, gr.page, i, g.pageBytes);
  }

  lemma PieceOf(g: Geometry, key: SlotKey, s: Slot, out: set<Grant>, gr: Grant) returns (i: nat)
    requires SlotInv(g, key, s, out) && gr in out && gr.key == key
    ensures i < PerPage(g) && gr.obj == ObjAt(g.slotSize, gr.page, i)
  {
    assert PageSplit(g, key, gr.page, ListOf(s.free.objs, gr.page), out);
    i :| i < PerPage(g) && gr.obj == ObjAt(g.slotSize, gr.page, i);
  }

  lemma PieceInside(size: nat, page: nat, i: nat, bytes: nat)
    requires 0 < size && i < Div(bytes, size)
    ensures page <= ObjAt(size, page, i) && ObjAt(size, page, i) + size <= page + bytes
  {
    MulLe(size, i + 1, bytes / size);
    MulLe(size, 0, i);
  }

  /** Whenever nothing of a slot is outstanding, whatever else is, the slot keeps fewer than its resident count plus
      one page of objects: every slot but the bulk slot of exactly the reserve limit. */
  lemma AllReturned(c: Config, run: seq<Snapshot>, i: nat, k: SlotKey)
    requires ValidConfig(c) && IsRun(c, run) && i < |run| && ValidKey(c, k)
    requires forall gr :: gr in run[i].out ==> gr.key != k
    requires !(k.Bulk? && SizeOf(c, k) == RESIDENT_BULK_MAX)
    ensures Total(At(run[i].pool, k).free.objs) < Geo(c, k).resident + PerPage(Geo(c, k))
  {
    RunKeeps(c, run, i);
    GeoFacts(c, k);
    assert SlotOk(Geo(c, k), run[i].pool, k, run[i].out);
    assert Bounded(Geo(c, k), At(run[i].pool, k));
    AllReturnedBound(Geo(c, k), k, At(run[i].pool, k), run[i].out);
  }
}
