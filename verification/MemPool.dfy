/** The pool as a class: four families of containers updated in place, and recycled MemObject wrappers. */
module MemPool {
  import opened Words
  import opened SlotMath
  import opened FreeLists
  import opened SlotPages
  import opened PoolState
  import opened PoolRuns
  import opened PoolEffects

  datatype MemObjectType = TinyObject | SmallObject | BigObject | BulkObject

  /** The record a client holds: where its memory is and which slot it returns to. */
  class MemObject {
    var objType: MemObjectType
    var slotSize: uint32
    var objPv: nat
    var objPagePv: nat

    constructor (objType: MemObjectType, slotSize: uint32, objPv: nat, objPagePv: nat)
      ensures Holds(objType, slotSize, objPv, objPagePv)
    {
      this.objType, this.slotSize, this.objPv, this.objPagePv := objType, slotSize, objPv, objPagePv;
    }

    method Refresh(objType: MemObjectType, slotSize: uint32, objPv: nat, objPagePv: nat)
      modifies this
      ensures Holds(objType, slotSize, objPv, objPagePv)
    {
      this.objType, this.slotSize, this.objPv, this.objPagePv := objType, slotSize, objPv, objPagePv;
    }

    predicate Holds(objType: MemObjectType, slotSize: uint32, objPv: nat, objPagePv: nat)
      reads this
    {
      this.objType == objType && this.slotSize == slotSize && this.objPv == objPv && this.objPagePv == objPagePv
    }
  }

  function TypeOf(k: SlotKey): MemObjectType {
    match k
    case Tiny => TinyObject
    case Small(_) => SmallObject
    case Big(_) => BigObject
    case Bulk(_) => BulkObject
  }

  /** The slot Put finds from the type and size stored in a MemObject. */
  function KeyOf(pageSize: uint32, objType: MemObjectType, slotSize: uint32): SlotKey
    requires 0 < pageSize
  {
    match objType
    case TinyObject => Tiny
    case SmallObject => Small(SlotIdx(slotSize, SMALL_FOOTSTEP))
    case BigObject => Big(SlotIdx(slotSize, pageSize))
    case BulkObject => Bulk(SlotIdx(slotSize, pageSize))
  }

  /** The size stored at Get leads Put back to the slot the object came from. */
  lemma KeyRoundTrip(c: Config, k: SlotKey)
    requires ValidConfig(c) && ValidKey(c, k)
    ensures WordSize(c, k) && KeyOf(c.pageSize, TypeOf(k), SizeOf(c, k)) == k
  {
    SizeInRange(c, k);
    if k.Big? || k.Bulk? {
      QuotientUnique(c.pageSize * k.idx, c.pageSize, k.idx, 0);
    }
  }

  // Container helpers, with the containers passed in and out.

  /** split_mem_page. */
  method SplitMemPage(slotSize: uint32, pagePv: nat, pageSize: uint32) returns (res: seq<nat>)
    requires 0 < slotSize
    ensures res == Pieces(slotSize, pagePv, Div(pageSize, slotSize))
  {
    res := [];
    var cnt := Div(pageSize, slotSize);
    for i := 0 to cnt
      invariant res == Pieces(slotSize, pagePv, i)
    {
      res := res + [ObjAt(slotSize, pagePv, i)];
    }
  }

  /** get_free_obj_from_slot_page: the first object of whichever page the map yields first; zeros if there is none. */
  method GetFreeObjFromSlotPage(pages: map<nat, seq<nat>>)
    returns (pages': map<nat, seq<nat>>, slotPagePv: nat, objPv: nat)
    requires forall p :: p in pages ==> pages[p] != []
    ensures pages == map[] ==> slotPagePv == 0 && objPv == 0 && pages' == pages
    ensures pages != map[] ==>
              slotPagePv in pages && objPv == pages[slotPagePv][0] && pages' == TakenFrom(pages, slotPagePv)
  {
    pages', slotPagePv, objPv := pages, 0, 0;
    if pages != map[] {
      slotPagePv :| slotPagePv in pages;
      objPv := pages[slotPagePv][0];
      pages' := pages[slotPagePv := pages[slotPagePv][1..]];
      if pages'[slotPagePv] == [] {
        pages' := pages' - {slotPagePv};
        assert pages' == pages - {slotPagePv};
      }
    }
  }

  /** No page entry is empty and no free object has address zero. */
  ghost predicate Takeable(objs: map<nat, seq<nat>>) {
    forall q :: q in objs ==> objs[q] != [] && 0 < objs[q][0]
  }

  /** The second half of every Get: take a free object if the slot has one. */
  method TakeFromSlot(slot: Slot, key: SlotKey) returns (slot': Slot, r: Option<Grant>)
    requires Takeable(slot.free.objs)
    ensures slot.free.objs == map[] ==> r == None && slot' == slot
    ensures slot.free.objs != map[] ==> TakeRel(key, slot, slot', r)
  {
    var objs, slotPagePv, objPv := GetFreeObjFromSlotPage(slot.free.objs);
    slot', r := slot, None;
    if objPv != 0 {
      slot' := slot.(free := FreeList(objs, slot.free.cnt - 1));
      r := Some(Grant(key, objPv, slotPagePv));
    }
  }

  /** The release loop of put: walk the pages until one is entirely free. */
  method FindFullPage(objs: map<nat, seq<nat>>, onePageObjsCnt: nat) returns (full: Option<nat>)
    ensures full.Some? ==> full.value in objs && |objs[full.value]| == onePageObjsCnt
    ensures full == None ==> forall p :: p in objs ==> |objs[p]| != onePageObjsCnt
  {
    var rest := objs.Keys;
    while rest != {}
      invariant rest <= objs.Keys
      invariant forall p :: p in objs && p !in rest ==> |objs[p]| != onePageObjsCnt
      decreases rest
    {
      var p :| p in rest;
      if |objs[p]| == onePageObjsCnt {
        return Some(p);
      }
      rest := rest - {p};
    }
    full := None;
  }

  /** put on a free list: return the object, then release an entirely free page once past the high-water mark. */
  method PutOnFreeList(free: FreeList, objPv: nat, objPagePv: nat, onePageObjsCnt: nat, resident: nat,
                       ghost g: Geometry, ghost gr: Grant, ghost pages: set<nat>)
    returns (free': FreeList, freePtr: Option<nat>)
    requires g.fullCnt == onePageObjsCnt && g.resident == resident && gr.obj == objPv && gr.page == objPagePv
    ensures PutRel(g, Slot(pages, free), gr, Slot(if freePtr.Some? then pages - {freePtr.value} else pages, free'),
                   freePtr)
    ensures free.cnt + 1 < resident + onePageObjsCnt ==>
              && freePtr == None && free'.cnt == free.cnt + 1
              && free'.objs == free.objs[objPagePv := ListOf(free.objs, objPagePv) + [objPv]]
    ensures freePtr.Some? ==> free'.cnt == free.cnt + 1 - onePageObjsCnt >= resident && freePtr.value !in free'.objs
  {
    freePtr := None;
    var objs, cnt := free.objs, free.cnt;
    if objPagePv !in objs {
      objs := objs[objPagePv := []];
    }
    objs := objs[objPagePv := objs[objPagePv] + [objPv]];
    cnt := cnt + 1;
    ghost var pushed := Slot(pages, FreeList(objs, cnt));
    assert pushed == Pushed(Slot(pages, free), objPagePv, objPv);
    if cnt >= resident + onePageObjsCnt {
      freePtr := FindFullPage(objs, onePageObjsCnt);
      if freePtr.Some? {
        assert IsFull(g, pushed, freePtr.value);
        objs := objs - {freePtr.value};
        cnt := cnt - onePageObjsCnt;
      }
    }
    free' := FreeList(objs, cnt);
  }

  // get_suitable_bulk_page on the key sets of the two indices.

  method MaxOf(s: set<nat>) returns (m: nat)
    requires s != {}
    ensures m in s && forall x :: x in s ==> x <= m
  {
    m :| m in s;
    var rest := s - {m};
    while rest != {}
      invariant m in s && rest <= s
      invariant forall x :: x in s && x !in rest ==> x <= m
      decreases rest
    {
      var x :| x in rest;
      if m < x { m := x; }
      rest := rest - {x};
    }
  }

  method MinOf(s: set<nat>) returns (m: nat)
    requires s != {}
    ensures m in s && forall x :: x in s ==> m <= x
  {
    m :| m in s;
    var rest := s - {m};
    while rest != {}
      invariant m in s && rest <= s
      invariant forall x :: x in s && x !in rest ==> m <= x
      decreases rest
    {
      var x :| x in rest;
      if x < m { m := x; }
      rest := rest - {x};
    }
  }

  /** The slot get_suitable_bulk_page settles on: exact match in the hash index first, then the ordered index from
      its smallest key or from its largest key downwards. */
  method FindSuitableSlot(hash: set<nat>, ordered: set<nat>, needSlotIdx: nat) returns (found: Option<nat>)
    ensures Suitable(hash, ordered, needSlotIdx, found)
    ensures needSlotIdx in hash ==> found == Some(needSlotIdx)
    ensures needSlotIdx !in hash && (exists i :: i in ordered && i <= needSlotIdx)
            && (exists i :: i in ordered && needSlotIdx < i <= 2 * needSlotIdx) ==>
              && found.Some? && found.value in ordered && needSlotIdx < found.value <= 2 * needSlotIdx
              && forall i :: i in ordered && needSlotIdx < i <= 2 * needSlotIdx ==> i <= found.value
    ensures needSlotIdx !in hash && (forall i :: i in ordered ==> needSlotIdx < i)
            && (exists i :: i in ordered && i <= 2 * needSlotIdx) ==>
              found.Some? && found.value in ordered && forall i :: i in ordered ==> found.value <= i
  {
    if needSlotIdx in hash {
      return Some(needSlotIdx);
    }
    if ordered == {} {
      return None;
    }
    var maxPageSize := needSlotIdx * 2;
    var last := MaxOf(ordered);
    if last < needSlotIdx {
      return None;
    }
    var first := MinOf(ordered);
    if first > needSlotIdx {
      if first > maxPageSize {
        return None;
      }
      return Some(first);
    }
    var rest := ordered;
    while rest != {}
      invariant rest <= ordered
      invariant forall i :: i in ordered && i !in rest ==> !(needSlotIdx < i <= maxPageSize)
      invariant forall i, j :: i in rest && j in ordered && j !in rest ==> i < j
      decreases rest
    {
      var i := MaxOf(rest);
      if i > needSlotIdx && i <= maxPageSize {
        return Some(i);
      }
      rest := rest - {i};
    }
    return None;
  }

  /** Taking an object leaves none exactly when one was left. */
  lemma LastTaken(s: Slot, s': Slot, key: SlotKey, r: Option<Grant>)
    requires TakeRel(key, s, s', r)
    ensures s'.free.objs == map[] <==> OneLeft(s.free.objs)
  {
    var q, objs := r.value.page, s.free.objs;
    if s'.free.objs == map[] {
      assert objs - {q} == map[];
      assert objs == map[q := objs[q]];
    }
  }

  /** No page entry is empty and no free object has address zero, so the first one may be taken unchecked and
      zero may stand for "none". */
  lemma SlotReady(c: Config, p: Pool, out: set<Grant>, k: SlotKey)
    requires PoolInv(c, p, out) && ValidKey(c, k)
    ensures Takeable(At(p, k).free.objs)
  {
    forall q | q in At(p, k).free.objs
      ensures At(p, k).free.objs[q] != [] && 0 < At(p, k).free.objs[q][0]
    {
      assert SlotOk(Geo(c, k), p, k, out);
      FirstIsPositive(Geo(c, k), k, At(p, k), out, q);
    }
  }

  lemma FirstIsPositive(g: Geometry, k: SlotKey, s: Slot, out: set<Grant>, q: nat)
    requires SlotInv(g, k, s, out) && q in s.free.objs && 0 < q
    ensures s.free.objs[q] != [] && q <= s.free.objs[q][0]
  {
    assert PageSplit(g, k, q, ListOf(s.free.objs, q), out);
    assert IsObjOf(g.slotSize, q, PerPage(g), s.free.objs[q][0]);
  }

  /** What a refill attempt does to the two indices. */
  lemma RefilledIndices(g: Geometry, p: Pool, i: nat, offer: nat, p1: Pool, ok: bool)
    requires i !in p.bulkFree && i !in p.bulkOrder && 0 < PerPage(g)
    requires var slot := At(p, Bulk(i));
      p1 == Changed(p, Bulk(i), if ok then Refilled(g, slot, offer) else slot, p1.heap, p1.registry)
    ensures ok ==> i in p1.bulkFree && p1.bulkFree[i].objs == map[offer := Pieces(g.slotSize, offer, PerPage(g))]
    ensures ok ==> i in p1.bulkOrder && p1.bulkOrder[i] == i && i in p1.bulkPages
    ensures p1.bulkFree.Keys == p.bulkFree.Keys + if ok then {i} else {}
    ensures p1.bulkOrder.Keys == p.bulkOrder.Keys + if ok then {i} else {}
  {
    assert offer in Refilled(g, At(p, Bulk(i)), offer).free.objs;
  }

  lemma FirstPiece(objs: map<nat, seq<nat>>, g: Geometry, page: nat)
    requires objs == map[page := Pieces(g.slotSize, page, PerPage(g))] && 0 < page && 0 < PerPage(g)
    ensures objs != map[] && Takeable(objs)
  {
    assert objs[page][0] == ObjAt(g.slotSize, page, 0);
  }

  /** Taking from a listed bulk slot is a Get that needs no page. */
  lemma TakeIsGet(g: Geometry, p: Pool, out: set<Grant>, i: nat, s': Slot, p': Pool, r: Option<Grant>, offer: nat)
    requires Sound(g) && 0 < PerPage(g) && SlotInv(g, Bulk(i), At(p, Bulk(i)), out) && At(p, Bulk(i)).free.objs != map[]
    requires TakeRel(Bulk(i), At(p, Bulk(i)), s', r) && p' == SetAt(p, Bulk(i), s')
    ensures SlotGet(g, p, Bulk(i), offer, p', r)
  {
    GetEmptyCounts(g, Bulk(i), At(p, Bulk(i)), out, None, s', r);
    SetAtReads(p, Bulk(i), s', Bulk(i), p.heap, p.registry);
  }

  /** Refilling a bulk slot and taking from it is a Get that used the page. */
  lemma RefillTakeIsGet(g: Geometry, p: Pool, out: set<Grant>, i: nat, p1: Pool, s': Slot, p': Pool, r: Option<Grant>,
                        offer: nat)
    requires Sound(g) && 0 < PerPage(g) && SlotInv(g, Bulk(i), At(p, Bulk(i)), out) && At(p, Bulk(i)).free.objs == map[]
    requires Accepts(p.heap, offer, g.pageBytes) && offer !in At(p, Bulk(i)).pages
    requires p1 == Changed(p, Bulk(i), Refilled(g, At(p, Bulk(i)), offer),
                           p.heap[offer := Region(g.pageBytes, Bulk(i))],
                           RegistryRefilled(p.registry, Bulk(i), Some(offer)))
    requires TakeRel(Bulk(i), Refilled(g, At(p, Bulk(i)), offer), s', r) && p' == SetAt(p1, Bulk(i), s')
    ensures SlotGet(g, p, Bulk(i), offer, p', r)
  {
    var s1 := Refilled(g, At(p, Bulk(i)), offer);
    assert offer in s1.free.objs;
    BulkSetTwice(p, i, s1, s', p1.heap, p1.registry);
    assert GetRel(g, Bulk(i), At(p, Bulk(i)), Some(offer), s', r);
    GetEmptyCounts(g, Bulk(i), At(p, Bulk(i)), out, Some(offer), s', r);
    SetAtReads(p, Bulk(i), s', Bulk(i), p1.heap, p1.registry);
  }

  /** Without a page the Get fails and leaves the slot alone, but for its registry entry. */
  lemma NoPageIsGet(g: Geometry, p: Pool, i: nat, p': Pool, offer: nat)
    requires i !in p.bulkFree && !Accepts(p.heap, offer, g.pageBytes)
    requires p' == Changed(p, Bulk(i), At(p, Bulk(i)), p.heap, RegistryRefilled(p.registry, Bulk(i), None))
    ensures SlotGet(g, p, Bulk(i), offer, p', None)
  {
    SetAtReads(p, Bulk(i), At(p, Bulk(i)), Bulk(i), p.heap, p'.registry);
  }

  /** A listed bulk slot has pages on record. */
  lemma ListedHasPages(c: Config, p: Pool, out: set<Grant>, i: nat)
    requires PoolInv(c, p, out) && i in p.bulkFree
    ensures i in p.bulkPages && p.bulkFree[i].objs != map[] && ValidKey(c, Bulk(i))
  {
    assert SlotOk(Geo(c, Bulk(i)), p, Bulk(i), out);
    var q :| q in p.bulkFree[i].objs;
    assert q in At(p, Bulk(i)).pages;
  }

  /** What the bulk branch relies on at the slot it works on. */
  lemma BulkReady(c: Config, p: Pool, out: set<Grant>, i: nat, offer: nat)
    requires PoolInv(c, p, out) && ValidKey(c, Bulk(i))
    ensures WordSize(c, Bulk(i)) && 0 < c.pageSize
    ensures var g := Geo(c, Bulk(i));
            && g == BulkGeo(SizeOf(c, Bulk(i)), c.pageSize, c.bulkResident) && g.slotSize == SizeOf(c, Bulk(i))
            && Sound(g) && 0 < PerPage(g) && SlotInv(g, Bulk(i), At(p, Bulk(i)), out)
            && (Accepts(p.heap, offer, g.pageBytes) ==> offer !in At(p, Bulk(i)).pages)
    ensures Takeable(At(p, Bulk(i)).free.objs)
  {
    GeoFacts(c, Bulk(i));
    SlotReady(c, p, out, Bulk(i));
    assert SlotOk(Geo(c, Bulk(i)), p, Bulk(i), out);
    if Accepts(p.heap, offer, Geo(c, Bulk(i)).pageBytes) {
      AcceptKeepsHeap(c, p.heap, offer, Bulk(i), Geo(c, Bulk(i)).pageBytes);
    }
  }

  lemma BulkIndicesReady(c: Config, p: Pool, out: set<Grant>)
    requires PoolInv(c, p, out)
    ensures p.bulkOrder.Keys == p.bulkFree.Keys
    ensures forall i :: i in p.bulkFree ==> p.bulkOrder[i] == i && ValidKey(c, Bulk(i)) && i in p.bulkPages
                                            && p.bulkFree[i].objs != map[]
  {
    forall i | i in p.bulkFree
      ensures p.bulkOrder[i] == i && ValidKey(c, Bulk(i)) && i in p.bulkPages && p.bulkFree[i].objs != map[]
    {
      ListedHasPages(c, p, out, i);
    }
  }

  lemma AddedValue<K, V>(m: map<K, V>, k: K, v: V)
    requires k !in m
    ensures m[k := v].Values == m.Values + {v}
  {
    assert m[k := v][k] == v;
    forall x | x in m.Values
      ensures x in m[k := v].Values
    {
      var j :| j in m && m[j] == x;
      assert m[k := v][j] == x;
    }
  }

  lemma RemovedValue<K, V>(m: map<K, V>, k: K)
    requires k in m && forall i, j :: i in m && j in m && i != j ==> m[i] != m[j]
    ensures (m - {k}).Values == m.Values - {m[k]}
  {
    forall x | x in m.Values && x != m[k]
      ensures x in (m - {k}).Values
    {
      var j :| j in m && m[j] == x;
      assert (m - {k})[j] == x;
    }
  }

  /** The page a Put releases is live, so it is freed once. */
  lemma FreedIsLive(c: Config, p: Pool, out: set<Grant>, gr: Grant, s': Slot, freed: Option<nat>)
    requires PoolInv(c, p, out) && gr in out && PutRel(Geo(c, gr.key), At(p, gr.key), gr, s', freed)
    ensures freed.Some? ==> freed.value in p.heap
  {
    GeoFacts(c, gr.key);
    var g := Geo(c, gr.key);
    assert SlotOk(g, p, gr.key, out);
    PutEmptyCounts(g, gr.key, At(p, gr.key), out, gr, s', freed);
  }

  /** An exact counter of zero means an empty record, so erasing it loses nothing. */
  lemma CountZeroEmpty(c: Config, p: Pool, out: set<Grant>, gr: Grant, s': Slot, freed: Option<nat>)
    requires PoolInv(c, p, out) && gr in out && PutRel(Geo(c, gr.key), At(p, gr.key), gr, s', freed)
    ensures s'.free.objs == map[] <==> s'.free.cnt == 0
  {
    GeoFacts(c, gr.key);
    var g := Geo(c, gr.key);
    assert SlotOk(g, p, gr.key, out);
    PutEmptyCounts(g, gr.key, At(p, gr.key), out, gr, s', freed);
    PutKeeps(g, gr.key, At(p, gr.key), out, gr, s', freed);
    if s'.free.objs != map[] {
      var q :| q in s'.free.objs;
      TotalPositive(s'.free.objs, q);
    }
  }

  /** Starting a record with an empty list for the page makes no difference to the push. */
  lemma EmptyEntry(g: Geometry, pages: set<nat>, gr: Grant, s': Slot, freed: Option<nat>)
    requires PutRel(g, Slot(pages, FreeList(map[gr.page := []], 0)), gr, s', freed)
    ensures PutRel(g, Slot(pages, NO_FREE), gr, s', freed)
  {
    assert Pushed(Slot(pages, FreeList(map[gr.page := []], 0)), gr.page, gr.obj)
           == Pushed(Slot(pages, NO_FREE), gr.page, gr.obj);
  }

  /** Put's full-page test on a bulk slot it may keep. */
  lemma KeptFullCnt(c: Config, k: SlotKey)
    requires ValidConfig(c) && ValidKey(c, k) && k.Bulk? && !Oversized(c, k)
    ensures WordSize(c, k) && Geo(c, k).resident == c.bulkResident
    ensures Geo(c, k).fullCnt == Div(ExpandSize(SizeOf(c, k), BULK_EXPAND_FACTOR, c.pageSize), SizeOf(c, k))
  {
    GeoFacts(c, k);
  }

  /** A Put whose slot ends as s' is the pool's Put. */
  lemma PutOnSlotIsPut(c: Config, p: Pool, out: set<Grant>, gr: Grant, s': Slot, p': Pool, freed: Option<nat>)
    requires PoolInv(c, p, out) && gr in out && !Oversized(c, gr.key)
    requires PutRel(Geo(c, gr.key), At(p, gr.key), gr, s', freed)
    requires p' == Changed(p, gr.key, s', if freed.Some? then p.heap - {freed.value} else p.heap,
                           RegistryErased(p.registry, gr.key, freed))
    ensures PutStep(c, p, gr, p')
  {
    GeoFacts(c, gr.key);
    var g := Geo(c, gr.key);
    assert SlotOk(g, p, gr.key, out);
    PutEmptyCounts(g, gr.key, At(p, gr.key), out, gr, s', freed);
    SetAtReads(p, gr.key, s', gr.key, p'.heap, p'.registry);
    assert SlotPut(g, p, gr, p', freed);
  }

  /** A slot above the limit is in neither index, so its put leaves them alone. */
  lemma DirectPutIs(c: Config, p: Pool, gr: Grant, p': Pool)
    requires IndicesOk(c, p) && Oversized(c, gr.key) && gr.key.idx in p.registry
    requires p' == p.(bulkPages := p.bulkPages[gr.key.idx := At(p, gr.key).pages - {gr.page}],
                      heap := p.heap - {gr.page}, registry := RegistryDropped(p.registry, gr.key.idx, gr.page))
    ensures PutStep(c, p, gr, p')
  {
    var i := gr.key.idx;
    assert i !in p.bulkFree && i !in p.bulkOrder;
    assert p.bulkFree - {i} == p.bulkFree && p.bulkOrder - {i} == p.bulkOrder;
  }

  /** Both indices after a refill that got a page, and after one that did not. */
  lemma ListedRefill(p: Pool, i: nat, g: Geometry, offer: nat, p': Pool)
    requires At(p, Bulk(i)).free == NO_FREE
    requires var pages := At(p, Bulk(i)).pages;
      var free := FreeList(map[offer := Pieces(g.slotSize, offer, PerPage(g))], PerPage(g));
      p' == p.(bulkPages := p.bulkPages[i := pages + {offer}], bulkFree := p.bulkFree[i := NO_FREE][i := free],
               bulkOrder := p.bulkOrder[i := i], heap := p'.heap, registry := p'.registry)
    ensures p' == Changed(p, Bulk(i), Refilled(g, At(p, Bulk(i)), offer), p'.heap, p'.registry)
  {
    var s' := Refilled(g, At(p, Bulk(i)), offer);
    assert offer in s'.free.objs;
    ListedTwice(p.bulkFree, i, NO_FREE, s'.free, true, true);
  }

  lemma UnlistedRefill(p: Pool, i: nat, p': Pool)
    requires At(p, Bulk(i)).free == NO_FREE
    requires p' == p.(bulkPages := p.bulkPages[i := At(p, Bulk(i)).pages], bulkFree := p.bulkFree[i := NO_FREE] - {i},
                      bulkOrder := p.bulkOrder[i := i] - {i}, heap := p'.heap, registry := p'.registry)
    ensures p' == Changed(p, Bulk(i), At(p, Bulk(i)), p'.heap, p'.registry)
  {
    ListedTwice(p.bulkFree, i, NO_FREE, NO_FREE, true, false);
    ListedTwice(p.bulkOrder, i, i, i, true, false);
  }

  /** One loop of the constructor: empty slots 1 to count. */
  method CreateSlots(count: nat) returns (pages: map<nat, set<nat>>, free: map<nat, FreeList>)
    ensures FreshSlots(pages, free) && forall j: nat :: j in free <==> 1 <= j <= count
  {
    pages, free := map[], map[];
    for i := 1 to count + 1
      invariant FreshSlots(pages, free) && forall j: nat :: j in free <==> 1 <= j < i
    {
      free := free[i := NO_FREE];
      pages := pages[i := {}];
    }
  }

  class MemPool {
    const c: Config

    var tinyPages: set<nat>
    var tinyFree: map<nat, seq<nat>>
    var tinyCnt: int
    var smallPages: map<nat, set<nat>>
    var smallFree: map<nat, FreeList>
    var bigPages: map<nat, set<nat>>
    var bigFree: map<nat, FreeList>
    var bulkHash: map<nat, FreeList>
    var bulkOrder: map<nat, nat>
    /** The pages of each bulk slot that were not released, and m_bulk_obj_pages. */
    ghost var bulkPages: map<nat, set<nat>>
    var bulkObjPages: map<nat, set<nat>>
    /** The live regions of the system allocator. */
    var heap: map<nat, Region>

    var freeMemObjs: seq<MemObject>
    /** The wrappers in clients' hands and what each stands for. */
    ghost var held: map<MemObject, Grant>

    ghost function View(): Pool
      reads `tinyPages, `tinyFree, `tinyCnt, `smallPages, `smallFree, `bigPages, `bigFree,
            `bulkPages, `bulkHash, `bulkOrder, `heap, `bulkObjPages
    {
      Pool(Slot(tinyPages, FreeList(tinyFree, tinyCnt)), smallPages, smallFree, bigPages, bigFree,
           bulkPages, bulkHash, bulkOrder, heap, bulkObjPages)
    }

    ghost predicate Valid()
      reads this, held.Keys, freeMemObjs
    {
      PoolInv(c, View(), held.Values) && Retained(c, View()) && WrappersOk()
    }

    /** Held wrappers stand for different objects and record them; recycled wrappers are nobody's and all different. */
    ghost predicate WrappersOk()
      reads `held, `freeMemObjs, held.Keys, freeMemObjs
    {
      && (forall m, m' :: m in held && m' in held && m != m' ==> held[m] != held[m'])
      && (forall m :: m in held ==> Records(m, held[m]))
      && (forall i, j :: 0 <= i < j < |freeMemObjs| ==> freeMemObjs[i] != freeMemObjs[j])
      && (forall m :: m in freeMemObjs ==> m !in held)
    }

    /** A wrapper says truthfully what its client holds. */
    ghost predicate Records(m: MemObject, gr: Grant)
      reads m
    {
      WordSize(c, gr.key) && m.Holds(TypeOf(gr.key), SizeOf(c, gr.key), gr.obj, gr.page)
    }

    constructor (c: Config, tinyCnt: int)
      requires ValidConfig(c)
      ensures Valid() && this.c == c && held == map[] && Init(c, Snapshot(View(), {}))
    {
      this.c := c;
      tinyPages, tinyFree, this.tinyCnt := {}, map[], tinyCnt;
      bulkPages, bulkHash, bulkOrder, heap, bulkObjPages := map[], map[], map[], map[], map[];
      freeMemObjs, held := [], map[];
      var pages, free := CreateSlots(Div(c.bigThreshold, SMALL_FOOTSTEP));
      smallPages, smallFree := pages, free;
      PageFacts(c);
      pages, free := CreateSlots(Div(c.bulkThreshold, c.pageSize));
      bigPages, bigFree := pages, free;
      new;
      forall i: nat | ValidKey(c, Big(i))
        ensures i in bigFree
      {
        QuotientAtLeast(c.bulkThreshold, c.pageSize, i);
      }
      InitInv(c, Snapshot(View(), {}));
      assert held.Values == {};
    }

    /** posix_memalign: null, or some address apart from everything live. */
    method PosixMemAlign(bytes: nat, key: SlotKey, offer: nat) returns (pagePv: nat)
      modifies `heap
      ensures Accepts(old(heap), offer, bytes) ==> pagePv == offer && heap == old(heap)[offer := Region(bytes, key)]
      ensures !Accepts(old(heap), offer, bytes) ==> pagePv == 0 && heap == old(heap)
    {
      pagePv := 0;
      if Accepts(heap, offer, bytes) {
        pagePv := offer;
        heap := heap[offer := Region(bytes, key)];
      }
    }

    /** free: only a live region may be freed. */
    method Free(pagePv: nat)
      requires pagePv in heap
      modifies `heap
      ensures heap == old(heap) - {pagePv}
    {
      heap := heap - {pagePv};
    }

    /** alloc_page_objs. */
    method AllocPageObjs(size: uint32, slotSize: uint32, key: SlotKey, pages: set<nat>, freeObjs: map<nat, seq<nat>>,
                         offer: nat)
      returns (ok: bool, pages': set<nat>, freeObjs': map<nat, seq<nat>>)
      requires 0 < slotSize
      modifies `heap
      ensures ok == Accepts(old(heap), offer, size)
      ensures ok ==> pages' == pages + {offer}
      ensures ok ==> freeObjs' == freeObjs[offer := Pieces(slotSize, offer, Div(size, slotSize))]
      ensures ok ==> heap == old(heap)[offer := Region(size, key)]
      ensures !ok ==> pages' == pages && freeObjs' == freeObjs && heap == old(heap)
    {
      pages', freeObjs' := pages, freeObjs;
      var objP := PosixMemAlign(size, key, offer);
      ok := objP != 0;
      if ok {
        pages' := pages + {objP};
        var splitObjs := SplitMemPage(slotSize, objP, size);
        freeObjs' := freeObjs[objP := splitObjs];
      }
    }

    /** Get on one slot: refill it when it has no free object, then take one. */
    method GetOnSlot(slot: Slot, expandPageSize: uint32, slotSize: uint32, key: SlotKey, offer: nat, ghost g: Geometry)
      returns (slot': Slot, r: Option<Grant>)
      requires 0 < slotSize && g.slotSize == slotSize && g.pageBytes == expandPageSize && 0 < PerPage(g)
      requires Takeable(slot.free.objs)
      modifies `heap
      ensures GetRel(g, key, slot, Accepted(old(heap), offer, expandPageSize), slot', r)
      ensures heap == if slot.free.objs == map[] && Accepts(old(heap), offer, expandPageSize)
                      then old(heap)[offer := Region(expandPageSize, key)] else old(heap)
    {
      var refilled := slot;
      if slot.free.objs == map[] {
        var ok, pages, objs := AllocPageObjs(expandPageSize, slotSize, key, slot.pages, slot.free.objs, offer);
        if ok {
          refilled := Slot(pages, FreeList(objs, Div(expandPageSize, slotSize)));
          assert refilled == Refilled(g, slot, offer);
          assert refilled.free.objs[offer][0] == ObjAt(slotSize, offer, 0);
        }
      }
      slot', r := TakeFromSlot(refilled, key);
    }

    /** The tiny branch of Get. */
    method GetTiny(offer: nat) returns (r: Option<Grant>)
      requires PoolInv(c, View(), held.Values)
      modifies `tinyPages, `tinyFree, `tinyCnt, `heap
      ensures SlotGet(Geo(c, Tiny), old(View()), Tiny, offer, View(), r)
    {
      GeoFacts(c, Tiny);
      SlotReady(c, View(), held.Values, Tiny);
      var slot;
      slot, r := GetOnSlot(Slot(tinyPages, FreeList(tinyFree, tinyCnt)), c.pageSize, c.tinyThreshold, Tiny, offer,
                           Geo(c, Tiny));
      tinyPages, tinyFree, tinyCnt := slot.pages, slot.free.objs, slot.free.cnt;
    }

    method GetSmall(slotIdx: nat, slotSize: uint32, offer: nat) returns (r: Option<Grant>)
      requires PoolInv(c, View(), held.Values) && ValidKey(c, Small(slotIdx)) && slotSize == SizeOf(c, Small(slotIdx))
      modifies `smallPages, `smallFree, `heap
      ensures SlotGet(Geo(c, Small(slotIdx)), old(View()), Small(slotIdx), offer, View(), r)
    {
      GeoFacts(c, Small(slotIdx));
      SlotReady(c, View(), held.Values, Small(slotIdx));
      var expandPageSize := GenExpandSlotPageSize(slotSize, EXPAND_FACTOR, c.pageSize);
      var slot;
      slot, r := GetOnSlot(Slot(smallPages[slotIdx], smallFree[slotIdx]), expandPageSize, slotSize, Small(slotIdx),
                           offer, Geo(c, Small(slotIdx)));
      smallPages, smallFree := smallPages[slotIdx := slot.pages], smallFree[slotIdx := slot.free];
    }

    method GetBig(slotIdx: nat, slotSize: uint32, offer: nat) returns (r: Option<Grant>)
      requires PoolInv(c, View(), held.Values) && ValidKey(c, Big(slotIdx)) && slotSize == SizeOf(c, Big(slotIdx))
      modifies `bigPages, `bigFree, `heap
      ensures SlotGet(Geo(c, Big(slotIdx)), old(View()), Big(slotIdx), offer, View(), r)
    {
      GeoFacts(c, Big(slotIdx));
      SlotReady(c, View(), held.Values, Big(slotIdx));
      var expandPageSize := GenExpandSlotPageSize(slotSize, EXPAND_FACTOR, c.pageSize);
      var slot;
      slot, r := GetOnSlot(Slot(bigPages[slotIdx], bigFree[slotIdx]), expandPageSize, slotSize, Big(slotIdx), offer,
                           Geo(c, Big(slotIdx)));
      bigPages, bigFree := bigPages[slotIdx := slot.pages], bigFree[slotIdx := slot.free];
    }

    /** The small and big branch of Get. */
    method GetSlotObj(size: uint32, offer: nat) returns (r: Option<Grant>)
      requires PoolInv(c, View(), held.Values) && 0 < size && c.tinyThreshold < size <= c.bulkThreshold
      modifies `smallPages, `smallFree, `bigPages, `bigFree, `heap
      ensures PageExponentOk(c)
      ensures SlotGet(Geo(c, SmallKey(c, size)), old(View()), SmallKey(c, size), offer, View(), r)
    {
      SmallKeyValid(c, size);
      if c.bigThreshold < size {
        var slotSize := RoundUp(size, Log2(c.pageSize));
        r := GetBig(SlotIdx(slotSize, c.pageSize), slotSize, offer);
      } else {
        var slotSize := RoundUp(size, SMALL_EXPONENT);
        r := GetSmall(SlotIdx(slotSize, SMALL_FOOTSTEP), slotSize, offer);
      }
    }

    /** The registry entry of a bulk slot starts again, and a page that could be allocated is put into it. */
    method AllocBulkPage(slotIdx: nat, size: uint32, slotSize: uint32, freeObjs: map<nat, seq<nat>>, offer: nat)
      returns (ok: bool, freeObjs': map<nat, seq<nat>>)
      requires 0 < slotSize
      modifies `heap, `bulkObjPages
      ensures ok == Accepts(old(heap), offer, size)
      ensures freeObjs' == if ok then freeObjs[offer := Pieces(slotSize, offer, Div(size, slotSize))] else freeObjs
      ensures heap == if ok then old(heap)[offer := Region(size, Bulk(slotIdx))] else old(heap)
      ensures bulkObjPages == RegistryRefilled(old(bulkObjPages), Bulk(slotIdx), if ok then Some(offer) else None)
    {
      hide Accepts, Pieces;
      bulkObjPages := bulkObjPages[slotIdx := {}];
      var pages;
      ok, pages, freeObjs' := AllocPageObjs(size, slotSize, Bulk(slotIdx), bulkObjPages[slotIdx], freeObjs, offer);
      bulkObjPages := bulkObjPages[slotIdx := pages];
      assert pages == if ok then {offer} else {};
    }

    /** Only a slot below the reserve limit is expanded. */
    method ExpandBulk(needPageSize: uint32, ghost g: Geometry) returns (expandPageSize: uint32)
      requires 0 < needPageSize && 0 < c.pageSize && g == BulkGeo(needPageSize, c.pageSize, c.bulkResident)
      ensures expandPageSize == g.pageBytes
    {
      expandPageSize := needPageSize;
      if needPageSize < RESIDENT_BULK_MAX {
        expandPageSize := GenExpandSlotPageSize(needPageSize, BULK_EXPAND_FACTOR, c.pageSize);
      }
    }

    /** The refill of the bulk branch: list an empty record in both indices, fill it from a new page or drop it. */
    method RefillBulk(needSlotIdx: nat, needPageSize: uint32, offer: nat, ghost g: Geometry) returns (ok: bool)
      requires needSlotIdx !in bulkHash && needSlotIdx !in bulkOrder
      requires 0 < needPageSize && 0 < c.pageSize
      requires g == BulkGeo(needPageSize, c.pageSize, c.bulkResident) && g.slotSize == needPageSize
      modifies `bulkHash, `bulkOrder, `bulkPages, `heap, `bulkObjPages
      ensures var k, p := Bulk(needSlotIdx), old(View());
              View() == if Accepts(old(heap), offer, g.pageBytes)
                        then Changed(p, k, Refilled(g, At(p, k), offer), old(heap)[offer := Region(g.pageBytes, k)],
                                     RegistryRefilled(p.registry, k, Some(offer)))
                        else Changed(p, k, At(p, k), p.heap, RegistryRefilled(p.registry, k, None))
      ensures ok == Accepts(old(heap), offer, g.pageBytes)
    {
      hide Accepts, BulkGeo, Pieces, Div, RegistryRefilled, SetAt, Refilled, Listed;
      var expandPageSize := ExpandBulk(needPageSize, g);
      ghost var k, p := Bulk(needSlotIdx), View();
      ghost var pages := At(p, k).pages;
      bulkHash := bulkHash[needSlotIdx := NO_FREE];
      bulkOrder := bulkOrder[needSlotIdx := needSlotIdx];
      var objs;
      ok, objs := AllocBulkPage(needSlotIdx, expandPageSize, needPageSize, bulkHash[needSlotIdx].objs, offer);
      if ok {
        bulkHash := bulkHash[needSlotIdx := FreeList(objs, Div(expandPageSize, needPageSize))];
        bulkPages := bulkPages[needSlotIdx := pages + {offer}];
        ListedRefill(p, needSlotIdx, g, offer, View());
      } else {
        bulkHash := bulkHash - {needSlotIdx};
        bulkOrder := bulkOrder - {needSlotIdx};
        bulkPages := bulkPages[needSlotIdx := pages];
        UnlistedRefill(p, needSlotIdx, View());
      }
    }

    /** The exact hit: a record without free objects leaves both indices. */
    method TakeBulk(slotIdx: nat) returns (r: Option<Grant>, ghost s': Slot)
      requires slotIdx in bulkHash && slotIdx in bulkOrder && bulkOrder[slotIdx] == slotIdx
      requires slotIdx in bulkPages && bulkHash[slotIdx].objs != map[] && Takeable(bulkHash[slotIdx].objs)
      modifies `bulkHash, `bulkOrder
      ensures TakeRel(Bulk(slotIdx), At(old(View()), Bulk(slotIdx)), s', r)
      ensures View() == SetAt(old(View()), Bulk(slotIdx), s')
    {
      var slot;
      slot, r := TakeFromSlot(Slot({}, bulkHash[slotIdx]), Bulk(slotIdx));
      if slot.free.objs == map[] {
        bulkHash := bulkHash - {slotIdx};
        bulkOrder := bulkOrder - {slotIdx};
      } else {
        bulkHash := bulkHash[slotIdx := slot.free];
      }
      s' := Slot(bulkPages[slotIdx], slot.free);
      assert bulkPages == bulkPages[slotIdx := bulkPages[slotIdx]];
      assert slot.free.objs != map[] ==> bulkOrder == bulkOrder[slotIdx := slotIdx];
    }

    /** Any other hit, through the pointer the ordered index stores. When the record has no object left, the backward
        scan erases the slot from the ordered index, but from the hash index the key its iterator stands at then. */
    method TakeOrdered(slotIdx: nat, ghost needSlotIdx: nat) returns (r: Option<Grant>, ghost s': Slot)
      requires slotIdx in bulkHash && slotIdx in bulkOrder && bulkOrder[slotIdx] == slotIdx && needSlotIdx < slotIdx
      requires slotIdx in bulkPages && bulkHash[slotIdx].objs != map[] && Takeable(bulkHash[slotIdx].objs)
      requires OneLeft(bulkHash[slotIdx].objs) ==> ScansBack(bulkOrder.Keys, needSlotIdx)
      modifies `bulkHash, `bulkOrder
      ensures TakeRel(Bulk(slotIdx), At(old(View()), Bulk(slotIdx)), s', r)
      ensures !OneLeft(old(bulkHash[slotIdx].objs)) ==> View() == SetAt(old(View()), Bulk(slotIdx), s')
      ensures OneLeft(old(bulkHash[slotIdx].objs)) ==> TakesLast(old(View()), needSlotIdx, slotIdx, View(), r)
    {
      var slot;
      slot, r := TakeFromSlot(Slot({}, bulkHash[bulkOrder[slotIdx]]), Bulk(slotIdx));
      LastTaken(Slot({}, bulkHash[slotIdx]), slot, Bulk(slotIdx), r);
      s' := Slot(bulkPages[slotIdx], slot.free);
      if slot.free.objs == map[] {
        ghost var low :| low in bulkOrder && low <= needSlotIdx;
        bulkOrder := bulkOrder - {slotIdx};
        var smaller := set i | i in bulkOrder && i < slotIdx;
        assert low in smaller;
        var below := MaxOf(smaller);
        bulkHash := bulkHash[slotIdx := slot.free] - {below};
        assert forall i :: i in old(bulkOrder) && i < slotIdx ==> i in smaller;
        assert IsNextBelow(old(bulkOrder.Keys), slotIdx, below);
      } else {
        bulkHash := bulkHash[slotIdx := slot.free];
        assert bulkPages == bulkPages[slotIdx := bulkPages[slotIdx]];
        assert bulkOrder == bulkOrder[slotIdx := slotIdx];
      }
    }

    /** A suitable free slot exists. */
    method GetListedBulk(slotIdx: nat, needSlotIdx: nat, ghost g: Geometry, ghost offer: nat) returns (r: Option<Grant>)
      requires slotIdx in bulkHash && slotIdx in bulkOrder && bulkOrder[slotIdx] == slotIdx && needSlotIdx <= slotIdx
      requires slotIdx in bulkPages && bulkHash[slotIdx].objs != map[] && Takeable(bulkHash[slotIdx].objs)
      requires slotIdx != needSlotIdx && OneLeft(bulkHash[slotIdx].objs) ==> ScansBack(bulkOrder.Keys, needSlotIdx)
      requires Sound(g) && 0 < PerPage(g) && SlotInv(g, Bulk(slotIdx), At(View(), Bulk(slotIdx)), held.Values)
      modifies `bulkHash, `bulkOrder
      ensures if slotIdx != needSlotIdx && OneLeft(old(bulkHash[slotIdx].objs))
              then TakesLast(old(View()), needSlotIdx, slotIdx, View(), r)
              else SlotGet(g, old(View()), Bulk(slotIdx), offer, View(), r)
    {
      hide OneLeft, ScansBack, TakesLast, SlotGet;
      ghost var s', p := Slot({}, NO_FREE), View();
      if slotIdx == needSlotIdx {
        r, s' := TakeBulk(slotIdx);
        TakeIsGet(g, p, held.Values, slotIdx, s', View(), r, offer);
      } else {
        r, s' := TakeOrdered(slotIdx, needSlotIdx);
        if !OneLeft(p.bulkFree[slotIdx].objs) {
          TakeIsGet(g, p, held.Values, slotIdx, s', View(), r, offer);
        }
      }
    }

    /** No suitable slot: refill the exact one, then look it up again. */
    method GetNewBulk(needSlotIdx: nat, needPageSize: uint32, offer: nat, ghost g: Geometry) returns (r: Option<Grant>)
      requires bulkOrder.Keys == bulkHash.Keys && Suitable(bulkHash.Keys, bulkHash.Keys, needSlotIdx, None)
      requires 0 < needPageSize && 0 < c.pageSize
      requires g == BulkGeo(needPageSize, c.pageSize, c.bulkResident) && g.slotSize == needPageSize
      requires Sound(g) && 0 < PerPage(g) && SlotInv(g, Bulk(needSlotIdx), At(View(), Bulk(needSlotIdx)), held.Values)
      requires Accepts(heap, offer, g.pageBytes) ==> offer !in At(View(), Bulk(needSlotIdx)).pages
      modifies `bulkHash, `bulkOrder, `bulkPages, `heap, `bulkObjPages
      ensures SlotGet(g, old(View()), Bulk(needSlotIdx), offer, View(), r)
    {
      SuitableComplete(bulkHash.Keys, needSlotIdx, None);
      ghost var p := View();
      var ok := RefillBulk(needSlotIdx, needPageSize, offer, g);
      ghost var p1 := View();
      RefilledIndices(g, p, needSlotIdx, offer, p1, ok);
      r := TakeRefilled(needSlotIdx, offer, g, p, p1, ok);
    }

    /** The second lookup after a refill attempt. */
    method TakeRefilled(needSlotIdx: nat, ghost offer: nat, ghost g: Geometry, ghost p: Pool, ghost p1: Pool,
                        ghost ok: bool)
      returns (r: Option<Grant>)
      requires View() == p1 && ok == Accepts(p.heap, offer, g.pageBytes)
      requires var k := Bulk(needSlotIdx);
        p1 == if ok then Changed(p, k, Refilled(g, At(p, k), offer), p.heap[offer := Region(g.pageBytes, k)],
                                 RegistryRefilled(p.registry, k, Some(offer)))
              else Changed(p, k, At(p, k), p.heap, RegistryRefilled(p.registry, k, None))
      requires needSlotIdx !in p.bulkFree && bulkHash.Keys == bulkOrder.Keys
      requires ok ==> needSlotIdx in bulkHash
      requires ok ==> bulkHash[needSlotIdx].objs == map[offer := Pieces(g.slotSize, offer, PerPage(g))]
      requires ok ==> needSlotIdx in bulkOrder && bulkOrder[needSlotIdx] == needSlotIdx && needSlotIdx in bulkPages
      requires !ok ==> bulkHash.Keys == p.bulkFree.Keys && Suitable(p.bulkFree.Keys, p.bulkFree.Keys, needSlotIdx, None)
      requires Sound(g) && 0 < PerPage(g) && SlotInv(g, Bulk(needSlotIdx), At(p, Bulk(needSlotIdx)), held.Values)
      requires ok ==> offer !in At(p, Bulk(needSlotIdx)).pages
      modifies `bulkHash, `bulkOrder
      ensures SlotGet(g, p, Bulk(needSlotIdx), offer, View(), r)
    {
      var suitable := FindSuitableSlot(bulkHash.Keys, bulkOrder.Keys, needSlotIdx);
      SuitableComplete(bulkHash.Keys, needSlotIdx, suitable);
      if !ok { SuitableComplete(bulkHash.Keys, needSlotIdx, None); }
      r := None;
      if suitable.Some? {
        FirstPiece(bulkHash[needSlotIdx].objs, g, offer);
        ghost var s';
        r, s' := TakeBulk(suitable.value);
        RefillTakeIsGet(g, p, held.Values, needSlotIdx, p1, s', View(), r, offer);
      } else {
        NoPageIsGet(g, p, needSlotIdx, View(), offer);
      }
    }

    /** The bulk branch of Get, where its lookup is defined. */
    method GetBulk(size: uint32, offer: nat) returns (r: Option<Grant>, ghost found: Option<nat>)
      requires PoolInv(c, View(), held.Values) && Request(c, size) && BulkSize(c, size)
      requires LookupDefined(c, View(), size)
      modifies `bulkHash, `bulkOrder, `bulkPages, `heap, `bulkObjPages
      ensures BulkGet(c, old(View()), size, offer, found, View(), r)
    {
      ghost var p := View();
      BulkNeedValid(c, size);
      BulkIndicesReady(c, p, held.Values);
      var needPageSize := RoundUp(size, Log2(c.pageSize));
      var needSlotIdx := SlotIdx(needPageSize, c.pageSize);
      var suitable := FindSuitableSlot(bulkHash.Keys, bulkOrder.Keys, needSlotIdx);
      found := suitable;
      SuitableComplete(bulkHash.Keys, needSlotIdx, found);
      if suitable.Some? {
        BulkReady(c, p, held.Values, suitable.value, offer);
        assert DrainsSlot(p, needSlotIdx, suitable.value) ==> Drains(c, p, size);
        r := GetListedBulk(suitable.value, needSlotIdx, Geo(c, Bulk(suitable.value)), offer);
      } else {
        BulkReady(c, p, held.Values, needSlotIdx, offer);
        r := GetNewBulk(needSlotIdx, needPageSize, offer, Geo(c, Bulk(needSlotIdx)));
      }
    }

    /** get_mem_object: reuse a returned wrapper, or make a new one. */
    method GetMemObject(objType: MemObjectType, slotSize: uint32, objPv: nat, slotStartPv: nat) returns (m: MemObject)
      modifies `freeMemObjs, freeMemObjs
      ensures m.Holds(objType, slotSize, objPv, slotStartPv)
      ensures if old(freeMemObjs) == [] then fresh(m) && freeMemObjs == []
              else m == old(freeMemObjs)[0] && freeMemObjs == old(freeMemObjs)[1..]
      ensures forall x :: x in old(freeMemObjs) && x != m ==> unchanged(x)
    {
      if freeMemObjs != [] {
        m := freeMemObjs[0];
        m.Refresh(objType, slotSize, objPv, slotStartPv);
        freeMemObjs := freeMemObjs[1..];
      } else {
        m := new MemObject(objType, slotSize, objPv, slotStartPv);
      }
    }

    /** The memory half of Get: pick the class by size and serve the request there. */
    method Acquire(size: uint32, offer: nat) returns (r: Option<Grant>)
      requires PoolInv(c, View(), held.Values) && Request(c, size) && LookupDefined(c, View(), size)
      modifies `tinyPages, `tinyFree, `tinyCnt, `smallPages, `smallFree, `bigPages, `bigFree,
               `bulkHash, `bulkOrder, `bulkPages, `heap, `bulkObjPages
      ensures GetStep(c, old(View()), size, offer, View(), r)
    {
      if size <= c.tinyThreshold {
        r := GetTiny(offer);
      } else if size <= c.bulkThreshold {
        r := GetSlotObj(size, offer);
      } else {
        ghost var found;
        r, found := GetBulk(size, offer);
      }
    }

    /** The wrapper half of Get. */
    method Wrap(gr: Grant) returns (m: MemObject)
      requires WrappersOk() && gr !in held.Values && WordSize(c, gr.key)
      modifies `freeMemObjs, `held, freeMemObjs
      ensures WrappersOk() && m !in old(held) && held == old(held)[m := gr] && held.Values == old(held).Values + {gr}
      ensures m.slotSize == SizeOf(c, gr.key)
    {
      m := GetMemObject(TypeOf(gr.key), SizeOf(c, gr.key), gr.obj, gr.page);
      assert forall x :: x in held ==> x != m && x !in old(freeMemObjs);
      AddedValue(held, m, gr);
      held := held[m := gr];
    }

    /** The memory half of Get, with what it keeps. */
    method AcquireKeeping(size: uint32, offer: nat, ghost out: set<Grant>)
      returns (r: Option<Grant>, ghost p': Pool, ghost out': set<Grant>)
      requires out == held.Values && PoolInv(c, View(), out) && Retained(c, View()) && Request(c, size)
      requires LookupDefined(c, View(), size)
      modifies `tinyPages, `tinyFree, `tinyCnt, `smallPages, `smallFree, `bigPages, `bigFree,
               `bulkHash, `bulkOrder, `bulkPages, `heap, `bulkObjPages
      ensures View() == p' && GetStep(c, old(View()), size, offer, p', r)
      ensures out' == Extend(out, r) && (PoolInv(c, p', out') <==> !Drains(c, old(View()), size))
      ensures !Drains(c, old(View()), size) ==> Retained(c, p')
      ensures r.Some? ==> WordSize(c, r.value.key) && r.value !in out && size <= SizeOf(c, r.value.key)
      ensures if r.Some? then RightSlot(c, old(View()), size, r.value.key) else Refused(c, old(View()), size, offer)
      ensures !Drains(c, old(View()), size) ==> GetEffect(c, old(View()), offer, p', r)
    {
      hide PoolInv, Retained, GetStep, Drains, GetEffect, RightSlot, Refused, LookupDefined;
      r := Acquire(size, offer);
      p', out' := View(), Extend(out, r);
      GetOutcome(c, old(View()), out, size, offer, p', r);
    }

    /** Get, where its lookup is defined. A null result means the system allocator had no page. The pool stays valid
        exactly if the request does not take the last free object of a larger bulk slot. */
    method Get(size: uint32, offer: nat) returns (m: MemObject?)
      requires Valid() && Request(c, size) && LookupDefined(c, View(), size)
      modifies this, freeMemObjs
      ensures Valid() <==> !Drains(c, old(View()), size)
      ensures m == null ==> held == old(held) && Refused(c, old(View()), size, offer)
      ensures m != null ==> m !in old(held) && m in held && held == old(held)[m := held[m]]
      ensures m != null ==> size <= m.slotSize && held[m] !in old(held).Values
      ensures m != null ==> m.slotSize == SizeOf(c, held[m].key) && RightSlot(c, old(View()), size, held[m].key)
      ensures !Drains(c, old(View()), size) ==>
                GetEffect(c, old(View()), offer, View(), if m == null then None else Some(held[m]))
      ensures GetStep(c, old(View()), size, offer, View(), if m == null then None else Some(held[m]))
    {
      hide PoolInv, Retained, GetStep, Drains, GetEffect, RightSlot, Refused;
      ghost var p', out';
      var r;
      r, p', out' := AcquireKeeping(size, offer, held.Values);
      m := null;
      if r.Some? {
        m := Wrap(r.value);
      }
      assert View() == p' && held.Values == out';
    }

    /** The tiny slot after a put: the new list, and a page that became full goes back. */
    method StoreTiny(free: FreeList, freePtr: Option<nat>)
      requires freePtr.Some? ==> freePtr.value in heap
      modifies `tinyPages, `tinyFree, `tinyCnt, `heap
      ensures var pages := if freePtr.Some? then old(tinyPages) - {freePtr.value} else old(tinyPages);
              View() == Changed(old(View()), Tiny, Slot(pages, free),
                                if freePtr.Some? then old(heap) - {freePtr.value} else old(heap), old(bulkObjPages))
    {
      tinyFree, tinyCnt := free.objs, free.cnt;
      if freePtr.Some? {
        tinyPages := tinyPages - {freePtr.value};
        Free(freePtr.value);
      }
    }

    /** The tiny branch of put. */
    method PutTiny(objPv: nat, objPagePv: nat, ghost gr: Grant, ghost out: set<Grant>)
      requires PoolInv(c, View(), out) && gr in out && gr == Grant(Tiny, objPv, objPagePv)
      modifies `tinyPages, `tinyFree, `tinyCnt, `heap
      ensures PutStep(c, old(View()), gr, View())
    {
      hide SlotsOk, HeapOk, PutRel, PutStep, ValidConfig;
      ghost var p, g := View(), Geo(c, Tiny);
      GeoFacts(c, Tiny);
      var onePageObjsCnt := Div(c.pageSize, c.tinyThreshold);
      var free, freePtr := PutOnFreeList(FreeList(tinyFree, tinyCnt), objPv, objPagePv, onePageObjsCnt, c.tinyResident,
                                         g, gr, tinyPages);
      ghost var s' := Slot(if freePtr.Some? then tinyPages - {freePtr.value} else tinyPages, free);
      FreedIsLive(c, p, out, gr, s', freePtr);
      StoreTiny(free, freePtr);
      PutOnSlotIsPut(c, p, out, gr, s', View(), freePtr);
    }

    /** The small branch of put. */
    method PutSmall(slotSize: uint32, objPv: nat, objPagePv: nat, ghost gr: Grant, ghost out: set<Grant>)
      requires PoolInv(c, View(), out) && gr in out
               && gr == Grant(Small(SlotIdx(slotSize, SMALL_FOOTSTEP)), objPv, objPagePv)
      requires slotSize == SizeOf(c, gr.key)
      modifies `smallPages, `smallFree, `heap
      ensures PutStep(c, old(View()), gr, View())
    {
      hide SlotsOk, HeapOk, PutRel, PutStep, ValidConfig;
      ghost var p, g := View(), Geo(c, gr.key);
      GeoFacts(c, gr.key);
      var slotIdx := SlotIdx(slotSize, SMALL_FOOTSTEP);
      var onePageSize := GenExpandSlotPageSize(slotSize, EXPAND_FACTOR, c.pageSize);
      var onePageObjsCnt := Div(onePageSize, slotSize);
      var free, freePtr := PutOnFreeList(smallFree[slotIdx], objPv, objPagePv, onePageObjsCnt, c.smallResident, g, gr,
                                         smallPages[slotIdx]);
      ghost var s' := Slot(if freePtr.Some? then smallPages[slotIdx] - {freePtr.value} else smallPages[slotIdx], free);
      FreedIsLive(c, p, out, gr, s', freePtr);
      smallFree := smallFree[slotIdx := free];
      if freePtr.Some? {
        smallPages := smallPages[slotIdx := smallPages[slotIdx] - {freePtr.value}];
        Free(freePtr.value);
      }
      assert smallPages == p.smallPages[slotIdx := s'.pages];
      PutOnSlotIsPut(c, p, out, gr, s', View(), freePtr);
    }

    /** The big branch of put. */
    method PutBig(slotSize: uint32, objPv: nat, objPagePv: nat, ghost gr: Grant, ghost out: set<Grant>)
      requires 0 < c.pageSize && PoolInv(c, View(), out) && gr in out
      requires gr == Grant(Big(SlotIdx(slotSize, c.pageSize)), objPv, objPagePv) && slotSize == SizeOf(c, gr.key)
      modifies `bigPages, `bigFree, `heap
      ensures PutStep(c, old(View()), gr, View())
    {
      hide SlotsOk, HeapOk, PutRel, PutStep, ValidConfig;
      ghost var p, g := View(), Geo(c, gr.key);
      GeoFacts(c, gr.key);
      var slotIdx := SlotIdx(slotSize, c.pageSize);
      var onePageSize := GenExpandSlotPageSize(slotSize, EXPAND_FACTOR, c.pageSize);
      var onePageObjsCnt := Div(onePageSize, slotSize);
      var free, freePtr := PutOnFreeList(bigFree[slotIdx], objPv, objPagePv, onePageObjsCnt, c.bigResident, g, gr,
                                         bigPages[slotIdx]);
      ghost var s' := Slot(if freePtr.Some? then bigPages[slotIdx] - {freePtr.value} else bigPages[slotIdx], free);
      FreedIsLive(c, p, out, gr, s', freePtr);
      bigFree := bigFree[slotIdx := free];
      if freePtr.Some? {
        bigPages := bigPages[slotIdx := bigPages[slotIdx] - {freePtr.value}];
        Free(freePtr.value);
      }
      assert bigPages == p.bigPages[slotIdx := s'.pages];
      PutOnSlotIsPut(c, p, out, gr, s', View(), freePtr);
    }

    /** The page leaves the registry entry and goes back; an entry left empty is erased. */
    method DropBulkPage(slotIdx: nat, objPagePv: nat)
      requires slotIdx in bulkObjPages && objPagePv in heap
      modifies `heap, `bulkObjPages
      ensures heap == old(heap) - {objPagePv}
      ensures bulkObjPages == RegistryDropped(old(bulkObjPages), slotIdx, objPagePv)
    {
      var registry := bulkObjPages;
      bulkObjPages := bulkObjPages[slotIdx := bulkObjPages[slotIdx] - {objPagePv}];
      Free(objPagePv);
      if bulkObjPages[slotIdx] == {} {
        bulkObjPages := bulkObjPages - {slotIdx};
        assert bulkObjPages == registry - {slotIdx};
      }
    }

    /** The bulk branch of put above the reserve limit: the registry entry, which must be there, loses the page and goes
        when it is empty, and the page goes back at once. */
    method DropBulk(slotIdx: nat, objPagePv: nat, ghost gr: Grant, ghost out: set<Grant>)
      requires PoolInv(c, View(), out) && gr in out && Oversized(c, gr.key)
      requires gr.key.idx == slotIdx && gr.page == objPagePv && slotIdx in bulkObjPages
      modifies `bulkPages, `heap, `bulkObjPages
      ensures PutStep(c, old(View()), gr, View())
    {
      hide SlotsOk, HeapOk, IndicesOk, ValidConfig, SizeOf, PutStep, RegistryDropped;
      GrantPages(c, View(), out);
      ghost var p, pages := View(), At(View(), gr.key).pages - {gr.page};
      DropBulkPage(slotIdx, objPagePv);
      bulkPages := bulkPages[slotIdx := pages];
      DirectPutIs(c, p, gr, View());
    }

    /** The list work of the bulk branch: a slot that is not listed starts with an empty list for the page. */
    method PutOnBulkRecord(slotIdx: nat, slotSize: uint32, objPv: nat, objPagePv: nat, ghost g: Geometry,
                           ghost gr: Grant, ghost pages: set<nat>)
      returns (free: FreeList, freePtr: Option<nat>)
      requires 0 < c.pageSize && 0 < slotSize && gr == Grant(Bulk(slotIdx), objPv, objPagePv)
      requires g.fullCnt == Div(ExpandSize(slotSize, BULK_EXPAND_FACTOR, c.pageSize), slotSize)
               && g.resident == c.bulkResident
      ensures PutRel(g, Slot(pages, if slotIdx in bulkHash then bulkHash[slotIdx] else NO_FREE), gr,
                     Slot(if freePtr.Some? then pages - {freePtr.value} else pages, free), freePtr)
    {
      var record := FreeList(map[objPagePv := []], 0);
      if slotIdx in bulkHash {
        record := bulkHash[slotIdx];
      }
      var onePageSize := GenExpandSlotPageSize(slotSize, BULK_EXPAND_FACTOR, c.pageSize);
      var onePageObjsCnt := Div(onePageSize, slotSize);
      free, freePtr := PutOnFreeList(record, objPv, objPagePv, onePageObjsCnt, c.bulkResident, g, gr, pages);
      if slotIdx !in bulkHash {
        EmptyEntry(g, pages, gr, Slot(if freePtr.Some? then pages - {freePtr.value} else pages, free), freePtr);
      }
    }

    /** The record of a bulk slot is written back, or leaves both indices when nothing is free. */
    method StoreBulk(slotIdx: nat, free: FreeList, ghost pages: set<nat>)
      requires free.objs == map[] <==> free.cnt == 0
      modifies `bulkHash, `bulkOrder, `bulkPages
      ensures View() == SetAt(old(View()), Bulk(slotIdx), Slot(pages, free))
    {
      bulkPages := bulkPages[slotIdx := pages];
      if free.cnt == 0 {
        bulkHash, bulkOrder := bulkHash - {slotIdx}, bulkOrder - {slotIdx};
      } else {
        bulkHash, bulkOrder := bulkHash[slotIdx := free], bulkOrder[slotIdx := slotIdx];
      }
    }

    /** A full page leaves its registry entry, which operator[] makes if it is gone, and goes back. */
    method FreeBulkPage(slotIdx: nat, freePtr: Option<nat>)
      requires freePtr.Some? ==> freePtr.value in heap
      modifies `heap, `bulkObjPages
      ensures heap == if freePtr.Some? then old(heap) - {freePtr.value} else old(heap)
      ensures bulkObjPages == RegistryErased(old(bulkObjPages), Bulk(slotIdx), freePtr)
    {
      if freePtr.Some? {
        var registered := if slotIdx in bulkObjPages then bulkObjPages[slotIdx] else {};
        bulkObjPages := bulkObjPages[slotIdx := registered - {freePtr.value}];
        Free(freePtr.value);
      }
    }

    /** The list work of the bulk branch on the pool as it is: what is freed is live, and a counter of zero is an
        empty record. */
    method ListOnBulk(slotIdx: nat, slotSize: uint32, objPv: nat, objPagePv: nat, ghost gr: Grant,
                      ghost out: set<Grant>)
      returns (free: FreeList, freePtr: Option<nat>, ghost s': Slot)
      requires 0 < c.pageSize && PoolInv(c, View(), out) && gr in out
      requires gr == Grant(Bulk(slotIdx), objPv, objPagePv) && slotSize == SizeOf(c, gr.key) && !Oversized(c, gr.key)
      ensures PutRel(Geo(c, gr.key), At(View(), gr.key), gr, s', freePtr)
      ensures s'.free == free && (free.objs == map[] <==> free.cnt == 0)
      ensures freePtr.Some? ==> freePtr.value in heap
    {
      hide SlotsOk, HeapOk, IndicesOk, PutRel;
      KeptFullCnt(c, gr.key);
      ghost var pages := At(View(), gr.key).pages;
      free, freePtr := PutOnBulkRecord(slotIdx, slotSize, objPv, objPagePv, Geo(c, gr.key), gr, pages);
      s' := Slot(if freePtr.Some? then pages - {freePtr.value} else pages, free);
      FreedIsLive(c, View(), out, gr, s', freePtr);
      CountZeroEmpty(c, View(), out, gr, s', freePtr);
    }

    /** The bulk branch of put up to the reserve limit. */
    method KeepBulk(slotIdx: nat, slotSize: uint32, objPv: nat, objPagePv: nat, ghost gr: Grant, ghost out: set<Grant>)
      requires 0 < c.pageSize && PoolInv(c, View(), out) && gr in out
      requires gr == Grant(Bulk(slotIdx), objPv, objPagePv) && slotSize == SizeOf(c, gr.key) && !Oversized(c, gr.key)
      modifies `bulkHash, `bulkOrder, `bulkPages, `heap, `bulkObjPages
      ensures PutStep(c, old(View()), gr, View())
    {
      hide PoolInv, PutRel, PutStep, Geo, At, SetAt, Oversized, RegistryErased;
      ghost var p := View();
      ghost var s';
      var free, freePtr;
      free, freePtr, s' := ListOnBulk(slotIdx, slotSize, objPv, objPagePv, gr, out);
      StoreBulk(slotIdx, free, s'.pages);
      FreeBulkPage(slotIdx, freePtr);
      PutOnSlotIsPut(c, p, out, gr, s', View(), freePtr);
    }

    /** put: find the slot from the stored type and size, and return the object there. */
    method PutObject(objType: MemObjectType, slotSize: uint32, objPv: nat, objPagePv: nat, ghost gr: Grant,
                     ghost out: set<Grant>)
      returns (ghost p': Pool)
      requires 0 < c.pageSize && PoolInv(c, View(), out) && gr in out
      requires gr == Grant(KeyOf(c.pageSize, objType, slotSize), objPv, objPagePv) && slotSize == SizeOf(c, gr.key)
      requires Returnable(c, View(), gr)
      modifies `tinyPages, `tinyFree, `tinyCnt, `smallPages, `smallFree, `bigPages, `bigFree,
               `bulkHash, `bulkOrder, `bulkPages, `heap, `bulkObjPages
      ensures p' == View() && PutStep(c, old(View()), gr, p')
    {
      match objType {
        case TinyObject => PutTiny(objPv, objPagePv, gr, out);
        case SmallObject => PutSmall(slotSize, objPv, objPagePv, gr, out);
        case BigObject => PutBig(slotSize, objPv, objPagePv, gr, out);
        case BulkObject =>
          var slotIdx := SlotIdx(slotSize, c.pageSize);
          if slotSize > RESIDENT_BULK_MAX {
            DropBulk(slotIdx, objPagePv, gr, out);
          } else {
            KeepBulk(slotIdx, slotSize, objPv, objPagePv, gr, out);
          }
      }
      p' := View();
    }

    /** The wrapper half of Put: the wrapper is recycled. */
    method Unwrap(m: MemObject)
      requires WrappersOk() && m in held
      modifies `freeMemObjs, `held
      ensures WrappersOk() && held == old(held) - {m} && held.Values == old(held).Values - {old(held)[m]}
      ensures freeMemObjs == old(freeMemObjs) + [m]
    {
      RemovedValue(held, m);
      held := held - {m};
      freeMemObjs := freeMemObjs + [m];
    }

    /** Put, called once per outstanding object and, above the reserve limit, while its return is defined; null is
        ignored. */
    method Put(m: MemObject?)
      requires Valid() && (m == null || (m in held && Returnable(c, View(), held[m])))
      modifies this
      ensures Valid()
      ensures m == null ==> View() == old(View()) && held == old(held) && freeMemObjs == old(freeMemObjs)
      ensures m != null ==> held == old(held) - {m} && PutStep(c, old(View()), old(held[m]), View())
      ensures m != null ==> PutEffect(c, old(View()), old(held[m]), View())
      ensures m != null ==> freeMemObjs == old(freeMemObjs) + [m]
    {
      if m == null {
        return;
      }
      hide PutStep, PoolInv, Retained, PutEffect, KeyOf;
      ghost var gr, out := held[m], held.Values;
      KeyRoundTrip(c, gr.key);
      ghost var p' := PutObject(m.objType, m.slotSize, m.objPv, m.objPagePv, gr, out);
      PutStepKeeps(c, old(View()), out, gr, p');
      PutStepEffect(c, old(View()), out, gr, p');
      Unwrap(m);
      assert View() == p' && held.Values == out - {gr};
    }
  }
}
