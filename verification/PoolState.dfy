/** The whole pool as a value: four size classes over one system heap, and what Get and Put do to it. */
module PoolState {
  import opened Words
  import opened SlotMath
  import opened FreeLists
  import opened SlotPages

  const SMALL_FOOTSTEP: uint32 := 32
  const SMALL_EXPONENT: nat := 5
  const EXPAND_FACTOR: uint32 := 32
  const BULK_EXPAND_FACTOR: uint32 := 4
  const RESIDENT_BULK_MAX: uint32 := 1048576

  /** The constructor's parameters and the system page size. */
  datatype Config = Config(pageSize: uint32,
                           tinyThreshold: uint32, bigThreshold: uint32, bulkThreshold: uint32,
                           tinyResident: uint32, smallResident: uint32, bigResident: uint32, bulkResident: uint32)

  /** A page size the pool works with: a power of two between 256 bytes and 1 MiB. */
  ghost predicate ValidPageSize(p: uint32, exponent: nat) {
    8 <= exponent <= 20 && p == Pow2(exponent)
  }

  /** log2(m_sys_page_size). */
  function Log2(p: nat): nat {
    if p <= 1 then 0 else 1 + Log2(p / 2)
  }

  lemma {:induction false} Log2OfPow2(e: nat)
    ensures Log2(Pow2(e)) == e
  {
    if e == 0 {
    } else {
      Log2OfPow2(e - 1);
    }
  }

  /** Thresholds the pool works with: aligned to their footsteps, and small enough that no page size wraps. */
  ghost predicate ValidConfig(c: Config) {
    && ValidPageSize(c.pageSize, Log2(c.pageSize))
    && 0 < c.tinyThreshold <= c.pageSize
    && c.bigThreshold % SMALL_FOOTSTEP == 0 && c.bigThreshold <= 0x400_0000
    && c.bulkThreshold % c.pageSize == 0 && c.bulkThreshold <= 0x400_0000
  }

  lemma PageSizeRange(e: nat)
    requires 8 <= e <= 20
    ensures 256 <= Pow2(e) <= RESIDENT_BULK_MAX
    ensures RESIDENT_BULK_MAX % Pow2(e) == 0
  {
    Pow2Adds(e, 20 - e);
    Pow2Adds(8, e - 8);
    Pow2Of20();
    MulLe(256, 1, Pow2(e - 8));
    MulLe(Pow2(e), 1, Pow2(20 - e));
    QuotientUnique(RESIDENT_BULK_MAX, Pow2(e), Pow2(20 - e), 0);
  }

  lemma {:induction false} Pow2Of20()
    ensures Pow2(8) == 256 && Pow2(20) == 1048576
  {
    assert Pow2(4) == 16;
    Pow2Adds(4, 4);
    Pow2Adds(8, 8);
    Pow2Adds(16, 4);
  }

  lemma PageFacts(c: Config)
    requires ValidConfig(c)
    ensures 256 <= c.pageSize <= RESIDENT_BULK_MAX && RESIDENT_BULK_MAX % c.pageSize == 0
  {
    PageSizeRange(Log2(c.pageSize));
  }

  ghost predicate ValidKey(c: Config, k: SlotKey) {
    match k
    case Tiny => true
    case Small(i) => 1 <= i && SMALL_FOOTSTEP * i <= c.bigThreshold
    case Big(i) => 1 <= i && c.pageSize * i <= c.bulkThreshold
    case Bulk(i) => 1 <= i && c.pageSize * i < TWO32
  }

  /** Bytes of an object of the slot. */
  function SizeOf(c: Config, k: SlotKey): int {
    match k
    case Tiny => c.tinyThreshold
    case Small(i) => SMALL_FOOTSTEP * i
    case Big(i) => c.pageSize * i
    case Bulk(i) => c.pageSize * i
  }

  /** A slot whose pages are cut into as many objects as `factor` asks for. */
  function Expanded(size: uint32, factor: uint32, pageSize: uint32, resident: uint32): Geometry
    requires 0 < size && 0 < pageSize
  {
    var bytes := ExpandSize(size, factor, pageSize);
    Geometry(size, bytes, Div(bytes, size), resident)
  }

  /** Page size and full-page test of a bulk slot, as Get computes the one and Put the other. */
  function BulkGeo(size: uint32, pageSize: uint32, resident: uint32): Geometry
    requires 0 < size && 0 < pageSize
  {
    var g := Expanded(size, BULK_EXPAND_FACTOR, pageSize, resident);
    if size < RESIDENT_BULK_MAX then g
    else if size == RESIDENT_BULK_MAX then g.(pageBytes := size)
    else Geometry(size, size, 1, resident)
  }

  predicate WordSize(c: Config, k: SlotKey) {
    0 < c.pageSize && 0 < SizeOf(c, k) < TWO32
  }

  /** The geometry of a slot; slots outside the word range do not exist. */
  function Geo(c: Config, k: SlotKey): Geometry {
    if !WordSize(c, k) then Geometry(0, 0, 0, 0)
    else
    var size: uint32 := SizeOf(c, k);
    match k
    case Tiny => Geometry(size, c.pageSize, Div(c.pageSize, size), c.tinyResident)
    case Small(_) => Expanded(size, EXPAND_FACTOR, c.pageSize, c.smallResident)
    case Big(_) => Expanded(size, EXPAND_FACTOR, c.pageSize, c.bigResident)
    case Bulk(_) => BulkGeo(size, c.pageSize, c.bulkResident)
  }

  lemma SizeInRange(c: Config, k: SlotKey)
    requires ValidConfig(c) && ValidKey(c, k)
    ensures WordSize(c, k)
    ensures !k.Bulk? ==> SizeOf(c, k) <= 0x400_0000
    ensures k.Big? || k.Bulk? ==> SizeOf(c, k) % c.pageSize == 0
  {
    PageFacts(c);
    if k.Big? || k.Bulk? {
      MulLe(c.pageSize, 1, k.idx);
      QuotientUnique(c.pageSize * k.idx, c.pageSize, k.idx, 0);
    }
  }

  lemma QuotientAtLeast(a: nat, d: nat, q: nat)
    requires 0 < d && d * q <= a
    ensures q <= a / d
  {
    MulLe(d, a / d + 1, q);
  }

  lemma ExpandedSound(size: uint32, factor: uint32, pageSize: uint32, resident: uint32)
    requires 0 < size && 0 < pageSize && 0 < factor && size * factor + pageSize <= TWO32
    ensures Sound(Expanded(size, factor, pageSize, resident))
    ensures 0 < PerPage(Expanded(size, factor, pageSize, resident))
  {
    ExpandSizeIsLeast(size, factor, pageSize);
    MulLe(size, 1, factor);
    QuotientAtLeast(ExpandSize(size, factor, pageSize), size, 1);
  }

  lemma BulkSound(size: uint32, pageSize: uint32, resident: uint32)
    requires 0 < pageSize <= RESIDENT_BULK_MAX && 0 < size && size % pageSize == 0
    ensures Sound(BulkGeo(size, pageSize, resident)) && 0 < PerPage(BulkGeo(size, pageSize, resident))
    ensures BulkGeo(size, pageSize, resident).fullCnt == PerPage(BulkGeo(size, pageSize, resident))
            <==> size != RESIDENT_BULK_MAX
    ensures size >= RESIDENT_BULK_MAX ==> PerPage(BulkGeo(size, pageSize, resident)) == 1
  {
    if size <= RESIDENT_BULK_MAX {
      ExpandedSound(size, BULK_EXPAND_FACTOR, pageSize, resident);
      ExpandSizeExact(size, BULK_EXPAND_FACTOR, pageSize);
      QuotientUnique(size * 4, size, 4, 0);
    }
    QuotientUnique(size, size, 1, 0);
  }

  /** Every slot holds at least one object per page; only the slot of exactly the reserve limit tests for a
      page larger than the ones it allocates. */
  lemma GeoFacts(c: Config, k: SlotKey)
    requires ValidConfig(c) && ValidKey(c, k)
    ensures WordSize(c, k)
    ensures Sound(Geo(c, k)) && 0 < PerPage(Geo(c, k)) && Geo(c, k).slotSize == SizeOf(c, k)
    ensures Geo(c, k).fullCnt == PerPage(Geo(c, k)) <==> !(k.Bulk? && SizeOf(c, k) == RESIDENT_BULK_MAX)
    ensures k.Bulk? && SizeOf(c, k) >= RESIDENT_BULK_MAX ==> PerPage(Geo(c, k)) == 1
  {
    SizeInRange(c, k);
    PageFacts(c);
    match k
    case Tiny => QuotientAtLeast(c.pageSize, c.tinyThreshold, 1);
    case Small(_) => ExpandedSound(SizeOf(c, k), EXPAND_FACTOR, c.pageSize, c.smallResident);
    case Big(_) => ExpandedSound(SizeOf(c, k), EXPAND_FACTOR, c.pageSize, c.bigResident);
    case Bulk(_) => BulkSound(SizeOf(c, k), c.pageSize, c.bulkResident);
  }

  // The state.

  /** A live allocation of the system heap, and the slot it was made for. */
  datatype Region = Region(bytes: nat, owner: SlotKey)

  /** Fields of the pool. The ordered bulk index stores pointers into the hash index: bulkOrder maps a slot to
      the hash entry its pointer refers to. The pages of a bulk slot that were not released are in bulkPages;
      m_bulk_obj_pages as stored, which forgets pages, is the registry. */
  datatype Pool = Pool(tiny: Slot,
                       smallPages: map<nat, set<nat>>, smallFree: map<nat, FreeList>,
                       bigPages: map<nat, set<nat>>, bigFree: map<nat, FreeList>,
                       bulkPages: map<nat, set<nat>>, bulkFree: map<nat, FreeList>, bulkOrder: map<nat, nat>,
                       heap: map<nat, Region>, registry: map<nat, set<nat>>)

  const NO_FREE := FreeList(map[], 0)

  function SlotIn(pages: map<nat, set<nat>>, free: map<nat, FreeList>, i: nat): Slot {
    Slot(if i in pages then pages[i] else {}, if i in free then free[i] else NO_FREE)
  }

  function At(p: Pool, k: SlotKey): Slot {
    match k
    case Tiny => p.tiny
    case Small(i) => SlotIn(p.smallPages, p.smallFree, i)
    case Big(i) => SlotIn(p.bigPages, p.bigFree, i)
    case Bulk(i) => SlotIn(p.bulkPages, p.bulkFree, i)
  }

  /** The pool with one slot replaced. A bulk slot is listed in both indices exactly while it has free objects. */
  function SetAt(p: Pool, k: SlotKey, s: Slot): Pool {
    match k
    case Tiny => p.(tiny := s)
    case Small(i) => p.(smallPages := p.smallPages[i := s.pages], smallFree := p.smallFree[i := s.free])
    case Big(i) => p.(bigPages := p.bigPages[i := s.pages], bigFree := p.bigFree[i := s.free])
    case Bulk(i) => p.(bulkPages := p.bulkPages[i := s.pages],
                       bulkFree := Listed(p.bulkFree, i, s.free, s.free.objs != map[]),
                       bulkOrder := Listed(p.bulkOrder, i, i, s.free.objs != map[]))
  }

  function Listed<V>(m: map<nat, V>, i: nat, v: V, present: bool): map<nat, V> {
    if present then m[i := v] else m - {i}
  }

  /** The pool with one slot, the heap and the registry replaced. */
  function Changed(p: Pool, k: SlotKey, s: Slot, heap: map<nat, Region>, registry: map<nat, set<nat>>): Pool {
    SetAt(p, k, s).(heap := heap, registry := registry)
  }

  lemma SetAtReads(p: Pool, k: SlotKey, s: Slot, k': SlotKey, heap: map<nat, Region>, registry: map<nat, set<nat>>)
    requires k.Bulk? && s.free.objs == map[] ==> s.free.cnt == 0
    ensures At(Changed(p, k, s, heap, registry), k') == if k' == k then s else At(p, k')
  {
  }

  lemma ListedTwice<V>(m: map<nat, V>, i: nat, a: V, b: V, before: bool, after: bool)
    ensures Listed(Listed(m, i, a, before), i, b, after) == Listed(m, i, b, after)
  {
  }

  /** Of two replacements of a bulk slot the later one counts. */
  lemma BulkSetTwice(p: Pool, i: nat, s1: Slot, s2: Slot, heap1: map<nat, Region>, registry1: map<nat, set<nat>>)
    ensures SetAt(Changed(p, Bulk(i), s1, heap1, registry1), Bulk(i), s2) == Changed(p, Bulk(i), s2, heap1, registry1)
  {
    ListedTwice(p.bulkPages, i, s1.pages, s2.pages, true, true);
    ListedTwice(p.bulkFree, i, s1.free, s2.free, s1.free.objs != map[], s2.free.objs != map[]);
    ListedTwice(p.bulkOrder, i, i, i, s1.free.objs != map[], s2.free.objs != map[]);
  }

  predicate Apart(a: nat, aBytes: nat, b: nat, bBytes: nat) {
    a + aBytes <= b || b + bBytes <= a
  }

  /** posix_memalign may return any non-null address apart from everything live. */
  predicate Accepts(heap: map<nat, Region>, offer: nat, bytes: nat) {
    0 < offer && forall q :: q in heap ==> Apart(offer, bytes, q, heap[q].bytes)
  }

  ghost function Accepted(heap: map<nat, Region>, offer: nat, bytes: nat): Option<nat> {
    if Accepts(heap, offer, bytes) then Some(offer) else None
  }

  // The registry of bulk pages, as stored.

  /** A refill attempt forgets the slot's earlier pages: the entry holds the new page, or nothing. */
  function RegistryRefilled(registry: map<nat, set<nat>>, k: SlotKey, page: Option<nat>): map<nat, set<nat>> {
    if k.Bulk? then registry[k.idx := if page.Some? then {page.value} else {}] else registry
  }

  /** m_bulk_obj_pages[slotIdx].erase(page), which makes an entry where there is none. */
  function RegistryErased(registry: map<nat, set<nat>>, k: SlotKey, page: Option<nat>): map<nat, set<nat>> {
    if k.Bulk? && page.Some?
    then registry[k.idx := (if k.idx in registry then registry[k.idx] else {}) - {page.value}]
    else registry
  }

  /** find(slotIdx), erase of the page through what it found, and erase of an entry left empty. */
  function RegistryDropped(registry: map<nat, set<nat>>, idx: nat, page: nat): map<nat, set<nat>>
    requires idx in registry
  {
    if registry[idx] - {page} == {} then registry - {idx} else registry[idx := registry[idx] - {page}]
  }

  // The steps.

  /** Get on one slot. */
  ghost predicate SlotGet(g: Geometry, p: Pool, k: SlotKey, offer: nat, p': Pool, r: Option<Grant>) {
    var o, refill := Accepted(p.heap, offer, g.pageBytes), At(p, k).free.objs == map[];
    && GetRel(g, k, At(p, k), o, At(p', k), r)
    && p' == Changed(p, k, At(p', k),
                     if refill && o.Some? then p.heap[offer := Region(g.pageBytes, k)] else p.heap,
                     if refill then RegistryRefilled(p.registry, k, o) else p.registry)
  }

  /** Put on one slot. */
  ghost predicate SlotPut(g: Geometry, p: Pool, gr: Grant, p': Pool, freed: Option<nat>) {
    && PutRel(g, At(p, gr.key), gr, At(p', gr.key), freed)
    && p' == Changed(p, gr.key, At(p', gr.key), if freed.Some? then p.heap - {freed.value} else p.heap,
                     RegistryErased(p.registry, gr.key, freed))
  }

  /** A bulk object above the reserve limit goes back to the system at once, with its page. The slot's registry entry
      is looked up unchecked, so it must exist. */
  ghost predicate DirectPut(p: Pool, gr: Grant, p': Pool)
    requires gr.key.Bulk?
  {
    var s := At(p, gr.key);
    && gr.key.idx in p.registry
    && p' == Changed(p, gr.key, Slot(s.pages - {gr.page}, s.free), p.heap - {gr.page},
                     RegistryDropped(p.registry, gr.key.idx, gr.page))
  }

  predicate Oversized(c: Config, k: SlotKey) {
    k.Bulk? && SizeOf(c, k) > RESIDENT_BULK_MAX
  }

  /** Put is defined: the registry entry an oversized object needs is there. */
  predicate Returnable(c: Config, p: Pool, gr: Grant) {
    Oversized(c, gr.key) ==> gr.key.idx in p.registry
  }

  ghost predicate PutStep(c: Config, p: Pool, gr: Grant, p': Pool) {
    if Oversized(c, gr.key) then DirectPut(p, gr, p')
    else exists freed :: SlotPut(Geo(c, gr.key), p, gr, p', freed)
  }

  /** The bulk slot a request for `need` is served from: the exact one, by the hash index; else, by the ordered index,
      the smallest one if all are larger and it is at most twice as large; else the largest one in range. */
  ghost predicate Suitable(hash: set<nat>, ordered: set<nat>, need: nat, r: Option<nat>) {
    if need in hash then r == Some(need)
    else if ordered != {} && !ScansBack(ordered, need) then
      if exists i :: i in ordered && i <= 2 * need then
        r.Some? && r.value in ordered && forall i :: i in ordered ==> r.value <= i
      else r == None
    else if exists i :: i in ordered && need < i <= 2 * need then
      r.Some? && r.value in ordered && need < r.value <= 2 * need
      && forall i :: i in ordered && need < i <= 2 * need ==> i <= r.value
    else r == None
  }

  /** The smallest key is not larger than the request, so the search goes back from the largest one. */
  ghost predicate ScansBack(ordered: set<nat>, need: nat) {
    exists i :: i in ordered && i <= need
  }

  /** One free object: taking it leaves the slot without any. */
  ghost predicate OneLeft(objs: map<nat, seq<nat>>) {
    exists q :: q in objs && objs == map[q := objs[q]] && |objs[q]| == 1
  }

  ghost predicate IsNextBelow(ordered: set<nat>, f: nat, below: nat) {
    below in ordered && below < f && forall i :: i in ordered && i < f ==> i <= below
  }

  /** The last free object of a slot other than the exact one is taken. In the backward scan the ordered index loses
      the slot; the reverse iterator then stands at the next smaller key, and that is what the hash index loses. In
      the forward branch the key is read through an erased iterator: there is no step. */
  ghost predicate TakesLast(p: Pool, need: nat, f: nat, p': Pool, r: Option<Grant>) {
    && ScansBack(p.bulkOrder.Keys, need)
    && TakeRel(Bulk(f), At(p, Bulk(f)), At(p', Bulk(f)), r)
    && exists below :: IsNextBelow(p.bulkOrder.Keys, f, below)
                       && p' == p.(bulkFree := p.bulkFree[f := At(p', Bulk(f)).free] - {below},
                                   bulkOrder := p.bulkOrder - {f})
  }

  /** A bulk request is served from a slot other than the exact one, and takes that slot's last free object. */
  ghost predicate Drains(c: Config, p: Pool, size: uint32) {
    && c.tinyThreshold < size && c.bulkThreshold < size && PageExponentOk(c)
    && exists f :: DrainsSlot(p, BulkNeed(c, size), f)
  }

  /** Only the backward scan gets past taking the last object. */
  ghost predicate LookupDefined(c: Config, p: Pool, size: uint32) {
    Drains(c, p, size) ==> ScansBack(p.bulkOrder.Keys, BulkNeed(c, size))
  }

  ghost predicate DrainsSlot(p: Pool, need: nat, f: nat) {
    && f != need && Suitable(p.bulkFree.Keys, p.bulkOrder.Keys, need, Some(f))
    && OneLeft(At(p, Bulk(f)).free.objs)
  }

  /** A request the 32-bit rounding can serve. */
  ghost predicate Request(c: Config, size: int) {
    0 < size <= TWO32 - c.pageSize
  }

  predicate PageExponentOk(c: Config) {
    1 <= Log2(c.pageSize) <= 31 && 0 < c.pageSize
  }

  /** The slot of a request up to the bulk threshold. */
  function SmallKey(c: Config, size: uint32): SlotKey
    requires PageExponentOk(c)
  {
    if size <= c.tinyThreshold then Tiny
    else if c.bigThreshold < size then Big(SlotIdx(RoundUp(size, Log2(c.pageSize)), c.pageSize))
    else Small(SlotIdx(RoundUp(size, SMALL_EXPONENT), SMALL_FOOTSTEP))
  }

  function BulkNeed(c: Config, size: uint32): nat
    requires PageExponentOk(c)
  {
    SlotIdx(RoundUp(size, Log2(c.pageSize)), c.pageSize)
  }

  /** The index of a rounded size, and what it inherits from an aligned limit. */
  lemma RoundedIdx(size: nat, d: nat, r: nat, limit: nat)
    requires 0 < d && 0 < size && IsLeastMultiple(r, size, d)
    ensures 1 <= Div(r, d) && d * Div(r, d) == r && r < size + d
    ensures limit % d == 0 && size <= limit ==> r <= limit
  {
    MulLe(d, r / d, 0);
    WholePages(size, d);
  }

  lemma RoundedRequest(e: nat, d: nat, size: uint32)
    requires 1 <= e <= 31 && d == Pow2(e) && 0 < size <= TWO32 - d
    ensures IsLeastMultiple(RoundUp(size, e), size, d)
  {
    RoundUpIsLeast(size, e);
  }

  /** With aligned thresholds every request up to the bulk threshold finds a slot the constructor created,
      and the slot's objects cover the request by less than one footstep. */
  lemma SmallKeyValid(c: Config, size: uint32)
    requires ValidConfig(c) && 0 < size && (size <= c.tinyThreshold || size <= c.bulkThreshold)
    ensures PageExponentOk(c)
    ensures ValidKey(c, SmallKey(c, size)) && size <= SizeOf(c, SmallKey(c, size))
    ensures SmallKey(c, size).Big? ==> SizeOf(c, SmallKey(c, size)) == RoundUp(size, Log2(c.pageSize))
    ensures SmallKey(c, size).Small? ==> SizeOf(c, SmallKey(c, size)) == RoundUp(size, SMALL_EXPONENT)
    ensures SmallKey(c, size).Big? ==> SizeOf(c, SmallKey(c, size)) < size + c.pageSize
    ensures SmallKey(c, size).Small? ==> SizeOf(c, SmallKey(c, size)) < size + SMALL_FOOTSTEP
  {
    PageFacts(c);
    if size > c.tinyThreshold {
      if c.bigThreshold < size {
        RoundedRequest(Log2(c.pageSize), c.pageSize, size);
        RoundedIdx(size, c.pageSize, RoundUp(size, Log2(c.pageSize)), c.bulkThreshold);
      } else {
        assert Pow2(5) == 32;
        RoundedRequest(SMALL_EXPONENT, SMALL_FOOTSTEP, size);
        RoundedIdx(size, SMALL_FOOTSTEP, RoundUp(size, SMALL_EXPONENT), c.bigThreshold);
      }
    }
  }

  /** The constructor's small and big slots are enough exactly for aligned thresholds. */
  lemma SlotsCoverIff(c: Config)
    requires ValidPageSize(c.pageSize, Log2(c.pageSize)) && 0 < c.tinyThreshold
    requires c.tinyThreshold < c.bigThreshold < c.bulkThreshold <= 0x400_0000
    ensures PageExponentOk(c)
    ensures (forall size: uint32 :: c.tinyThreshold < size <= c.bigThreshold ==> SmallKeyExists(c, size))
            <==> c.bigThreshold % SMALL_FOOTSTEP == 0
    ensures (forall size: uint32 :: c.bigThreshold < size <= c.bulkThreshold ==> SmallKeyExists(c, size))
            <==> c.bulkThreshold % c.pageSize == 0
  {
    PageSizeRange(Log2(c.pageSize));
    assert Pow2(5) == 32;
    forall size: uint32 | c.tinyThreshold < size <= c.bigThreshold
      ensures c.bigThreshold % SMALL_FOOTSTEP == 0 ==> SmallKeyExists(c, size)
    {
      IndexCreated(SMALL_EXPONENT, SMALL_FOOTSTEP, size, c.bigThreshold);
    }
    forall size: uint32 | c.bigThreshold < size <= c.bulkThreshold
      ensures c.bulkThreshold % c.pageSize == 0 ==> SmallKeyExists(c, size)
    {
      IndexCreated(Log2(c.pageSize), c.pageSize, size, c.bulkThreshold);
    }
    LastIndex(SMALL_EXPONENT, SMALL_FOOTSTEP, c.bigThreshold);
    LastIndex(Log2(c.pageSize), c.pageSize, c.bulkThreshold);
    assert SmallKeyExists(c, c.bigThreshold) ==> c.bigThreshold % SMALL_FOOTSTEP == 0;
    assert SmallKeyExists(c, c.bulkThreshold) ==> c.bulkThreshold % c.pageSize == 0;
  }

  /** Get's find() hits a slot of the constructor, whose loops run from 1 to threshold / footstep. */
  predicate SmallKeyExists(c: Config, size: uint32)
    requires PageExponentOk(c)
  {
    match SmallKey(c, size)
    case Tiny => true
    case Small(i) => 1 <= i <= Div(c.bigThreshold, SMALL_FOOTSTEP)
    case Big(i) => 1 <= i <= Div(c.bulkThreshold, c.pageSize)
    case Bulk(_) => false
  }

  lemma IndexCreated(e: nat, d: uint32, size: uint32, limit: uint32)
    requires 1 <= e <= 31 && d == Pow2(e) && 0 < size <= limit <= TWO32 - d
    ensures limit % d == 0 ==> 1 <= SlotIdx(RoundUp(size, e), d) <= Div(limit, d)
  {
    RoundedRequest(e, d, size);
    RoundedIdx(size, d, RoundUp(size, e), limit);
    if limit % d == 0 { QuotientAtLeast(limit, d, Div(RoundUp(size, e), d)); }
  }

  /** A request of exactly an unaligned threshold misses every slot. */
  lemma LastIndex(e: nat, d: uint32, limit: uint32)
    requires 1 <= e <= 31 && d == Pow2(e) && 0 < limit <= TWO32 - d
    ensures SlotIdx(RoundUp(limit, e), d) <= Div(limit, d) ==> limit % d == 0
  {
    RoundedRequest(e, d, limit);
    RoundedIdx(limit, d, RoundUp(limit, e), 0);
    UnalignedAbove(d, limit, RoundUp(limit, e));
  }

  lemma UnalignedAbove(d: nat, limit: nat, r: nat)
    requires 0 < d && limit <= r && d * Div(r, d) == r
    ensures Div(r, d) <= Div(limit, d) ==> limit % d == 0
  {
    MulLe(d, Div(r, d), Div(limit, d));
    assert limit == d * (limit / d) + limit % d;
  }

  lemma BulkNeedValid(c: Config, size: uint32)
    requires ValidConfig(c) && Request(c, size)
    ensures PageExponentOk(c)
    ensures ValidKey(c, Bulk(BulkNeed(c, size)))
    ensures SizeOf(c, Bulk(BulkNeed(c, size))) == RoundUp(size, Log2(c.pageSize))
    ensures IsLeastMultiple(SizeOf(c, Bulk(BulkNeed(c, size))), size, c.pageSize)
  {
    PageFacts(c);
    RoundedRequest(Log2(c.pageSize), c.pageSize, size);
    RoundedIdx(size, c.pageSize, RoundUp(size, Log2(c.pageSize)), 0);
  }

  /** Get: the slot is fixed by the size, except that bulk requests may be served by a larger free slot. A lookup that
      settles on a record without an object is undefined, so it has no step. */
  ghost predicate GetStep(c: Config, p: Pool, size: uint32, offer: nat, p': Pool, r: Option<Grant>)
    requires ValidConfig(c) && Request(c, size)
  {
    if size <= c.tinyThreshold || size <= c.bulkThreshold then
      SmallKeyValid(c, size);
      SlotGet(Geo(c, SmallKey(c, size)), p, SmallKey(c, size), offer, p', r)
    else
      exists found :: BulkGet(c, p, size, offer, found, p', r)
  }

  ghost predicate BulkGet(c: Config, p: Pool, size: uint32, offer: nat, found: Option<nat>, p': Pool, r: Option<Grant>)
    requires ValidConfig(c) && Request(c, size)
  {
    BulkNeedValid(c, size);
    var need := BulkNeed(c, size);
    var k := Bulk(if found.Some? then found.value else need);
    && Suitable(p.bulkFree.Keys, p.bulkOrder.Keys, need, found)
    && (found.Some? ==> At(p, k).free.objs != map[])
    && if k.idx != need && OneLeft(At(p, k).free.objs) then TakesLast(p, need, k.idx, p', r)
       else SlotGet(Geo(c, k), p, k, offer, p', r)
  }
}
