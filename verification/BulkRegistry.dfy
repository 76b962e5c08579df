/** When an object above the reserve limit may be returned: the registry of bulk pages keeps only the page of a slot's
    last refill attempt, and Put looks its entry up unchecked. */
module BulkRegistry {
  import opened Words
  import opened SlotMath
  import opened FreeLists
  import opened SlotPages
  import opened PoolState
  import opened PoolRuns
  import opened BulkRetention

  /** A step of a run with its arguments and result. */
  datatype Call = Takes(size: uint32, offer: nat, r: Option<Grant>) | Returns(gr: Grant)

  ghost predicate Calls(c: Config, s: Snapshot, e: Call, s': Snapshot) {
    match e
    case Takes(size, offer, r) => Got(c, s, size, offer, r, s')
    case Returns(gr) => Gave(c, s, gr, s')
  }

  /** A run with its calls. */
  ghost predicate IsTrace(c: Config, run: seq<Snapshot>, calls: seq<Call>) {
    && |run| == |calls| + 1 && Init(c, run[0])
    && forall i :: 0 <= i < |calls| ==> Calls(c, run[i], calls[i], run[i + 1])
  }

  lemma TraceIsRun(c: Config, run: seq<Snapshot>, calls: seq<Call>)
    requires IsTrace(c, run, calls)
    ensures IsRun(c, run)
  {
    forall i | 0 <= i < |run| - 1
      ensures Step(c, run[i], run[i + 1])
    {
      assert Calls(c, run[i], calls[i], run[i + 1]);
    }
  }

  /** A bulk request for objects of this slot. Above the limit nothing is ever free, so it is a refill attempt. */
  predicate Attempt(c: Config, size: uint32, idx: nat) {
    && c.tinyThreshold < size && c.bulkThreshold < size
    && PageExponentOk(c) && BulkNeed(c, size) == idx
  }

  /** What a client remembers of a slot above the limit: its last refill attempt, and after a refused one whether
      something of the slot was returned since. */
  datatype Standing = Untouched | Yielded(g: Grant) | Refused | Spent

  function StandingOf(c: Config, calls: seq<Call>, idx: nat): Standing {
    if calls == [] then Untouched
    else After(c, StandingOf(c, calls[..|calls| - 1], idx), calls[|calls| - 1], idx)
  }

  function After(c: Config, st: Standing, e: Call, idx: nat): Standing {
    match e
    case Takes(size, _, r) =>
      if !Attempt(c, size, idx) then st else if r.Some? then Yielded(r.value) else Refused
    case Returns(gr) =>
      if st == Refused && gr.key == Bulk(idx) then Spent else st
  }

  /** The object of the last attempt is still out, or the attempt was refused and nothing of the slot came back. */
  predicate Usable(st: Standing, out: set<Grant>) {
    match st
    case Yielded(g) => g in out
    case Refused => true
    case _ => false
  }

  /** The registry entry of a slot above the limit, from what a client remembers. */
  ghost predicate EntryIs(s: Snapshot, st: Standing, idx: nat) {
    match st
    case Untouched => idx !in s.pool.registry
    case Yielded(g) =>
      g.key == Bulk(idx)
      && if g in s.out then idx in s.pool.registry && s.pool.registry[idx] == {g.page} else idx !in s.pool.registry
    case Refused => idx in s.pool.registry && s.pool.registry[idx] == {}
    case Spent => idx !in s.pool.registry
  }

  /** The slot a Get works on, and that a slot above the limit is worked on exactly by the attempts on it. */
  lemma ServedOversized(c: Config, p: Pool, size: uint32, offer: nat, p': Pool, r: Option<Grant>, idx: nat)
    returns (k: SlotKey)
    requires ValidConfig(c) && IndicesOk(c, p) && Request(c, size) && GetStep(c, p, size, offer, p', r)
    requires !Drains(c, p, size) && Oversized(c, Bulk(idx))
    ensures ValidKey(c, k) && SlotGet(Geo(c, k), p, k, offer, p', r)
    ensures k == Bulk(idx) <==> Attempt(c, size, idx)
  {
    hide GetStep, Drains, SlotGet, BulkNeed, ValidConfig;
    k := ServingSlot(c, p, size, offer, p', r);
    if BulkSize(c, size) && BulkNeed(c, size) == idx { MulLe(c.pageSize, idx, k.idx); }
  }

  /** An attempt leaves the page it got, or nothing, in the entry; any other Get leaves the entry alone. */
  lemma GetEntry(g: Geometry, p: Pool, k: SlotKey, offer: nat, p': Pool, r: Option<Grant>, idx: nat)
    requires SlotGet(g, p, k, offer, p', r) && 0 < PerPage(g)
    requires k == Bulk(idx) ==> At(p, k).free.objs == map[]
    ensures r.Some? ==> r.value.key == k
    ensures k == Bulk(idx) ==> idx in p'.registry && p'.registry[idx] == if r.Some? then {r.value.page} else {}
    ensures k != Bulk(idx) ==> (idx in p'.registry <==> idx in p.registry)
    ensures k != Bulk(idx) && idx in p.registry ==> p'.registry[idx] == p.registry[idx]
  {
    var o := Accepted(p.heap, offer, g.pageBytes);
    if k == Bulk(idx) && o.Some? {
      assert Refilled(g, At(p, k), offer).free.objs == map[offer := Pieces(g.slotSize, offer, PerPage(g))];
      assert offer in Refilled(g, At(p, k), offer).free.objs;
    }
  }

  lemma TakesKeepsEntry(c: Config, s: Snapshot, e: Call, s': Snapshot, st: Standing, idx: nat)
    requires PoolInv(c, s.pool, s.out) && e.Takes? && Calls(c, s, e, s') && EntryIs(s, st, idx)
    requires Oversized(c, Bulk(idx))
    ensures EntryIs(s', After(c, st, e, idx), idx)
  {
    hide SlotsOk, HeapOk;
    var k := ServedOversized(c, s.pool, e.size, e.offer, s'.pool, e.r, idx);
    GeoFacts(c, k);
    GetEntry(Geo(c, k), s.pool, k, e.offer, s'.pool, e.r, idx);
  }

  /** Put of an object of the slot removes its page from the entry, and an entry left empty. */
  lemma DirectPutEntry(p: Pool, out: set<Grant>, gr: Grant, p': Pool, st: Standing)
    requires gr in out && gr.key.Bulk? && DirectPut(p, gr, p')
    requires EntryIs(Snapshot(p, out), st, gr.key.idx)
    requires forall h :: h in out - {gr} ==> h.page != gr.page
    ensures EntryIs(Snapshot(p', out - {gr}), if st == Refused then Spent else st, gr.key.idx)
  {
    if st.Yielded? && st.g in out && st.g != gr {
      assert st.g in out - {gr};
      assert {st.g.page} - {gr.page} == {st.g.page};
    }
  }

  /** Put of any other object leaves the entry alone. */
  lemma OtherPutEntry(c: Config, p: Pool, gr: Grant, p': Pool, idx: nat)
    requires PutStep(c, p, gr, p') && gr.key != Bulk(idx)
    ensures idx in p'.registry <==> idx in p.registry
    ensures idx in p.registry ==> p'.registry[idx] == p.registry[idx]
  {
    hide Geo, PutRel;
    if !Oversized(c, gr.key) {
      var freed :| SlotPut(Geo(c, gr.key), p, gr, p', freed);
    }
  }

  /** Objects of a slot above the limit each have a page of their own. */
  lemma OwnPage(c: Config, p: Pool, out: set<Grant>, gr: Grant, p': Pool)
    requires PoolInv(c, p, out) && gr in out && Oversized(c, gr.key) && DirectPut(p, gr, p')
    ensures forall h :: h in out - {gr} ==> h.page != gr.page
  {
    hide SlotsOk, HeapOk, Geo, DirectPut;
    GeoFacts(c, gr.key);
    DirectPutKeeps(c, p, out, gr, Geo(c, gr.key), p');
  }

  lemma ReturnsKeepsEntry(c: Config, s: Snapshot, e: Call, s': Snapshot, st: Standing, idx: nat)
    requires PoolInv(c, s.pool, s.out) && e.Returns? && Calls(c, s, e, s') && EntryIs(s, st, idx)
    requires Oversized(c, Bulk(idx))
    ensures EntryIs(s', After(c, st, e, idx), idx)
  {
    hide PoolInv, DirectPut, SlotPut;
    if e.gr.key == Bulk(idx) {
      OwnPage(c, s.pool, s.out, e.gr, s'.pool);
      DirectPutEntry(s.pool, s.out, e.gr, s'.pool, st);
    } else {
      OtherPutEntry(c, s.pool, e.gr, s'.pool, idx);
    }
  }

  lemma {:induction false} EntryFollows(c: Config, run: seq<Snapshot>, calls: seq<Call>, idx: nat)
    requires ValidConfig(c) && IsTrace(c, run, calls) && Oversized(c, Bulk(idx))
    ensures EntryIs(run[|calls|], StandingOf(c, calls, idx), idx)
  {
    if calls != [] {
      var n := |calls| - 1;
      EntryFollows(c, run[..|calls|], calls[..n], idx);
      TraceIsRun(c, run, calls);
      RunKeeps(c, run, n);
      assert Calls(c, run[n], calls[n], run[n + 1]);
      var st := StandingOf(c, calls[..n], idx);
      if calls[n].Takes? {
        TakesKeepsEntry(c, run[n], calls[n], run[n + 1], st, idx);
      } else {
        ReturnsKeepsEntry(c, run[n], calls[n], run[n + 1], st, idx);
      }
    }
  }

  /** Main result: at the end of any run, returning an outstanding object above the limit is defined if and only if the
      object of its slot's last refill attempt is still out, or that attempt was refused and nothing of the slot was
      returned since. */
  lemma ReturnDefinedIff(c: Config, run: seq<Snapshot>, calls: seq<Call>, gr: Grant)
    requires ValidConfig(c) && IsTrace(c, run, calls) && gr in run[|calls|].out && Oversized(c, gr.key)
    ensures Returnable(c, run[|calls|].pool, gr) <==> Usable(StandingOf(c, calls, gr.key.idx), run[|calls|].out)
  {
    EntryFollows(c, run, calls, gr.key.idx);
  }

  // How a client stays within the condition, and what happens otherwise.

  predicate OthersOut(out: set<Grant>, gr: Grant) {
    exists h :: h in out && h != gr && h.key == gr.key
  }

  /** No attempt on the slot was refused, and the newest object of the slot was returned only after the others. */
  ghost predicate NewestLast(c: Config, run: seq<Snapshot>, calls: seq<Call>, idx: nat)
    requires |run| == |calls| + 1
  {
    forall i :: 0 <= i < |calls| ==> NewestLastAt(c, run[i].out, StandingOf(c, calls[..i], idx), calls[i], idx)
  }

  ghost predicate NewestLastAt(c: Config, out: set<Grant>, st: Standing, e: Call, idx: nat) {
    match e
    case Takes(size, _, r) => Attempt(c, size, idx) ==> r.Some?
    case Returns(gr) => st == Yielded(gr) ==> !OthersOut(out, gr)
  }

  /** While anything of the slot is out, its newest object is. */
  ghost predicate NewestOut(out: set<Grant>, st: Standing, idx: nat) {
    (exists gr :: gr in out && gr.key == Bulk(idx)) ==> st.Yielded? && st.g in out
  }

  lemma NewestStep(c: Config, s: Snapshot, e: Call, s': Snapshot, st: Standing, idx: nat)
    requires PoolInv(c, s.pool, s.out) && Calls(c, s, e, s') && Oversized(c, Bulk(idx))
    requires EntryIs(s, st, idx) && NewestOut(s.out, st, idx) && NewestLastAt(c, s.out, st, e, idx)
    ensures NewestOut(s'.out, After(c, st, e, idx), idx)
  {
    hide PoolInv, PutStep, SlotGet;
    if e.Takes? { TakenKey(c, s, e, s', idx); }
  }

  /** What a Get hands out is of a slot above the limit exactly when the Get was an attempt on it. */
  lemma TakenKey(c: Config, s: Snapshot, e: Call, s': Snapshot, idx: nat)
    requires PoolInv(c, s.pool, s.out) && e.Takes? && Calls(c, s, e, s') && Oversized(c, Bulk(idx))
    ensures e.r.Some? ==> (e.r.value.key == Bulk(idx) <==> Attempt(c, e.size, idx))
  {
    hide SlotsOk, HeapOk;
    var k := ServedOversized(c, s.pool, e.size, e.offer, s'.pool, e.r, idx);
  }

  lemma Shorter(c: Config, run: seq<Snapshot>, calls: seq<Call>, idx: nat)
    requires IsTrace(c, run, calls) && NewestLast(c, run, calls, idx) && calls != []
    ensures var n := |calls| - 1;
      IsTrace(c, run[..n + 1], calls[..n]) && NewestLast(c, run[..n + 1], calls[..n], idx)
  {
    hide Calls, NewestLastAt, StandingOf, Init;
    var n := |calls| - 1;
    forall i | 0 <= i < n
      ensures NewestLastAt(c, run[..n + 1][i].out, StandingOf(c, calls[..n][..i], idx), calls[..n][i], idx)
    {
      assert calls[..n][..i] == calls[..i];
      assert NewestLastAt(c, run[i].out, StandingOf(c, calls[..i], idx), calls[i], idx);
    }
  }

  /** A client that returns the newest object of such a slot last can return every object of it. */
  lemma {:induction false} NewestLastSuffices(c: Config, run: seq<Snapshot>, calls: seq<Call>, idx: nat)
    requires ValidConfig(c) && IsTrace(c, run, calls) && Oversized(c, Bulk(idx)) && NewestLast(c, run, calls, idx)
    ensures NewestOut(run[|calls|].out, StandingOf(c, calls, idx), idx)
    ensures forall gr :: gr in run[|calls|].out && gr.key == Bulk(idx) ==> Returnable(c, run[|calls|].pool, gr)
  {
    hide PoolInv, Calls, FreshSlots, ValidKey;
    EntryFollows(c, run, calls, idx);
    if calls != [] {
      var n := |calls| - 1;
      var before, calls' := run[..|calls|], calls[..n];
      Shorter(c, run, calls, idx);
      NewestLastSuffices(c, before, calls', idx);
      EntryFollows(c, before, calls', idx);
      TraceIsRun(c, run, calls);
      RunKeeps(c, run, n);
      assert Calls(c, run[n], calls[n], run[n + 1]);
      NewestStep(c, run[n], calls[n], run[n + 1], StandingOf(c, calls', idx), idx);
    }
  }

  /** With no free bulk object at all, a request above the limit is served from a new page. */
  lemma TakeOversized(c: Config, s: Snapshot, size: uint32, page: nat) returns (s': Snapshot, gr: Grant)
    requires ValidConfig(c) && Request(c, size) && c.tinyThreshold < size && c.bulkThreshold < size
    requires RESIDENT_BULK_MAX < size && PageExponentOk(c) && s.pool.bulkFree == map[] && s.pool.bulkOrder == map[]
    requires Accepts(s.pool.heap, page, Geo(c, Bulk(BulkNeed(c, size))).pageBytes)
    ensures Calls(c, s, Takes(size, page, Some(gr)), s') && s'.out == s.out + {gr}
    ensures gr == Grant(Bulk(BulkNeed(c, size)), page, page) && Oversized(c, gr.key)
    ensures s'.pool.bulkFree == map[] && s'.pool.bulkOrder == map[]
    ensures s'.pool.registry == s.pool.registry[gr.key.idx := {page}]
    ensures s'.pool.heap == s.pool.heap[page := Region(Geo(c, gr.key).pageBytes, gr.key)]
  {
    BulkNeedValid(c, size);
    var need := BulkNeed(c, size);
    GeoFacts(c, Bulk(need));
    gr := Grant(Bulk(need), page, page);
    var p', r := TakeNewPage(Geo(c, Bulk(need)), Bulk(need), s.pool, page);
    s' := Snapshot(p', s.out + {gr});
    NothingListed(s.pool, need);
    assert BulkGet(c, s.pool, size, page, None, p', r);
  }

  /** For every size above the limit: of two objects, returning the newest first leaves no way to return the other,
      though nothing else was ever requested and no page was refused. */
  lemma NewestFirstFails(c: Config, size: uint32)
    returns (run: seq<Snapshot>, calls: seq<Call>, a: Grant, b: Grant)
    requires ValidConfig(c) && Request(c, size) && c.tinyThreshold < size && c.bulkThreshold < size
    requires RESIDENT_BULK_MAX < size
    ensures IsTrace(c, run, calls)
    ensures calls == [Takes(size, a.page, Some(a)), Takes(size, b.page, Some(b)), Returns(b)]
    ensures a in run[3].out && !Returnable(c, run[3].pool, a)
  {
    hide RoundUp, SizeOf, GetStep, PutStep;
    BulkNeedValid(c, size);
    var bytes := Geo(c, Bulk(BulkNeed(c, size))).pageBytes;
    var s0 := InitialOf(c);
    var s1, s2;
    s1, a := TakeOversized(c, s0, size, 1);
    s2, b := TakeOversized(c, s1, size, 1 + bytes);
    var s3 := ReturnNewest(c, s2, a, b);
    run, calls := [s0, s1, s2, s3], [Takes(size, a.page, Some(a)), Takes(size, b.page, Some(b)), Returns(b)];
  }

  /** Put of the object whose page is the whole entry erases the entry. */
  lemma ReturnNewest(c: Config, s: Snapshot, a: Grant, b: Grant) returns (s': Snapshot)
    requires Oversized(c, a.key) && a.key == b.key && a in s.out && b in s.out && a != b
    requires b.key.idx in s.pool.registry && s.pool.registry[b.key.idx] == {b.page}
    ensures Calls(c, s, Returns(b), s') && a in s'.out && !Returnable(c, s'.pool, a)
  {
    var slot := At(s.pool, b.key);
    s' := Snapshot(Changed(s.pool, b.key, Slot(slot.pages - {b.page}, slot.free), s.pool.heap - {b.page},
                           RegistryDropped(s.pool.registry, b.key.idx, b.page)), s.out - {b});
    assert {b.page} - {b.page} == {};
  }
}
