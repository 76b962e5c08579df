/** One slot of the pool: its pages, the free list of every page, and what a single Get or Put does to them. */
module SlotPages {
  import opened Words
  import opened FreeLists

  datatype Option<+T> = None | Some(value: T)

  /** The four size classes; small, big and bulk objects live in numbered slots. */
  datatype SlotKey = Tiny | Small(idx: nat) | Big(idx: nat) | Bulk(idx: nat)

  /** An object in the hands of a client: its slot, its address and the page it was cut from. */
  datatype Grant = Grant(key: SlotKey, obj: nat, page: nat)

  /** slotSize: bytes per object; pageBytes: bytes per allocated page; fullCnt: the list length at which Put
      takes a page for entirely free; resident: the high-water mark. */
  datatype Geometry = Geometry(slotSize: nat, pageBytes: nat, fullCnt: nat, resident: nat)

  /** SlotObjPage: per page the free objects, and their number. */
  datatype FreeList = FreeList(objs: map<nat, seq<nat>>, cnt: int)

  datatype Slot = Slot(pages: set<nat>, free: FreeList)

  ghost predicate Sound(g: Geometry) {
    0 < g.slotSize <= g.pageBytes && PerPage(g) <= g.fullCnt
  }

  /** Objects cut from one page. */
  function PerPage(g: Geometry): nat {
    if g.slotSize == 0 then 0 else Div(g.pageBytes, g.slotSize)
  }

  function ListOf(objs: map<nat, seq<nat>>, page: nat): seq<nat> {
    if page in objs then objs[page] else []
  }

  // What the container operations of Get and Put do.

  function Refilled(g: Geometry, s: Slot, page: nat): Slot
  {
    Slot(s.pages + {page}, FreeList(s.free.objs[page := Pieces(g.slotSize, page, PerPage(g))], PerPage(g)))
  }

  function TakenFrom(objs: map<nat, seq<nat>>, page: nat): map<nat, seq<nat>>
    requires page in objs && objs[page] != []
  {
    if |objs[page]| == 1 then objs - {page} else objs[page := objs[page][1..]]
  }

  function Taken(s: Slot, page: nat): Slot
    requires page in s.free.objs && s.free.objs[page] != []
  {
    s.(free := FreeList(TakenFrom(s.free.objs, page), s.free.cnt - 1))
  }

  function Pushed(s: Slot, page: nat, obj: nat): Slot {
    s.(free := FreeList(s.free.objs[page := ListOf(s.free.objs, page) + [obj]], s.free.cnt + 1))
  }

  function Dropped(s: Slot, page: nat, n: nat): Slot {
    Slot(s.pages - {page}, FreeList(s.free.objs - {page}, s.free.cnt - n))
  }

  // The two operations on a slot, as relations: which page an unordered_map yields first is left open.

  /** Get: refill an empty slot if the allocator supplies a page, then take the first object of some page. */
  ghost predicate GetRel(g: Geometry, key: SlotKey, s: Slot, offer: Option<nat>, s': Slot, r: Option<Grant>) {
    var s1 := if s.free.objs == map[] && offer.Some? then Refilled(g, s, offer.value) else s;
    if s1.free.objs == map[] then r == None && s' == s1
    else TakeRel(key, s1, s', r)
  }

  ghost predicate TakeRel(key: SlotKey, s: Slot, s': Slot, r: Option<Grant>) {
    && r.Some? && r.value.key == key
    && r.value.page in s.free.objs && s.free.objs[r.value.page] != []
    && r.value.obj == s.free.objs[r.value.page][0]
    && s' == Taken(s, r.value.page)
  }

  ghost predicate IsFull(g: Geometry, s: Slot, page: nat) {
    page in s.free.objs && |s.free.objs[page]| == g.fullCnt
  }

  /** Put: return the object, and past the high-water mark release some entirely free page if there is one. */
  ghost predicate PutRel(g: Geometry, s: Slot, gr: Grant, s': Slot, freed: Option<nat>) {
    var s1 := Pushed(s, gr.page, gr.obj);
    if s1.free.cnt >= g.resident + g.fullCnt && exists p :: IsFull(g, s1, p) then
      freed.Some? && IsFull(g, s1, freed.value) && s' == Dropped(s1, freed.value, g.fullCnt)
    else
      freed == None && s' == s1
  }

  // Ownership: free list and outstanding objects split every page.

  ghost predicate PageSplit(g: Geometry, key: SlotKey, page: nat, list: seq<nat>, out: set<Grant>)
  {
    && NoRepeats(list)
    && (forall o :: o in list ==> IsObjOf(g.slotSize, page, PerPage(g), o) && Grant(key, o, page) !in out)
    && (forall gr :: gr in out && gr.key == key && gr.page == page
          ==> IsObjOf(g.slotSize, page, PerPage(g), gr.obj))
    && (forall i: nat :: i < PerPage(g)
          ==> ObjAt(g.slotSize, page, i) in list || Grant(key, ObjAt(g.slotSize, page, i), page) in out)
  }

  ghost predicate SlotInv(g: Geometry, key: SlotKey, s: Slot, out: set<Grant>)
  {
    && s.free.objs.Keys <= s.pages
    && (forall p :: p in s.free.objs ==> s.free.objs[p] != [])
    && (forall gr :: gr in out && gr.key == key ==> gr.page in s.pages)
    && (forall p {:trigger PageSplit(g, key, p, ListOf(s.free.objs, p), out)} ::
          p in s.pages ==> PageSplit(g, key, p, ListOf(s.free.objs, p), out))
    // The counter of the tiny class starts uninitialised; from the first page on it is exact.
    && (s.pages == {} || s.free.cnt == Total(s.free.objs))
  }

  /** The retention bound: below the high-water mark plus one page, or no page entirely free. */
  ghost predicate Bounded(g: Geometry, s: Slot) {
    Total(s.free.objs) < g.resident + g.fullCnt || forall p :: !IsFull(g, s, p)
  }

  /** A full free list leaves nothing outstanding on its page. */
  lemma FullPageHasNothingOut(g: Geometry, key: SlotKey, s: Slot, out: set<Grant>, page: nat)
    requires Sound(g) && SlotInv(g, key, s, out) && IsFull(g, s, page)
    ensures forall gr :: gr in out && gr.key == key ==> gr.page != page
  {
    forall gr | gr in out && gr.key == key && gr.page == page
      ensures false
    {
      assert PageSplit(g, key, page, ListOf(s.free.objs, page), out);
      FullListHoldsAll(g.slotSize, page, PerPage(g), s.free.objs[page], gr.obj);
    }
  }

  lemma RefillKeeps(g: Geometry, key: SlotKey, s: Slot, out: set<Grant>, page: nat)
    requires Sound(g) && SlotInv(g, key, s, out)
    requires s.free.objs == map[] && page !in s.pages && 0 < PerPage(g)
    ensures SlotInv(g, key, Refilled(g, s, page), out)
  {
    var s' := Refilled(g, s, page);
    var cut := Pieces(g.slotSize, page, PerPage(g));
    PiecesNoRepeats(g.slotSize, page, PerPage(g));
    TotalReplace(s.free.objs, page, cut);
    assert s.free.objs - {page} == map[];
    forall p | p in s'.pages
      ensures PageSplit(g, key, p, ListOf(s'.free.objs, p), out)
    {
      if p == page {
        forall o | o in cut
          ensures IsObjOf(g.slotSize, page, PerPage(g), o)
        {
          var i :| 0 <= i < |cut| && cut[i] == o;
          assert o == ObjAt(g.slotSize, page, i);
        }
        forall i: nat | i < PerPage(g)
          ensures ObjAt(g.slotSize, page, i) in cut
        {
          assert cut[i] == ObjAt(g.slotSize, page, i);
        }
      } else {
        assert PageSplit(g, key, p, ListOf(s.free.objs, p), out);
      }
    }
  }

  /** Taking the first free object of a page hands out an object nobody holds. */
  lemma TakeKeeps(g: Geometry, key: SlotKey, s: Slot, out: set<Grant>, page: nat)
    requires Sound(g) && SlotInv(g, key, s, out) && page in s.free.objs
    ensures var gr := Grant(key, s.free.objs[page][0], page);
            gr !in out && SlotInv(g, key, Taken(s, page), out + {gr})
  {
    var list := s.free.objs[page];
    var gr := Grant(key, list[0], page);
    var s', out' := Taken(s, page), out + {gr};
    assert PageSplit(g, key, page, ListOf(s.free.objs, page), out);
    TotalWithout(s.free.objs, page);
    TotalReplace(s.free.objs, page, list[1..]);
    forall p | p in s'.pages
      ensures PageSplit(g, key, p, ListOf(s'.free.objs, p), out')
    {
      assert PageSplit(g, key, p, ListOf(s.free.objs, p), out);
      if p == page {
        assert ListOf(s'.free.objs, p) == list[1..];
        assert list == [list[0]] + list[1..];
      } else {
        assert ListOf(s'.free.objs, p) == ListOf(s.free.objs, p);
      }
    }
  }

  /** Returning an object that was out undoes the hand-out. */
  lemma PushKeeps(g: Geometry, key: SlotKey, s: Slot, out: set<Grant>, gr: Grant)
    requires Sound(g) && SlotInv(g, key, s, out) && gr in out && gr.key == key
    ensures SlotInv(g, key, Pushed(s, gr.page, gr.obj), out - {gr})
    ensures Total(Pushed(s, gr.page, gr.obj).free.objs) == Total(s.free.objs) + 1
  {
    var s', out' := Pushed(s, gr.page, gr.obj), out - {gr};
    var list := ListOf(s.free.objs, gr.page);
    TotalReplace(s.free.objs, gr.page, list + [gr.obj]);
    if gr.page in s.free.objs {
      TotalWithout(s.free.objs, gr.page);
    } else {
      TotalAbsent(s.free.objs, gr.page);
    }
    forall p | p in s'.pages
      ensures PageSplit(g, key, p, ListOf(s'.free.objs, p), out')
    {
      assert PageSplit(g, key, p, ListOf(s.free.objs, p), out);
      if p == gr.page {
        assert ListOf(s'.free.objs, p) == list + [gr.obj];
        assert gr == Grant(key, gr.obj, p);
      } else {
        assert ListOf(s'.free.objs, p) == ListOf(s.free.objs, p);
      }
    }
  }

  /** Releasing an entirely free page takes nothing away from any client. */
  lemma DropKeeps(g: Geometry, key: SlotKey, s: Slot, out: set<Grant>, page: nat)
    requires Sound(g) && SlotInv(g, key, s, out) && IsFull(g, s, page)
    ensures SlotInv(g, key, Dropped(s, page, g.fullCnt), out)
    ensures Total(Dropped(s, page, g.fullCnt).free.objs) == Total(s.free.objs) - g.fullCnt
  {
    FullPageHasNothingOut(g, key, s, out, page);
    TotalWithout(s.free.objs, page);
    var s' := Dropped(s, page, g.fullCnt);
    forall p | p in s'.pages
      ensures PageSplit(g, key, p, ListOf(s'.free.objs, p), out)
    {
      assert PageSplit(g, key, p, ListOf(s.free.objs, p), out);
      assert ListOf(s'.free.objs, p) == ListOf(s.free.objs, p);
    }
  }

  function Extend(out: set<Grant>, r: Option<Grant>): set<Grant> {
    if r.Some? then out + {r.value} else out
  }

  /** Get keeps the ownership split and hands out a new object; without an offer it fails only on an empty slot. */
  lemma GetKeeps(g: Geometry, key: SlotKey, s: Slot, out: set<Grant>, offer: Option<nat>, s': Slot, r: Option<Grant>)
    requires Sound(g) && 0 < PerPage(g) && SlotInv(g, key, s, out)
    requires offer.Some? ==> offer.value !in s.pages
    requires GetRel(g, key, s, offer, s', r)
    ensures SlotInv(g, key, s', Extend(out, r))
    ensures r.Some? ==> r.value !in out && r.value.page in s'.pages
    ensures r == None <==> s.free.objs == map[] && offer == None
  {
    var refill := s.free.objs == map[] && offer.Some?;
    if refill { RefillKeeps(g, key, s, out, offer.value); }
    var s1 := if refill then Refilled(g, s, offer.value) else s;
    if refill { assert offer.value in s1.free.objs; }
    if s1.free.objs != map[] {
      TakeKeeps(g, key, s1, out, r.value.page);
      assert r.value == Grant(key, s1.free.objs[r.value.page][0], r.value.page);
    }
  }

  lemma PutKeeps(g: Geometry, key: SlotKey, s: Slot, out: set<Grant>, gr: Grant, s': Slot, freed: Option<nat>)
    requires Sound(g) && SlotInv(g, key, s, out) && gr in out && gr.key == key
    requires PutRel(g, s, gr, s', freed)
    ensures SlotInv(g, key, s', out - {gr})
    ensures freed.Some? ==> forall h :: h in out - {gr} && h.key == key ==> h.page != freed.value
  {
    var s1 := Pushed(s, gr.page, gr.obj);
    PushKeeps(g, key, s, out, gr);
    if freed.Some? {
      FullPageHasNothingOut(g, key, s1, out - {gr}, freed.value);
      DropKeeps(g, key, s1, out - {gr}, freed.value);
    }
  }

  /** Get never breaks the retention bound. */
  lemma GetBounded(g: Geometry, key: SlotKey, s: Slot, out: set<Grant>, offer: Option<nat>, s': Slot, r: Option<Grant>)
    requires Sound(g) && 0 < PerPage(g) && SlotInv(g, key, s, out) && Bounded(g, s)
    requires offer.Some? ==> offer.value !in s.pages
    requires GetRel(g, key, s, offer, s', r)
    ensures Bounded(g, s')
  {
    if r.Some? {
      if s.free.objs == map[] {
        RefillKeeps(g, key, s, out, offer.value);
        TotalReplace(s.free.objs, offer.value, Pieces(g.slotSize, offer.value, PerPage(g)));
        assert s.free.objs - {offer.value} == map[];
        TakeShrinks(Refilled(g, s, offer.value), r.value.page);
      } else {
        TakeShrinks(s, r.value.page);
        TakenPageNotFull(g, key, s, out, r.value.page);
        assert forall p :: p != r.value.page ==> (IsFull(g, s', p) <==> IsFull(g, s, p));
      }
    }
  }

  lemma TakeShrinks(s: Slot, page: nat)
    requires page in s.free.objs && s.free.objs[page] != []
    ensures Total(Taken(s, page).free.objs) == Total(s.free.objs) - 1
  {
    TotalWithout(s.free.objs, page);
    TotalReplace(s.free.objs, page, s.free.objs[page][1..]);
  }

  lemma TakenPageNotFull(g: Geometry, key: SlotKey, s: Slot, out: set<Grant>, page: nat)
    requires Sound(g) && SlotInv(g, key, s, out) && page in s.free.objs
    ensures !IsFull(g, Taken(s, page), page)
  {
    assert PageSplit(g, key, page, ListOf(s.free.objs, page), out);
    var list := s.free.objs[page];
    if |list| > PerPage(g) {
      FullListHoldsAll(g.slotSize, page, PerPage(g), list, list[0]);
    }
  }

  /** A push can fill only the page it goes to. */
  lemma PushFillsOnePage(g: Geometry, s: Slot, gr: Grant, p: nat)
    requires p != gr.page
    ensures IsFull(g, Pushed(s, gr.page, gr.obj), p) <==> IsFull(g, s, p)
  {
  }

  /** Put keeps the retention bound: past the mark it releases a page, or there is none to release. */
  lemma PutBounded(g: Geometry, key: SlotKey, s: Slot, out: set<Grant>, gr: Grant, s': Slot, freed: Option<nat>)
    requires Sound(g) && 0 < g.fullCnt && SlotInv(g, key, s, out) && Bounded(g, s)
    requires gr in out && gr.key == key && PutRel(g, s, gr, s', freed)
    ensures Bounded(g, s')
  {
    var s1 := Pushed(s, gr.page, gr.obj);
    PushKeeps(g, key, s, out, gr);
    if freed.Some? {
      DropKeeps(g, key, s1, out - {gr}, freed.value);
      if Total(s.free.objs) >= g.resident + g.fullCnt {
        forall p
          ensures !IsFull(g, s', p)
        {
          if p != gr.page { PushFillsOnePage(g, s, gr, p); }
          if freed.value != gr.page { PushFillsOnePage(g, s, gr, freed.value); }
        }
      }
    } else {
      CounterExact(g, key, s1, out - {gr}, gr.page);
    }
  }

  lemma CounterExact(g: Geometry, key: SlotKey, s: Slot, out: set<Grant>, page: nat)
    requires SlotInv(g, key, s, out) && page in s.free.objs
    ensures s.free.cnt == Total(s.free.objs)
  {
  }

  /** Once everything is returned, the bound limits what is kept. */
  lemma AllReturnedBound(g: Geometry, key: SlotKey, s: Slot, out: set<Grant>)
    requires Sound(g) && g.fullCnt == PerPage(g) && 0 < g.fullCnt
    requires SlotInv(g, key, s, out) && Bounded(g, s)
    requires forall gr :: gr in out ==> gr.key != key
    ensures Total(s.free.objs) < g.resident + g.fullCnt
  {
    if s.free.objs != map[] {
      var p :| p in s.free.objs;
      AllFreePageIsFull(g, key, s, out, p);
    }
  }

  lemma AllFreePageIsFull(g: Geometry, key: SlotKey, s: Slot, out: set<Grant>, page: nat)
    requires Sound(g) && g.fullCnt == PerPage(g) && SlotInv(g, key, s, out) && page in s.free.objs
    requires forall gr :: gr in out ==> gr.key != key
    ensures IsFull(g, s, page)
  {
    var list, all := s.free.objs[page], Pieces(g.slotSize, page, PerPage(g));
    assert PageSplit(g, key, page, ListOf(s.free.objs, page), out);
    PiecesNoRepeats(g.slotSize, page, PerPage(g));
    NoRepeatsCard(all);
    NoRepeatsCard(list);
    assert Elements(all) == Elements(list) by {
      forall o | o in all
        ensures o in list
      {
        var i :| 0 <= i < |all| && all[i] == o;
        assert o == ObjAt(g.slotSize, page, i);
      }
      forall o | o in list
        ensures o in all
      {
        var i: nat :| i < PerPage(g) && o == ObjAt(g.slotSize, page, i);
        assert all[i] == o;
      }
    }
  }
}
