/** Per-page free lists: sizes of the lists of a slot, lists without repetitions, and the pigeonhole step. */
module FreeLists {
  import opened Words

  /** Objects on all free lists of a slot. */
  ghost function Total(objs: map<nat, seq<nat>>): nat
    decreases |objs|
  {
    if objs == map[] then 0
    else
      var p :| p in objs;
      |objs[p]| + Total(objs - {p})
  }

  /** Any page may be counted first. */
  lemma {:induction false} TotalWithout(objs: map<nat, seq<nat>>, p: nat)
    requires p in objs
    ensures Total(objs) == |objs[p]| + Total(objs - {p})
    decreases |objs|
  {
    var q :| q in objs && Total(objs) == |objs[q]| + Total(objs - {q});
    if q != p {
      TotalWithout(objs - {q}, p);
      TotalWithout(objs - {p}, q);
      assert objs - {q} - {p} == objs - {p} - {q};
    }
  }

  lemma TotalReplace(objs: map<nat, seq<nat>>, p: nat, list: seq<nat>)
    ensures Total(objs[p := list]) == |list| + Total(objs - {p})
  {
    TotalWithout(objs[p := list], p);
    assert objs[p := list] - {p} == objs - {p};
  }

  lemma TotalAbsent(objs: map<nat, seq<nat>>, p: nat)
    requires p !in objs
    ensures objs - {p} == objs
  {
  }

  /** A slot with some page entry that is not empty has at least one free object. */
  lemma TotalPositive(objs: map<nat, seq<nat>>, p: nat)
    requires p in objs && objs[p] != []
    ensures 0 < Total(objs)
  {
    TotalWithout(objs, p);
  }

  ghost predicate NoRepeats(list: seq<nat>) {
    forall i, j :: 0 <= i < j < |list| ==> list[i] != list[j]
  }

  ghost function Elements(list: seq<nat>): set<nat> {
    set o | o in list
  }

  lemma {:induction false} NoRepeatsCard(list: seq<nat>)
    requires NoRepeats(list)
    ensures |Elements(list)| == |list|
  {
    if list == [] {
    } else {
      NoRepeatsCard(list[1..]);
      assert Elements(list) == {list[0]} + Elements(list[1..]);
      assert list[0] !in list[1..];
    }
  }

  /** The i-th object of a page cut into pieces of slotSize bytes. */
  function ObjAt(slotSize: nat, page: nat, i: nat): nat {
    page + slotSize * i
  }

  ghost predicate IsObjOf(slotSize: nat, page: nat, cnt: nat, o: nat) {
    exists i: nat :: i < cnt && o == ObjAt(slotSize, page, i)
  }

  /** What split_mem_page returns. */
  function Pieces(slotSize: nat, page: nat, cnt: nat): (list: seq<nat>)
    ensures |list| == cnt
    ensures forall i: nat :: i < cnt ==> list[i] == ObjAt(slotSize, page, i)
  {
    seq(cnt, i requires 0 <= i => ObjAt(slotSize, page, i))
  }

  lemma PieceOrder(slotSize: nat, page: nat, i: nat, j: nat)
    requires 0 < slotSize && i < j
    ensures ObjAt(slotSize, page, i) + slotSize <= ObjAt(slotSize, page, j)
  {
    MulLe(slotSize, i + 1, j);
  }

  lemma PiecesNoRepeats(slotSize: nat, page: nat, cnt: nat)
    requires 0 < slotSize
    ensures NoRepeats(Pieces(slotSize, page, cnt))
  {
    forall i: nat, j: nat | i < j < cnt
      ensures Pieces(slotSize, page, cnt)[i] != Pieces(slotSize, page, cnt)[j]
    {
      PieceOrder(slotSize, page, i, j);
    }
  }

  /** Pigeonhole: a list without repetitions that holds cnt of the cnt objects of a page holds each of them. */
  lemma FullListHoldsAll(slotSize: nat, page: nat, cnt: nat, list: seq<nat>, o: nat)
    requires 0 < slotSize && NoRepeats(list) && cnt <= |list|
    requires forall x :: x in list ==> IsObjOf(slotSize, page, cnt, x)
    requires IsObjOf(slotSize, page, cnt, o)
    ensures o in list && |list| == cnt
  {
    var all := Pieces(slotSize, page, cnt);
    PiecesNoRepeats(slotSize, page, cnt);
    NoRepeatsCard(all);
    NoRepeatsCard(list);
    forall x | x in Elements(list)
      ensures x in Elements(all)
    {
      var i: nat :| i < cnt && x == ObjAt(slotSize, page, i);
      assert all[i] == x;
    }
    SubsetFills(Elements(list), Elements(all));
    var i: nat :| i < cnt && o == ObjAt(slotSize, page, i);
    assert all[i] == o;
    assert o in Elements(all);
  }

  /** A subset at least as large as the set is the whole set. */
  lemma SubsetFills(a: set<nat>, b: set<nat>)
    requires a <= b && |b| <= |a|
    ensures a == b
  {
    assert |b| == |a| + |b - a| by { assert b == a + (b - a); }
  }
}
