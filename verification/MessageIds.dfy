/** Message ids: a counter that skips zero and the largest word. */
module MessageIds {
  import W = Words

  type uint32 = W.uint32

  const UINT32_MAX: uint32 := 0xffff_ffff

  /** How many ids there are before they repeat. */
  const PERIOD: nat := 0xffff_fffe

  class IdSource {
    var lastId: uint32
    /** The ids handed out, in order. */
    ghost var given: seq<uint32>

    constructor ()
      ensures Valid() && given == [] && lastId == 0
    {
      lastId, given := 0, [];
    }

    ghost predicate Valid()
      reads this
    {
      && lastId == (if given == [] then 0 else given[|given| - 1])
      && forall n :: 0 <= n < |given| ==> given[n] == Nth(n + 1)
    }

    method GetNewId() returns (id: uint32)
      requires Valid()
      modifies this
      ensures Valid() && given == old(given) + [id] && id == Nth(|given|)
      ensures id == if old(lastId) == 0xffff_fffe then 1 else old(lastId) + 1
    {
      ghost var n := |given|;
      if n > 0 { NthInRange(n); }
      lastId := (lastId + 1) % 0x1_0000_0000;
      if lastId == UINT32_MAX {
        lastId := 1;
      }
      id := lastId;
      NthSucceeds(n);
      given := given + [id];
    }
  }

  /** The n-th id, counting from 1. */
  function Nth(n: nat): uint32
    requires 0 < n
  {
    (n - 1) % PERIOD + 1
  }

  /** Neither 0 nor UINT32_MAX is ever an id; until they repeat, ids count from 1. */
  lemma NthInRange(n: nat)
    requires 0 < n
    ensures 0 < Nth(n) < 0xffff_ffff
    ensures n <= 0xffff_fffe ==> Nth(n) == n
  {
  }

  lemma NthSucceeds(n: nat)
    ensures Nth(n + 1) == if n == 0 then 1 else if Nth(n) + 1 == UINT32_MAX then 1 else Nth(n) + 1
  {
    if n > 0 {
      var q, r := (n - 1) / PERIOD, (n - 1) % PERIOD;
      if r + 1 < PERIOD {
        W.QuotientUnique(n, PERIOD, q, r + 1);
      } else {
        W.QuotientUnique(n, PERIOD, q + 1, 0);
      }
    }
  }

  /** Two ids are equal exactly when they are a whole number of periods apart; so any 2^32 - 2 consecutive ids are
      distinct. */
  lemma IdsRepeatIff(a: nat, b: nat)
    requires 0 < a <= b
    ensures Nth(a) == Nth(b) <==> (b - a) % PERIOD == 0
    ensures a < b < a + PERIOD ==> Nth(a) != Nth(b)
  {
    var p, r := (a - 1) / PERIOD, (a - 1) % PERIOD;
    var q, s := (b - 1) / PERIOD, (b - 1) % PERIOD;
    assert b - a == PERIOD * (q - p) + (s - r);
    if r <= s {
      W.QuotientUnique(b - a, PERIOD, q - p, s - r);
    } else {
      W.QuotientUnique(b - a, PERIOD, q - p - 1, PERIOD + s - r);
    }
    if b - a < PERIOD {
      W.QuotientUnique(b - a, PERIOD, 0, b - a);
    }
  }
}
