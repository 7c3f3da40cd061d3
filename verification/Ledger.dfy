/**
 Book-keeping of sectors: a free map, the sectors each owner holds, and the sectors in use
 that belong to nobody.
 */
module Ledger {
  import opened Sequences

  /** Lengthening two parts of a list by values it does not have keeps it free of repeats. */
  lemma NoDupGrow(x: nat, a: seq<nat>, a': seq<nat>, c: seq<nat>, c': seq<nat>)
    requires NoDup([x] + a + c) && NoDup(a' + c') && Apart([x] + a + c, a' + c')
    ensures NoDup([x] + (a + a') + (c + c'))
    ensures forall y :: y in [x] + (a + a') + (c + c') <==> y in [x] + a + c || y in a' + c'
    ensures Apart(a, c + c')
  {
    NoDupConcat([x] + a, c);
    NoDupConcat([x], a);
    NoDupConcat(a', c');
    assert forall y :: y in a' || y in c' ==> y in a' + c';
    assert forall y :: y == x || y in a || y in c ==> y in [x] + a + c;
    NoDupConcat(a, a');
    NoDupConcat(c, c');
    NoDupConcat([x], a + a');
    NoDupConcat([x] + (a + a'), c + c');
  }

  predicate Has(owned: map<nat, seq<nat>>, i: nat, k: nat) { i in owned && k in owned[i] }

  /** Nothing is owned twice, and a sector is marked in the free map exactly when somebody
      owns it or it is accounted for in `unowned`. */
  ghost predicate LedgerOk(used: seq<bool>, owned: map<nat, seq<nat>>, unowned: set<nat>) {
    && (forall i :: i in owned ==> NoDup(owned[i]))
    && (forall i: nat, j: nat, k: nat :: Has(owned, i, k) && Has(owned, j, k) ==> i == j)
    && (forall i: nat, k: nat :: Has(owned, i, k) ==> k < |used| && k !in unowned)
    && (forall k :: k in unowned ==> k < |used|)
    && (forall k :: 0 <= k < |used| ==> (used[k] <==> k in unowned || exists i: nat :: Has(owned, i, k)))
  }

  /** The free map gained exactly the sectors `gained`, all of them free before. */
  predicate Taken(used: seq<bool>, used': seq<bool>, gained: seq<nat>) {
    && |used| == |used'| && NoDup(gained)
    && (forall k :: k in gained ==> k < |used| && !used[k])
    && forall k :: 0 <= k < |used| ==> (used'[k] <==> used[k] || k in gained)
  }

  /** The free map lost exactly the sectors `lost`. */
  predicate Released(used: seq<bool>, used': seq<bool>, lost: seq<nat>) {
    && |used| == |used'|
    && forall k :: 0 <= k < |used| ==> (used'[k] <==> used[k] && k !in lost)
  }

  lemma TakenTwice(used: seq<bool>, used': seq<bool>, used'': seq<bool>, a: seq<nat>, b: seq<nat>)
    requires Taken(used, used', a) && Taken(used', used'', b)
    ensures Taken(used, used'', a + b)
  {
    NoDupConcat(a, b);
  }

  /** An owner, old or new, takes sectors. */
  lemma OwnerGains(used: seq<bool>, used': seq<bool>, owned: map<nat, seq<nat>>, unowned: set<nat>,
                   i: nat, now: seq<nat>, gained: seq<nat>)
    requires LedgerOk(used, owned, unowned) && Taken(used, used', gained)
    requires NoDup(now) && forall k :: k in now <==> Has(owned, i, k) || k in gained
    ensures LedgerOk(used', owned[i := now], unowned)
  {
    var owned' := owned[i := now];
    assert forall j: nat, k: nat :: j != i ==> (Has(owned', j, k) <==> Has(owned, j, k));
    assert forall k: nat :: Has(owned', i, k) <==> Has(owned, i, k) || k in gained;
    forall k | 0 <= k < |used'| ensures used'[k] <==> k in unowned || exists j: nat :: Has(owned', j, k) {
      if k in gained {
        assert Has(owned', i, k);
      } else if used[k] && k !in unowned {
        var j: nat :| Has(owned, j, k);
        assert Has(owned', j, k);
      }
    }
  }

  /** Sectors are taken but reach no owner. */
  lemma NobodyGains(used: seq<bool>, used': seq<bool>, owned: map<nat, seq<nat>>, unowned: set<nat>, gained: seq<nat>)
    requires LedgerOk(used, owned, unowned) && Taken(used, used', gained)
    ensures LedgerOk(used', owned, unowned + set k | k in gained)
  {
  }

  /** An owner leaves and all its sectors become free. */
  lemma OwnerLeaves(used: seq<bool>, used': seq<bool>, owned: map<nat, seq<nat>>, unowned: set<nat>, i: nat)
    requires LedgerOk(used, owned, unowned) && i in owned && Released(used, used', owned[i])
    ensures LedgerOk(used', owned - {i}, unowned)
  {
    var owned' := owned - {i};
    assert forall j: nat, k: nat :: Has(owned', j, k) <==> j != i && Has(owned, j, k);
    forall k | 0 <= k < |used'| ensures used'[k] <==> k in unowned || exists j: nat :: Has(owned', j, k) {
      if k in owned[i] {
        assert Has(owned, i, k);
      } else if used[k] && k !in unowned {
        var j: nat :| Has(owned, j, k);
        assert Has(owned', j, k);
      }
    }
  }

  lemma {:induction false} CountsOne(s: seq<nat>)
    ensures NoDup(s) <==> forall k :: multiset(s)[k] <= 1
  {
    if s != [] {
      var t, x := s[..|s| - 1], s[|s| - 1];
      CountsOne(t);
      NoDupConcat(t, [x]);
      assert s == t + [x];
      assert forall k :: multiset(s)[k] == multiset(t)[k] + if k == x then 1 else 0;
      assert x in t <==> multiset(t)[x] > 0;
    }
  }

  /** Reordering keeps a list free of repeats, and keeps its elements. */
  lemma Reordered(a: seq<nat>, b: seq<nat>)
    requires NoDup(a) && multiset(a) == multiset(b)
    ensures NoDup(b) && forall k :: k in a <==> k in b
  {
    CountsOne(a);
    CountsOne(b);
    forall k ensures k in a <==> k in b {
      assert k in a <==> k in multiset(a);
      assert k in b <==> k in multiset(b);
    }
  }

  /** Part of `order` has been released, from the front; none of it twice. */
  ghost predicate Clearing(used0: seq<bool>, used: seq<bool>, done: seq<nat>, order: seq<nat>) {
    && done <= order && NoDup(order)
    && (forall k :: k in order ==> k < |used0| && used0[k])
    && Released(used0, used, done)
  }

  lemma ClearMore(used0: seq<bool>, used: seq<bool>, done: seq<nat>, next: seq<nat>, order: seq<nat>)
    requires Clearing(used0, used, done, order) && done + next <= order
    ensures NoDup(next) && forall k :: k in next ==> k < |used| && used[k]
  {
    assert order == (done + next) + order[|done + next|..];
    NoDupConcat(done + next, order[|done + next|..]);
    NoDupConcat(done, next);
    forall k | k in next ensures k < |used| && used[k] {
      assert k in done + next;
      assert k in order;
    }
  }

  lemma ClearedMore(used0: seq<bool>, used: seq<bool>, used': seq<bool>, done: seq<nat>, next: seq<nat>,
                    order: seq<nat>)
    requires Clearing(used0, used, done, order) && done + next <= order && Released(used, used', next)
    ensures Clearing(used0, used', done + next, order)
  {
  }

  /** The free map is determined by who owns what. */
  lemma SameMap(used: seq<bool>, used': seq<bool>, owned: map<nat, seq<nat>>, unowned: set<nat>)
    requires LedgerOk(used, owned, unowned) && LedgerOk(used', owned, unowned) && |used| == |used'|
    ensures used == used'
  {
  }

  // ---------------------------------------------------------------------------------
  // Counting
  // ---------------------------------------------------------------------------------

  predicate AllUsed(used: seq<bool>) { forall k :: 0 <= k < |used| ==> used[k] }

  function FreeSectors(used: seq<bool>): (r: set<nat>) { set k: nat | k < |used| && !used[k] }

  function Free(used: seq<bool>): (n: nat) { |FreeSectors(used)| }

  function Elements(s: seq<nat>): (r: set<nat>)
    ensures forall k: nat :: k in r <==> k in s
  {
    set k | k in s
  }

  lemma {:induction false} ElementCount(s: seq<nat>)
    requires NoDup(s)
    ensures |Elements(s)| == |s|
  {
    if s != [] {
      var x, rest := s[0], s[1..];
      assert forall i :: 0 <= i < |rest| ==> rest[i] == s[i + 1] != x;
      ElementCount(rest);
      assert s == [x] + rest;
      assert Elements(s) == {x} + Elements(rest);
    }
  }

  lemma NoneFree(used: seq<bool>)
    ensures AllUsed(used) <==> Free(used) == 0
  {
    if AllUsed(used) {
      assert FreeSectors(used) == {};
    } else {
      var k: nat :| k < |used| && !used[k];
      assert k in FreeSectors(used);
    }
  }

  /** What is taken is no longer free, and the rest is. */
  lemma FreeAfter(used: seq<bool>, used': seq<bool>, gained: seq<nat>)
    requires Taken(used, used', gained)
    ensures Free(used) == Free(used') + |gained|
    ensures AllUsed(used') <==> Free(used') == 0
  {
    ElementCount(gained);
    NoneFree(used');
    assert FreeSectors(used) == FreeSectors(used') + Elements(gained);
    assert FreeSectors(used') !! Elements(gained);
  }
}
