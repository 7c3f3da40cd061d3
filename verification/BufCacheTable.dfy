/**
 The static tables of the buffer cache and the code that runs on them.  Each method is one
 stretch of code between two points where `cache_lock` is taken, released or waited for, and is
 proved to be the matching step of module BufCache.
 */
module BufCacheTable {
  import opened Sectors
  import opened BufCache

  lemma InTail(lru: seq<nat>, e: nat, p: nat)
    requires e in lru && p <= |lru| && e !in lru[..p]
    ensures e in lru[p..]
  {
    assert lru == lru[..p] + lru[p..];
  }

  /** `Broadcast` is what its two halves do one after the other. */
  lemma BroadcastHalves(threads: seq<Phase>, mid: seq<Phase>, last: seq<Phase>, e: nat)
    requires |threads| == |mid| == |last|
    requires forall t :: 0 <= t < |threads| ==> mid[t] == WakeEntry(threads[t], e) && last[t] == WakeAny(mid[t])
    ensures last == Broadcast(threads, e)
  {
  }

  function WakeEntry(ph: Phase, e: nat): (r: Phase) { if ph.WaitEntry? && ph.e == e then Acquiring(ph.req) else ph }

  function WakeAny(ph: Phase): (r: Phase) { if ph.WaitAny? then Acquiring(ph.req) else ph }

  /** Where every entry is ready and clean, callers see the device. */
  lemma CleanView(s: State)
    requires Coherent(s.device, s.cache.entries)
    requires forall e :: 0 <= e < |s.cache.entries| ==> s.cache.entries[e].ready && !s.cache.entries[e].dirty
    ensures View(s) == s.device
  {
  }

  function Flushed(entry: Entry): (r: Entry) { if entry.ready then entry.(dirty := false) else entry }

  /** Writing one entry back leaves the view alone. */
  lemma FlushOne(s: State, s': State, i: nat)
    requires NoDuplicates(s.cache.entries) && Coherent(s.device, s.cache.entries) && |s.device| <= INVALID_SECTOR
    requires i < |s.cache.entries| && s.cache.entries[i].dirty && s.cache.entries[i].ready
    requires var entry := s.cache.entries[i];
      && s'.device == s.device[entry.sector := entry.data]
      && s'.cache.entries == s.cache.entries[i := entry.(dirty := false)]
    ensures Coherent(s'.device, s'.cache.entries) && NoDuplicates(s'.cache.entries) && View(s') == View(s)
  {
    FindUnique(s.cache.entries, i);
    forall k | 0 <= k < |s.device| ensures ViewAt(s', k) == ViewAt(s, k) {
      SectorsKept(s.cache.entries, s'.cache.entries, k);
    }
    SameViews(s, s');
  }

  class Table {
    const entries: array<Entry>
    const device: array<Sector>
    var lru: seq<nat>
    var holder: Option<nat>
    var threads: seq<Phase>

    ghost function Now(): (s: State)
      reads this, entries, device
    {
      State(device[..], Cache(entries[..], lru), holder, threads)
    }

    ghost predicate Apart()
      reads this
    {
      device as object != entries as object && entries.Length == NUM_ENTRIES
    }

    /** `bufcache_init`. */
    constructor (device: array<Sector>, count: nat)
      ensures Apart() && fresh(entries) && this.device == device
      ensures Now() == Start(device[..], count)
    {
      var blank: Sector := seq(SECTOR_SIZE, _ => 0);
      var es := new Entry[NUM_ENTRIES](_ => Entry(INVALID_SECTOR, true, false, blank));
      var order: seq<nat> := [];
      for i := 0 to NUM_ENTRIES
        invariant |order| == i
        invariant forall p :: 0 <= p < i ==> order[p] == i - 1 - p
        invariant forall k :: 0 <= k < NUM_ENTRIES ==> es[k] == Entry(INVALID_SECTOR, true, false, blank)
      {
        order := [i] + order;
      }
      this.device := device;
      entries := es;
      lru := order;
      holder := None;
      threads := seq(count, _ => Idle);
    }

    method FindEntry(sector: nat) returns (r: Option<nat>)
      requires Apart()
      ensures r == Find(entries[..], sector)
    {
      for i := 0 to NUM_ENTRIES
        invariant forall k :: 0 <= k < i ==> entries[k].sector != sector
      {
        if sector == entries[i].sector {
          return Some(i);
        }
      }
      return None;
    }

    method GetEvictionCandidate() returns (r: Option<nat>)
      requires Apart() && InRange(lru, NUM_ENTRIES)
      ensures r == match CandidateBefore(entries[..], lru, |lru|) case None => None case Some(p) => Some(lru[p])
    {
      var p := |lru|;
      while p > 0
        invariant 0 <= p <= |lru|
        invariant CandidateBefore(entries[..], lru, |lru|) == CandidateBefore(entries[..], lru, p)
      {
        if entries[lru[p - 1]].ready {
          return Some(lru[p - 1]);
        }
        p := p - 1;
      }
      return None;
    }

    /** `list_remove` and `list_push_front` on the list of entries. */
    method MoveFront(e: nat)
      requires e in lru
      modifies this`lru
      ensures lru == MoveToFront(old(lru), e)
    {
      var p := 0;
      while lru[p] != e
        invariant p < |lru| && e !in lru[..p]
        decreases |lru| - p
      {
        assert e in lru[p + 1..] by { InTail(lru, e, p + 1); }
        p := p + 1;
      }
      PositionIs(lru, e, p);
      lru := lru[..p] + lru[p + 1..];
      lru := [e] + lru;
    }

    /** The copy of `bufcache_read` or `bufcache_write` for the entry that the access returned. */
    method CopyBytes(e: nat, t: nat, req: Request) returns (ev: Event)
      requires Apart() && e < NUM_ENTRIES && req.offset + req.Length() <= SECTOR_SIZE
      modifies entries
      ensures ev == Copy(old(entries[e]), t, req).1
      ensures entries[..] == old(entries[..])[e := Copy(old(entries[e]), t, req).0]
    {
      var entry := entries[e];
      match req
      case Read(sector, offset, length) =>
        var result := [];
        for i := 0 to length
          invariant result == entry.data[offset..offset + i]
        {
          result := result + [entry.data[offset + i]];
        }
        ev := DidRead(t, sector, offset, result);
      case Write(sector, offset, bytes) =>
        entries[e] := entry.(data := Splice(entry.data, offset, bytes));
        entries[e] := entries[e].(dirty := true);
        ev := DidWrite(t, sector, offset, bytes);
    }

    /** A thread calls `bufcache_read` or `bufcache_write`. */
    method Enter(t: nat, req: Request)
      requires Apart() && Inv(Now()) && Enabled(Now(), Call(t, req))
      modifies this`threads
      ensures Now() == Apply(old(Now()), Call(t, req)).0 && Inv(Now())
    {
      StepRefines(Now(), Call(t, req));
      threads := threads[t := Acquiring(req)];
    }

    /** It gets the lock, for the first time or back after a wait. */
    method TakeLock(t: nat)
      requires Apart() && Inv(Now()) && Enabled(Now(), Acquire(t))
      modifies this`threads, this`holder
      ensures Now() == Apply(old(Now()), Acquire(t)).0 && Inv(Now())
    {
      StepRefines(Now(), Acquire(t));
      holder := Some(t);
      threads := threads[t := Running(threads[t].req)];
    }

    /** The hit: the list, the copy, and back to the caller. */
    method ServeHit(t: nat, e: nat) returns (ev: Event)
      requires Apart() && Inv(Now()) && Enabled(Now(), Iterate(t)) && Look(Now().cache, threads[t].req.sector) == Hit(e)
      modifies this, entries
      ensures (Now(), ev) == Apply(old(Now()), Iterate(t))
    {
      assert PhaseOk(Now(), t);
      ghost var s := Now();
      MoveFront(e);
      ev := CopyBytes(e, t, threads[t].req);
      threads := threads[t := Idle];
      holder := None;
    }

    /** The first half of `clean`, up to its release of the lock. */
    method StartClean(t: nat, e: nat)
      requires Apart() && Inv(Now()) && Enabled(Now(), Iterate(t)) &&
        Look(Now().cache, threads[t].req.sector) == MustClean(e)
      modifies this, entries
      ensures (Now(), Silent) == Apply(old(Now()), Iterate(t))
    {
      entries[e] := entries[e].(ready := false);
      threads := threads[t := Cleaning(threads[t].req, e, 0)];
      holder := None;
    }

    /** The first half of `replace`. */
    method StartReplace(t: nat, e: nat)
      requires Apart() && Inv(Now()) && Enabled(Now(), Iterate(t)) &&
        Look(Now().cache, threads[t].req.sector) == MustLoad(e)
      modifies this, entries
      ensures (Now(), Silent) == Apply(old(Now()), Iterate(t))
    {
      entries[e] := entries[e].(sector := threads[t].req.sector);
      entries[e] := entries[e].(ready := false);
      assert entries[..] == old(entries[..])[e := entries[e]];
      threads := threads[t := Loading(threads[t].req, e, 0)];
      holder := None;
    }

    /** One turn of `bufcache_access`, up to the point where the lock is released: by a wait, by the
        first half of an operation, or by the caller after the copy. */
    method AccessTurn(t: nat) returns (ev: Event)
      requires Apart() && Inv(Now()) && Enabled(Now(), Iterate(t))
      modifies this, entries
      ensures (Now(), ev) == Apply(old(Now()), Iterate(t)) && Inv(Now())
    {
      StepRefines(Now(), Iterate(t));
      var req := threads[t].req;
      ev := Silent;
      var found := FindEntry(req.sector);
      if found.Some? {
        if entries[found.value].ready {
          ev := ServeHit(t, found.value);
        } else {
          threads := threads[t := WaitEntry(req, found.value)];
          holder := None;
        }
        return;
      }
      var candidate := GetEvictionCandidate();
      if candidate.None? {
        threads := threads[t := WaitAny(req)];
        holder := None;
      } else if entries[candidate.value].dirty {
        StartClean(t, candidate.value);
      } else {
        StartReplace(t, candidate.value);
      }
    }

    /** One byte of `block_write` or `block_read`, without the lock. */
    method TransferByte(t: nat)
      requires Apart() && Inv(Now()) && Enabled(Now(), Transfer(t))
      modifies this`threads, entries, device
      ensures Now() == Apply(old(Now()), Transfer(t)).0 && Inv(Now())
    {
      StepRefines(Now(), Transfer(t));
      assert PhaseOk(Now(), t);
      var ph := threads[t];
      var entry := entries[ph.e];
      if ph.Cleaning? {
        device[entry.sector] := device[entry.sector][ph.done := entry.data[ph.done]];
        threads := threads[t := Cleaning(ph.req, ph.e, ph.done + 1)];
      } else {
        entries[ph.e] := entry.(data := entry.data[ph.done := device[ph.req.sector][ph.done]]);
        threads := threads[t := Loading(ph.req, ph.e, ph.done + 1)];
      }
    }

    /** `cond_broadcast` on the condition of entry `e`. */
    method WakeWaiters(e: nat)
      modifies this`threads
      ensures |threads| == |old(threads)|
      ensures forall u :: 0 <= u < |threads| ==> threads[u] == WakeEntry(old(threads)[u], e)
    {
      for i := 0 to |threads|
        invariant |threads| == |old(threads)|
        invariant forall u ::
          0 <= u < |threads| ==> threads[u] == if u < i then WakeEntry(old(threads)[u], e) else old(threads)[u]
      {
        if threads[i].WaitEntry? && threads[i].e == e {
          threads := threads[i := Acquiring(threads[i].req)];
        }
      }
    }

    /** `cond_broadcast` on `until_one_ready`. */
    method WakeOthers()
      modifies this`threads
      ensures |threads| == |old(threads)|
      ensures forall u :: 0 <= u < |threads| ==> threads[u] == WakeAny(old(threads)[u])
    {
      for i := 0 to |threads|
        invariant |threads| == |old(threads)|
        invariant forall u ::
          0 <= u < |threads| ==> threads[u] == if u < i then WakeAny(old(threads)[u]) else old(threads)[u]
      {
        if threads[i].WaitAny? {
          threads := threads[i := Acquiring(threads[i].req)];
        }
      }
    }

    method Broadcasts(e: nat)
      modifies this`threads
      ensures threads == Broadcast(old(threads), e)
    {
      WakeWaiters(e);
      ghost var mid := threads;
      WakeOthers();
      BroadcastHalves(old(threads), mid, threads, e);
    }

    /** The second half of `clean` or `replace`: the lock, the flags and the two broadcasts. */
    method EndOperation(t: nat)
      requires Apart() && Inv(Now()) && Enabled(Now(), Finish(t))
      modifies this, entries
      ensures Now() == Apply(old(Now()), Finish(t)).0 && Inv(Now())
    {
      StepRefines(Now(), Finish(t));
      assert PhaseOk(Now(), t);
      var ph := threads[t];
      holder := Some(t);
      entries[ph.e] := entries[ph.e].(ready := true);
      if ph.Cleaning? {
        entries[ph.e] := entries[ph.e].(dirty := false);
      }
      Broadcasts(ph.e);
      threads := threads[t := Running(ph.req)];
    }

    /** `clean` when no other thread runs meanwhile. */
    method CleanAlone(i: nat)
      requires Apart() && device.Length <= INVALID_SECTOR && NoDuplicates(entries[..]) &&
        Coherent(device[..], entries[..])
      requires i < NUM_ENTRIES && entries[i].dirty && entries[i].ready
      modifies entries, device
      ensures Coherent(device[..], entries[..]) && NoDuplicates(entries[..]) && View(Now()) == old(View(Now()))
      ensures entries[..] == old(entries[..])[i := Flushed(old(entries[i]))]
    {
      device[entries[i].sector] := entries[i].data;
      entries[i] := entries[i].(dirty := false);
      FlushOne(old(Now()), Now(), i);
    }

    /** `bufcache_flush` when no other thread runs meanwhile: every entry that was ready is clean
        and on the device, an entry in flight is passed over, and callers see what they saw.  The
        code does not release the lock. */
    method Flush(t: nat)
      requires Apart() && device.Length <= INVALID_SECTOR && holder.None?
      requires NoDuplicates(entries[..]) && Coherent(device[..], entries[..])
      modifies this`holder, entries, device
      ensures holder == Some(t)
      ensures Coherent(device[..], entries[..]) && View(Now()) == old(View(Now()))
      ensures forall e :: 0 <= e < NUM_ENTRIES ==> entries[e] == Flushed(old(entries[e]))
      ensures (forall e :: 0 <= e < NUM_ENTRIES ==> old(entries[e]).ready) ==> device[..] == old(View(Now()))
    {
      holder := Some(t);
      for i := 0 to NUM_ENTRIES
        invariant forall e ::
          0 <= e < NUM_ENTRIES ==> entries[e] == if e < i then Flushed(old(entries[e])) else old(entries[e])
        invariant holder == Some(t) && NoDuplicates(entries[..])
        invariant Coherent(device[..], entries[..]) && View(Now()) == old(View(Now()))
      {
        if entries[i].dirty && entries[i].ready {
          CleanAlone(i);
        }
      }
      if forall e :: 0 <= e < NUM_ENTRIES ==> old(entries[e]).ready { CleanView(Now()); }
    }
  }
}
