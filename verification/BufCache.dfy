/**
 The write-back buffer cache as a step system.

 A step is one stretch of a thread's code in which no other thread can touch the same
 state: a turn of the loop in `bufcache_access` under `cache_lock`, or the transfer of a
 single byte between the device and an entry's buffer while the lock is released.
 The number of threads is arbitrary and so is the order of their steps.
 */
module BufCache {
  import opened Sectors

  const NUM_ENTRIES: nat := 64

  datatype Entry = Entry(sector: nat, ready: bool, dirty: bool, data: Sector) {
    /** The buffer, rather than the device, holds the sector's current bytes.  While an
        entry is being written back it is not ready but dirty; while it is being filled
        it is neither. */
    predicate Live() { ready || dirty }
  }

  datatype Cache = Cache(entries: seq<Entry>, lru: seq<nat>)

  // ---------------------------------------------------------------------------------
  // One turn of the access loop
  // ---------------------------------------------------------------------------------

  /** Lowest entry holding `sector`. */
  function Find(entries: seq<Entry>, sector: nat): (r: Option<nat>)
    ensures r.Some? ==> r.value < |entries| && entries[r.value].sector == sector
    ensures r.Some? ==> forall i :: 0 <= i < r.value ==> entries[i].sector != sector
    ensures r.None? ==> forall i :: 0 <= i < |entries| ==> entries[i].sector != sector
  {
    FindFrom(entries, sector, 0)
  }

  function FindFrom(entries: seq<Entry>, sector: nat, from: nat): (r: Option<nat>)
    requires from <= |entries|
    requires forall i :: 0 <= i < from ==> entries[i].sector != sector
    ensures r.Some? ==> from <= r.value < |entries| && entries[r.value].sector == sector
    ensures r.Some? ==> forall i :: 0 <= i < r.value ==> entries[i].sector != sector
    ensures r.None? ==> forall i :: 0 <= i < |entries| ==> entries[i].sector != sector
    decreases |entries| - from
  {
    if from == |entries| then None
    else if entries[from].sector == sector then Some(from)
    else FindFrom(entries, sector, from + 1)
  }

  predicate InRange(lru: seq<nat>, n: nat) { forall p :: 0 <= p < |lru| ==> lru[p] < n }

  /** The last position of `lru[..upto]` whose entry is ready. */
  function CandidateBefore(entries: seq<Entry>, lru: seq<nat>, upto: nat): (r: Option<nat>)
    requires InRange(lru, |entries|) && upto <= |lru|
    ensures r.Some? ==> r.value < upto && entries[lru[r.value]].ready
    ensures r.Some? ==> forall p :: r.value < p < upto ==> !entries[lru[p]].ready
    ensures r.None? ==> forall p :: 0 <= p < upto ==> !entries[lru[p]].ready
  {
    if upto == 0 then None
    else if entries[lru[upto - 1]].ready then Some(upto - 1)
    else CandidateBefore(entries, lru, upto - 1)
  }

  datatype Outcome = Hit(e: nat) | Busy(e: nat) | NoneReady | MustClean(e: nat) | MustLoad(e: nat)

  /** What one turn of the loop finds. */
  function Look(c: Cache, sector: nat): (r: Outcome)
    requires InRange(c.lru, |c.entries|)
    ensures !r.NoneReady? ==> r.e < |c.entries|
  {
    match Find(c.entries, sector)
    case Some(e) => if c.entries[e].ready then Hit(e) else Busy(e)
    case None =>
      match CandidateBefore(c.entries, c.lru, |c.lru|)
      case None => NoneReady
      case Some(p) => if c.entries[c.lru[p]].dirty then MustClean(c.lru[p]) else MustLoad(c.lru[p])
  }

  function Position(lru: seq<nat>, e: nat): (p: nat)
    ensures p <= |lru|
    ensures p < |lru| ==> lru[p] == e
    ensures p == |lru| ==> e !in lru
  {
    if lru == [] || lru[0] == e then 0 else 1 + Position(lru[1..], e)
  }

  lemma {:induction false} PositionIs(lru: seq<nat>, e: nat, p: nat)
    requires p < |lru| && lru[p] == e && e !in lru[..p]
    ensures Position(lru, e) == p
  {
    if p > 0 {
      assert lru[0] == lru[..p][0];
      assert lru[1..][..p - 1] == lru[..p][1..];
      PositionIs(lru[1..], e, p - 1);
    }
  }

  /** `list_remove` followed by `list_push_front`. */
  function MoveToFront(lru: seq<nat>, e: nat): (r: seq<nat>)
    requires e in lru
    ensures |r| == |lru|
  {
    var p := Position(lru, e);
    [e] + lru[..p] + lru[p + 1..]
  }

  /** The cache when the turn's critical section ends, before any byte is copied. */
  function Turn(c: Cache, sector: nat): (r: Cache)
    requires InRange(c.lru, |c.entries|)
    requires forall e :: 0 <= e < |c.entries| ==> e in c.lru
  {
    match Look(c, sector)
    case Hit(e) => c.(lru := MoveToFront(c.lru, e))
    case Busy(_) => c
    case NoneReady => c
    case MustClean(e) => c.(entries := c.entries[e := c.entries[e].(ready := false)])
    case MustLoad(e) => c.(entries := c.entries[e := c.entries[e].(sector := sector, ready := false)])
  }

  // ---------------------------------------------------------------------------------
  // Threads and steps
  // ---------------------------------------------------------------------------------

  datatype Request =
    | Read(sector: nat, offset: nat, length: nat)
    | Write(sector: nat, offset: nat, bytes: seq<Byte>)
  {
    function Length(): nat { if Read? then length else |bytes| }
  }

  /** Where a thread stands.  `done` counts the bytes its device operation has moved. */
  datatype Phase =
    | Idle
    | Acquiring(req: Request)
    | Running(req: Request)
    | WaitEntry(req: Request, e: nat)
    | WaitAny(req: Request)
    | Cleaning(req: Request, e: nat, done: nat)
    | Loading(req: Request, e: nat, done: nat)
  {
    predicate InFlight() { Cleaning? || Loading? }
  }

  datatype State = State(
    device: seq<Sector>,
    cache: Cache,
    holder: Option<nat>,
    threads: seq<Phase>)

  datatype Action =
    | Call(t: nat, req: Request)
    | Acquire(t: nat)
    | Iterate(t: nat)
    | Transfer(t: nat)
    | Finish(t: nat)

  datatype Event =
    | Silent
    | DidRead(t: nat, sector: nat, offset: nat, result: seq<Byte>)
    | DidWrite(t: nat, sector: nat, offset: nat, bytes: seq<Byte>)

  /** The assertions at the two entry points, and a sector that `block_read` and `block_write`
      accept.  Sector -1 never gets to these as long as an entry is unused; see `UnusedHit`. */
  predicate Acceptable(s: State, req: Request) {
    req.sector < |s.device| && req.offset + req.Length() <= SECTOR_SIZE
  }

  predicate Enabled(s: State, a: Action) {
    && a.t < |s.threads|
    && var ph := s.threads[a.t];
       match a
       case Call(_, req) => ph.Idle? && Acceptable(s, req)
       case Acquire(_) => ph.Acquiring? && s.holder.None?
       case Iterate(_) => ph.Running? && s.holder == Some(a.t)
       case Transfer(_) => ph.InFlight() && ph.done < SECTOR_SIZE
       case Finish(_) => ph.InFlight() && ph.done == SECTOR_SIZE && s.holder.None?
  }

  /** Both broadcasts after an operation on entry `e`: every waiter queues for the lock. */
  function Wake(ph: Phase, e: nat): (r: Phase) {
    if (ph.WaitEntry? && ph.e == e) || ph.WaitAny? then Acquiring(ph.req) else ph
  }

  function Broadcast(threads: seq<Phase>, e: nat): (r: seq<Phase>)
    ensures |r| == |threads|
    ensures forall t :: 0 <= t < |threads| ==> r[t] == Wake(threads[t], e)
  {
    seq(|threads|, t requires 0 <= t < |threads| => Wake(threads[t], e))
  }

  /** The copy between the caller's buffer and a ready entry. */
  function Copy(entry: Entry, t: nat, req: Request): (r: (Entry, Event))
    requires req.offset + req.Length() <= SECTOR_SIZE
  {
    match req
    case Read(sector, offset, length) => (entry, DidRead(t, sector, offset, entry.data[offset..offset + length]))
    case Write(sector, offset, bytes) =>
      (entry.(data := Splice(entry.data, offset, bytes), dirty := true), DidWrite(t, sector, offset, bytes))
  }

  function ApplyIterate(s: State, t: nat): (r: (State, Event))
    requires WellShaped(s) && t < |s.threads| && s.threads[t].Running?
    requires Acceptable(s, s.threads[t].req)
  {
    var req := s.threads[t].req;
    var c := Turn(s.cache, req.sector);
    match Look(s.cache, req.sector)
    case Hit(e) =>
      var (entry, event) := Copy(c.entries[e], t, req);
      (s.(cache := c.(entries := c.entries[e := entry]), holder := None, threads := s.threads[t := Idle]), event)
    case Busy(e) => (s.(holder := None, threads := s.threads[t := WaitEntry(req, e)]), Silent)
    case NoneReady => (s.(holder := None, threads := s.threads[t := WaitAny(req)]), Silent)
    case MustClean(e) => (s.(cache := c, holder := None, threads := s.threads[t := Cleaning(req, e, 0)]), Silent)
    case MustLoad(e) => (s.(cache := c, holder := None, threads := s.threads[t := Loading(req, e, 0)]), Silent)
  }

  function ApplyTransfer(s: State, t: nat): (r: State)
    requires t < |s.threads| && s.threads[t].InFlight() && s.threads[t].done < SECTOR_SIZE
    requires s.threads[t].e < |s.cache.entries| && s.cache.entries[s.threads[t].e].sector < |s.device|
    requires s.threads[t].req.sector < |s.device|
  {
    var ph := s.threads[t];
    var entry := s.cache.entries[ph.e];
    var k := ph.done;
    if ph.Cleaning? then
      s.(device := s.device[entry.sector := s.device[entry.sector][k := entry.data[k]]],
         threads := s.threads[t := Cleaning(ph.req, ph.e, k + 1)])
    else
      s.(cache := s.cache.(entries := s.cache.entries[ph.e :=
           entry.(data := entry.data[k := s.device[ph.req.sector][k]])]),
         threads := s.threads[t := Loading(ph.req, ph.e, k + 1)])
  }

  function ApplyFinish(s: State, t: nat): (r: State)
    requires t < |s.threads| && s.threads[t].InFlight() && s.threads[t].e < |s.cache.entries|
  {
    var ph := s.threads[t];
    var entry := s.cache.entries[ph.e];
    s.(cache := s.cache.(entries := s.cache.entries[ph.e :=
         entry.(ready := true, dirty := if ph.Cleaning? then false else entry.dirty)]),
       holder := Some(t),
       threads := Broadcast(s.threads, ph.e)[t := Running(ph.req)])
  }

  function Apply(s: State, a: Action): (r: (State, Event))
    requires Inv(s) && Enabled(s, a)
  {
    assert PhaseOk(s, a.t);
    match a
    case Call(t, req) => (s.(threads := s.threads[t := Acquiring(req)]), Silent)
    case Acquire(t) => (s.(holder := Some(t), threads := s.threads[t := Running(s.threads[t].req)]), Silent)
    case Iterate(t) => ApplyIterate(s, t)
    case Transfer(t) => (ApplyTransfer(s, t), Silent)
    case Finish(t) => (ApplyFinish(s, t), Silent)
  }

  // ---------------------------------------------------------------------------------
  // The invariant
  // ---------------------------------------------------------------------------------

  predicate Distinct(lru: seq<nat>) { forall p, q :: 0 <= p < q < |lru| ==> lru[p] != lru[q] }

  predicate WellShaped(s: State) {
    && |s.cache.entries| == NUM_ENTRIES && |s.cache.lru| == NUM_ENTRIES
    && InRange(s.cache.lru, NUM_ENTRIES) && Distinct(s.cache.lru)
    && (forall e :: 0 <= e < NUM_ENTRIES ==> e in s.cache.lru)
    && |s.device| <= INVALID_SECTOR
    && (forall e :: 0 <= e < NUM_ENTRIES ==>
          s.cache.entries[e].sector < |s.device| || s.cache.entries[e].sector == INVALID_SECTOR)
  }

  /** No two entries hold the same valid sector. */
  predicate NoDuplicates(entries: seq<Entry>) {
    forall i, j :: 0 <= i < j < |entries| && entries[i].sector == entries[j].sector ==>
      entries[i].sector == INVALID_SECTOR
  }

  /** Only a valid entry is dirty or in flight, and a clean one agrees with the device. */
  predicate Coherent(device: seq<Sector>, entries: seq<Entry>) {
    forall e :: 0 <= e < |entries| ==>
      && (entries[e].dirty || !entries[e].ready ==> entries[e].sector < |device|)
      && (entries[e].ready && !entries[e].dirty && entries[e].sector < |device| ==>
            entries[e].data == device[entries[e].sector])
  }

  /** What a thread's phase says about the entry it works on or waits for. */
  predicate PhaseOk(s: State, t: nat)
    requires WellShaped(s) && t < |s.threads|
  {
    var ph := s.threads[t];
    && (!ph.Idle? ==> Acceptable(s, ph.req))
    && (ph.InFlight() || ph.WaitEntry? ==> ph.e < NUM_ENTRIES && !s.cache.entries[ph.e].ready)
    && (ph.InFlight() ==>
          && ph.done <= SECTOR_SIZE
          && var entry := s.cache.entries[ph.e];
             && entry.dirty == ph.Cleaning?
             && entry.sector < |s.device|
             && (ph.Loading? ==> entry.sector == ph.req.sector)
             && forall k :: 0 <= k < ph.done ==> s.device[entry.sector][k] == entry.data[k])
    && (ph.WaitAny? ==> forall e :: 0 <= e < NUM_ENTRIES ==> !s.cache.entries[e].ready)
    && (ph.Running? <==> s.holder == Some(t))
  }

  /** Operations in flight are on different entries. */
  predicate Exclusive(threads: seq<Phase>) {
    forall t, u :: 0 <= t < u < |threads| && threads[t].InFlight() && threads[u].InFlight() ==>
      threads[t].e != threads[u].e
  }

  predicate Owns(threads: seq<Phase>, t: nat, e: nat) {
    t < |threads| && threads[t].InFlight() && threads[t].e == e
  }

  /** An entry that is not ready has a thread whose operation will make it so. */
  ghost predicate Attended(s: State) {
    forall e :: 0 <= e < |s.cache.entries| && !s.cache.entries[e].ready ==> exists t: nat :: Owns(s.threads, t, e)
  }

  ghost predicate Inv(s: State) {
    && WellShaped(s)
    && NoDuplicates(s.cache.entries)
    && Coherent(s.device, s.cache.entries)
    && (forall t :: 0 <= t < |s.threads| ==> PhaseOk(s, t))
    && (s.holder.Some? ==> s.holder.value < |s.threads|)
    && Exclusive(s.threads)
    && Attended(s)
  }

  // ---------------------------------------------------------------------------------
  // The disk that callers see
  // ---------------------------------------------------------------------------------

  /** The bytes of sector `k`: those of the entry that holds it, unless it is still being
      filled, and otherwise the device's. */
  function ViewAt(s: State, k: nat): (r: Sector)
    requires k < |s.device|
  {
    match Find(s.cache.entries, k)
    case Some(e) => if s.cache.entries[e].Live() then s.cache.entries[e].data else s.device[k]
    case None => s.device[k]
  }

  function View(s: State): (r: seq<Sector>)
    ensures |r| == |s.device|
    ensures forall k :: 0 <= k < |r| ==> r[k] == ViewAt(s, k)
  {
    seq(|s.device|, k requires 0 <= k < |s.device| => ViewAt(s, k))
  }

  /** A plain disk on which every operation is atomic. */
  predicate Legal(disk: seq<Sector>, ev: Event) {
    match ev
    case Silent => true
    case DidRead(_, k, offset, result) =>
      k < |disk| && offset + |result| <= SECTOR_SIZE && result == disk[k][offset..offset + |result|]
    case DidWrite(_, k, offset, bytes) => k < |disk| && offset + |bytes| <= SECTOR_SIZE
  }

  function Effect(disk: seq<Sector>, ev: Event): (r: seq<Sector>)
    requires Legal(disk, ev)
  {
    if ev.DidWrite? then disk[ev.sector := Splice(disk[ev.sector], ev.offset, ev.bytes)] else disk
  }

  /** Under the invariant, `Find` meets the one entry that can hold the sector. */
  lemma FindUnique(entries: seq<Entry>, e: nat)
    requires NoDuplicates(entries) && e < |entries| && entries[e].sector != INVALID_SECTOR
    ensures Find(entries, entries[e].sector) == Some(e)
  {
  }

  /** `Find` depends on the entries' sectors alone. */
  lemma SectorsKept(es: seq<Entry>, es': seq<Entry>, k: nat)
    requires |es| == |es'| && forall i :: 0 <= i < |es| ==> es[i].sector == es'[i].sector
    ensures Find(es, k) == Find(es', k)
  {
  }

  lemma SameViews(s: State, s': State)
    requires |s.device| == |s'.device|
    requires forall k :: 0 <= k < |s.device| ==> ViewAt(s, k) == ViewAt(s', k)
    ensures View(s) == View(s')
  {
  }

  // ---------------------------------------------------------------------------------
  // Each step keeps the invariant and acts on the view as the plain disk does
  // ---------------------------------------------------------------------------------

  ghost predicate Refines(s: State, r: (State, Event)) {
    && Inv(r.0)
    && |r.0.threads| == |s.threads|
    && Legal(View(s), r.1)
    && View(r.0) == Effect(View(s), r.1)
  }

  /** Attendants stay: those of entries that were not ready still are, and `t` attends the rest. */
  lemma StillAttended(s: State, s': State, t: nat)
    requires Attended(s) && |s.cache.entries| == |s'.cache.entries|
    requires forall u: nat, d: nat | d < |s'.cache.entries| && !s'.cache.entries[d].ready ::
      Owns(s.threads, u, d) ==> Owns(s'.threads, u, d)
    requires forall d | 0 <= d < |s.cache.entries| && s.cache.entries[d].ready && !s'.cache.entries[d].ready ::
      Owns(s'.threads, t, d)
    ensures Attended(s')
  {
    forall d | 0 <= d < |s'.cache.entries| && !s'.cache.entries[d].ready
      ensures exists u: nat :: Owns(s'.threads, u, d)
    {
      if s.cache.entries[d].ready {
        assert Owns(s'.threads, t, d);
      } else {
        var u: nat :| Owns(s.threads, u, d);
        assert Owns(s'.threads, u, d);
      }
    }
  }

  /** Steps that only move one thread between phases without a device operation. */
  lemma RetargetRefines(s: State, s': State, t: nat)
    requires Inv(s) && t < |s.threads| && |s'.threads| == |s.threads|
    requires s' == s.(holder := s'.holder, threads := s.threads[t := s'.threads[t]])
    requires !s.threads[t].InFlight() && !s'.threads[t].InFlight()
    requires PhaseOk(s', t)
    requires forall u :: 0 <= u < |s.threads| && u != t ==> (s.holder == Some(u) <==> s'.holder == Some(u))
    requires s'.holder.Some? ==> s'.holder.value < |s.threads|
    ensures Refines(s, (s', Silent))
  {
    forall u | 0 <= u < |s'.threads| ensures PhaseOk(s', u) { assert PhaseOk(s, u); }
    StillAttended(s, s', t);
    SameViews(s, s');
  }

  /** Where the elements behind the first come from. */
  lemma MovedBehind(lru: seq<nat>, e: nat, q: nat) returns (j: nat)
    requires e in lru && Distinct(lru) && 0 < q < |lru|
    ensures j == (if q <= Position(lru, e) then q - 1 else q) && MoveToFront(lru, e)[q] == lru[j] != e
  {
    j := if q <= Position(lru, e) then q - 1 else q;
  }

  lemma MoveToFrontKeeps(lru: seq<nat>, e: nat)
    requires e in lru && Distinct(lru)
    ensures var r := MoveToFront(lru, e); Distinct(r) && forall x :: x in r <==> x in lru
  {
    var p := Position(lru, e);
    var r := MoveToFront(lru, e);
    forall x | x in lru ensures x in r {
      var i :| 0 <= i < |lru| && lru[i] == x;
      assert r[if i < p then i + 1 else if i == p then 0 else i] == x;
    }
    forall x | x in r ensures x in lru {
      var i :| 0 <= i < |r| && r[i] == x;
      assert x == lru[if i == 0 then p else if i <= p then i - 1 else i];
    }
    forall i, k | 0 <= i < k < |r| ensures r[i] != r[k] {
      var k' := MovedBehind(lru, e, k);
      if i > 0 { var i' := MovedBehind(lru, e, i); }
    }
  }

  /** A step by `t` that changes no entry but `e` and no thread but `t` disturbs no other
      thread's phase, provided `e` was ready. */
  lemma OthersUndisturbed(s: State, s': State, t: nat, e: nat)
    requires Inv(s) && WellShaped(s') && t < |s.threads| && e < NUM_ENTRIES
    requires s'.device == s.device && |s'.threads| == |s.threads| && s'.threads == s.threads[t := s'.threads[t]]
    requires |s'.cache.entries| == NUM_ENTRIES && s'.cache.entries == s.cache.entries[e := s'.cache.entries[e]]
    requires s.cache.entries[e].ready
    requires forall u :: 0 <= u < |s.threads| && u != t ==> (s.holder == Some(u) <==> s'.holder == Some(u))
    ensures forall u :: 0 <= u < |s.threads| && u != t ==> PhaseOk(s', u)
  {
    forall u | 0 <= u < |s.threads| && u != t ensures PhaseOk(s', u) {
      assert PhaseOk(s, u);
    }
  }

  lemma HitKeeps(s: State, t: nat)
    requires Inv(s) && Enabled(s, Iterate(t))
    requires Look(s.cache, s.threads[t].req.sector).Hit?
    ensures Inv(Apply(s, Iterate(t)).0)
  {
    assert PhaseOk(s, t);
    var e := Look(s.cache, s.threads[t].req.sector).e;
    var s' := Apply(s, Iterate(t)).0;
    MoveToFrontKeeps(s.cache.lru, e);
    assert InRange(s'.cache.lru, NUM_ENTRIES);
    assert WellShaped(s');
    OthersUndisturbed(s, s', t, e);
    assert PhaseOk(s', t);
    StillAttended(s, s', t);
  }

  lemma HitView(s: State, t: nat)
    requires Inv(s) && Enabled(s, Iterate(t))
    requires Look(s.cache, s.threads[t].req.sector).Hit?
    ensures var (s', ev) := Apply(s, Iterate(t));
      Legal(View(s), ev) && View(s') == Effect(View(s), ev)
  {
    assert PhaseOk(s, t);
    var (s', ev) := Apply(s, Iterate(t));
    forall k | 0 <= k < |s.device| ensures ViewAt(s', k) == Effect(View(s), ev)[k] {
      SectorsKept(s.cache.entries, s'.cache.entries, k);
    }
  }

  /** Starting an operation on a ready entry `e`: `t` becomes its only attendant. */
  lemma StartAttends(s: State, s': State, t: nat, e: nat)
    requires Inv(s) && Enabled(s, Iterate(t)) && e < NUM_ENTRIES && s.cache.entries[e].ready
    requires |s'.threads| == |s.threads| && s'.threads == s.threads[t := s'.threads[t]]
    requires s'.threads[t].InFlight() && s'.threads[t].e == e
    requires |s'.cache.entries| == NUM_ENTRIES && s'.cache.entries == s.cache.entries[e := s'.cache.entries[e]]
    ensures Attended(s') && Exclusive(s'.threads)
  {
    StillAttended(s, s', t);
    forall u | 0 <= u < |s.threads| && u != t && s.threads[u].InFlight() ensures s.threads[u].e != e {
      assert PhaseOk(s, u);
    }
  }

  lemma StartCleanKeeps(s: State, t: nat)
    requires Inv(s) && Enabled(s, Iterate(t))
    requires Look(s.cache, s.threads[t].req.sector).MustClean?
    ensures Inv(Apply(s, Iterate(t)).0)
  {
    assert PhaseOk(s, t);
    var e := Look(s.cache, s.threads[t].req.sector).e;
    var s' := Apply(s, Iterate(t)).0;
    OthersUndisturbed(s, s', t, e);
    assert PhaseOk(s', t);
    StartAttends(s, s', t, e);
  }

  lemma StartCleanView(s: State, t: nat)
    requires Inv(s) && Enabled(s, Iterate(t))
    requires Look(s.cache, s.threads[t].req.sector).MustClean?
    ensures View(Apply(s, Iterate(t)).0) == View(s)
  {
    assert PhaseOk(s, t);
    var s' := Apply(s, Iterate(t)).0;
    forall k | 0 <= k < |s.device| ensures ViewAt(s', k) == ViewAt(s, k) {
      SectorsKept(s.cache.entries, s'.cache.entries, k);
    }
    SameViews(s, s');
  }

  lemma StartLoadKeeps(s: State, t: nat)
    requires Inv(s) && Enabled(s, Iterate(t))
    requires Look(s.cache, s.threads[t].req.sector).MustLoad?
    ensures Inv(Apply(s, Iterate(t)).0)
  {
    assert PhaseOk(s, t);
    var e := Look(s.cache, s.threads[t].req.sector).e;
    var s' := Apply(s, Iterate(t)).0;
    OthersUndisturbed(s, s', t, e);
    assert PhaseOk(s', t);
    StartAttends(s, s', t, e);
  }

  lemma StartLoadView(s: State, t: nat)
    requires Inv(s) && Enabled(s, Iterate(t))
    requires Look(s.cache, s.threads[t].req.sector).MustLoad?
    ensures View(Apply(s, Iterate(t)).0) == View(s)
  {
    assert PhaseOk(s, t);
    var sector := s.threads[t].req.sector;
    var e := Look(s.cache, sector).e;
    var s' := Apply(s, Iterate(t)).0;
    StartLoadKeeps(s, t);
    var es, es' := s.cache.entries, s'.cache.entries;
    forall k | 0 <= k < |s.device| ensures ViewAt(s', k) == ViewAt(s, k) {
      if k == sector {
        FindUnique(es', e);
      } else if k == es[e].sector {
        FindUnique(es, e);
        assert forall i :: 0 <= i < |es'| ==> es'[i].sector != k;
      } else if Find(es, k).Some? {
        FindUnique(es', Find(es, k).value);
      } else {
        assert forall i :: 0 <= i < |es'| ==> es'[i].sector != k;
      }
    }
    SameViews(s, s');
  }

  /** A byte moves between the buffer of an entry in flight and the sector of that entry. */
  lemma TransferCoherent(s: State, t: nat)
    requires Inv(s) && Enabled(s, Transfer(t))
    ensures var s' := Apply(s, Transfer(t)).0;
      WellShaped(s') && NoDuplicates(s'.cache.entries) && Coherent(s'.device, s'.cache.entries)
  {
    assert PhaseOk(s, t);
  }

  lemma TransferPhase(s: State, t: nat, u: nat)
    requires Inv(s) && Enabled(s, Transfer(t)) && u < |s.threads| && WellShaped(Apply(s, Transfer(t)).0)
    ensures PhaseOk(Apply(s, Transfer(t)).0, u)
  {
    assert PhaseOk(s, t) && PhaseOk(s, u);
    if u != t && s.threads[u].InFlight() {
      assert s.threads[u].e != s.threads[t].e;
      assert s.cache.entries[s.threads[u].e].sector != s.cache.entries[s.threads[t].e].sector;
    }
  }

  lemma TransferKeeps(s: State, t: nat)
    requires Inv(s) && Enabled(s, Transfer(t))
    ensures Inv(Apply(s, Transfer(t)).0)
  {
    assert PhaseOk(s, t);
    var s' := Apply(s, Transfer(t)).0;
    TransferCoherent(s, t);
    forall u | 0 <= u < |s.threads| ensures PhaseOk(s', u) { TransferPhase(s, t, u); }
    StillAttended(s, s', t);
  }

  lemma TransferView(s: State, t: nat)
    requires Inv(s) && Enabled(s, Transfer(t))
    ensures View(Apply(s, Transfer(t)).0) == View(s)
  {
    assert PhaseOk(s, t);
    var s' := Apply(s, Transfer(t)).0;
    var e := s.threads[t].e;
    FindUnique(s.cache.entries, e);
    forall k | 0 <= k < |s.device| ensures ViewAt(s', k) == ViewAt(s, k) {
      SectorsKept(s.cache.entries, s'.cache.entries, k);
    }
    SameViews(s, s');
  }

  lemma FinishKeeps(s: State, t: nat)
    requires Inv(s) && Enabled(s, Finish(t))
    ensures Inv(Apply(s, Finish(t)).0)
  {
    assert PhaseOk(s, t);
    var s' := Apply(s, Finish(t)).0;
    var e := s.threads[t].e;
    assert s.cache.entries[e].data == s.device[s.cache.entries[e].sector];
    forall u | 0 <= u < |s.threads| ensures PhaseOk(s', u) {
      assert PhaseOk(s, u);
    }
    StillAttended(s, s', t);
  }

  lemma FinishView(s: State, t: nat)
    requires Inv(s) && Enabled(s, Finish(t))
    ensures View(Apply(s, Finish(t)).0) == View(s)
  {
    assert PhaseOk(s, t);
    var s' := Apply(s, Finish(t)).0;
    var e := s.threads[t].e;
    FindUnique(s.cache.entries, e);
    assert s.cache.entries[e].data == s.device[s.cache.entries[e].sector];
    forall k | 0 <= k < |s.device| ensures ViewAt(s', k) == ViewAt(s, k) {
      SectorsKept(s.cache.entries, s'.cache.entries, k);
    }
    SameViews(s, s');
  }

  lemma AllBusy(c: Cache)
    requires InRange(c.lru, |c.entries|) && CandidateBefore(c.entries, c.lru, |c.lru|).None?
    requires forall e :: 0 <= e < |c.entries| ==> e in c.lru
    ensures forall e :: 0 <= e < |c.entries| ==> !c.entries[e].ready
  {
    forall e | 0 <= e < |c.entries| ensures !c.entries[e].ready {
      assert c.lru[Position(c.lru, e)] == e;
    }
  }

  lemma IterateRefines(s: State, t: nat)
    requires Inv(s) && Enabled(s, Iterate(t))
    ensures Refines(s, Apply(s, Iterate(t)))
  {
    assert PhaseOk(s, t);
    var s' := Apply(s, Iterate(t)).0;
    match Look(s.cache, s.threads[t].req.sector)
    case Hit(_) => HitKeeps(s, t); HitView(s, t);
    case MustClean(_) => StartCleanKeeps(s, t); StartCleanView(s, t);
    case MustLoad(_) => StartLoadKeeps(s, t); StartLoadView(s, t);
    case Busy(_) => RetargetRefines(s, s', t);
    case NoneReady =>
      assert PhaseOk(s', t) by { AllBusy(s.cache); }
      RetargetRefines(s, s', t);
  }

  /** One step of any thread, from any state the invariant allows. */
  lemma StepRefines(s: State, a: Action)
    requires Inv(s) && Enabled(s, a)
    ensures Refines(s, Apply(s, a))
  {
    assert PhaseOk(s, a.t);
    var s' := Apply(s, a).0;
    match a
    case Call(t, req) => RetargetRefines(s, s', t);
    case Acquire(t) => RetargetRefines(s, s', t);
    case Iterate(t) => IterateRefines(s, t);
    case Transfer(t) => TransferKeeps(s, t); TransferView(s, t);
    case Finish(t) => FinishKeeps(s, t); FinishView(s, t);
  }

  // ---------------------------------------------------------------------------------
  // Whole runs
  // ---------------------------------------------------------------------------------

  ghost function After(s: State, a: Action): (r: State)
    requires Inv(s) && Enabled(s, a)
    ensures Inv(r) && |r.threads| == |s.threads|
  {
    StepRefines(s, a);
    Apply(s, a).0
  }

  /** `acts` is a possible interleaving from `s`. */
  ghost predicate Possible(s: State, acts: seq<Action>)
    requires Inv(s)
    decreases |acts|
  {
    acts == [] || (Enabled(s, acts[0]) && Possible(After(s, acts[0]), acts[1..]))
  }

  ghost function Final(s: State, acts: seq<Action>): (r: State)
    requires Inv(s) && Possible(s, acts)
    ensures Inv(r) && |r.threads| == |s.threads|
    decreases |acts|
  {
    if acts == [] then s else Final(After(s, acts[0]), acts[1..])
  }

  /** What each step of a run does for a caller: a read or a write at the moment it copies its
      bytes, nothing at any other step. */
  ghost function Trace(s: State, acts: seq<Action>): (r: seq<Event>)
    requires Inv(s) && Possible(s, acts)
    decreases |acts|
  {
    if acts == [] then [] else [Apply(s, acts[0]).1] + Trace(After(s, acts[0]), acts[1..])
  }

  ghost predicate LegalTrace(disk: seq<Sector>, trace: seq<Event>)
    decreases |trace|
  {
    trace == [] || (Legal(disk, trace[0]) && LegalTrace(Effect(disk, trace[0]), trace[1..]))
  }

  ghost function DiskAfter(disk: seq<Sector>, trace: seq<Event>): (r: seq<Sector>)
    requires LegalTrace(disk, trace)
    decreases |trace|
  {
    if trace == [] then disk else DiskAfter(Effect(disk, trace[0]), trace[1..])
  }

  /** Every interleaving is a run of the plain disk. */
  lemma {:induction false} RunRefines(s: State, acts: seq<Action>)
    requires Inv(s) && Possible(s, acts)
    ensures LegalTrace(View(s), Trace(s, acts))
    ensures View(Final(s, acts)) == DiskAfter(View(s), Trace(s, acts))
    decreases |acts|
  {
    if acts != [] {
      StepRefines(s, acts[0]);
      var s' := After(s, acts[0]);
      RunRefines(s', acts[1..]);
      assert Trace(s, acts)[1..] == Trace(s', acts[1..]);
    }
  }

  // ---------------------------------------------------------------------------------
  // Every request is answered, in order
  // ---------------------------------------------------------------------------------

  /** The event is the one this request of thread `t` asks for. */
  predicate Answers(t: nat, req: Request, ev: Event) {
    match req
    case Read(sector, offset, length) =>
      ev.DidRead? && ev.t == t && ev.sector == sector && ev.offset == offset && |ev.result| == length
    case Write(sector, offset, bytes) => ev == DidWrite(t, sector, offset, bytes)
  }

  function Pending(ph: Phase): (r: seq<Request>) { if ph.Idle? then [] else [ph.req] }

  function CallOf(a: Action, t: nat): (r: seq<Request>) { if a.Call? && a.t == t then [a.req] else [] }

  function EventOf(ev: Event, t: nat): (r: seq<Event>) { if !ev.Silent? && ev.t == t then [ev] else [] }

  /** The requests that thread `t` makes in a run, in order. */
  function Calls(acts: seq<Action>, t: nat): (r: seq<Request>) {
    if acts == [] then [] else CallOf(acts[0], t) + Calls(acts[1..], t)
  }

  /** What happens for thread `t` in a run, in order. */
  function EventsOf(trace: seq<Event>, t: nat): (r: seq<Event>) {
    if trace == [] then [] else EventOf(trace[0], t) + EventsOf(trace[1..], t)
  }

  /** The first of the requests have been answered, one event for each, and `rest` are left. */
  predicate Served(t: nat, reqs: seq<Request>, evs: seq<Event>, rest: seq<Request>) {
    && |evs| <= |reqs| && rest == reqs[|evs|..]
    && forall i :: 0 <= i < |evs| ==> Answers(t, reqs[i], evs[i])
  }

  lemma IterateServes(s: State, t: nat)
    requires Inv(s) && Enabled(s, Iterate(t))
    ensures var (s', ev) := Apply(s, Iterate(t));
      && |s'.threads| == |s.threads| && (forall u :: 0 <= u < |s.threads| && u != t ==> s'.threads[u] == s.threads[u])
      && if ev.Silent? then Pending(s'.threads[t]) == Pending(s.threads[t])
         else ev.t == t && Answers(t, s.threads[t].req, ev) && s'.threads[t].Idle?
  {
    assert PhaseOk(s, t);
  }

  lemma SilentServes(s: State, a: Action, t: nat)
    requires Inv(s) && Enabled(s, a) && !a.Iterate? && t < |s.threads|
    ensures var (s', ev) := Apply(s, a);
      ev.Silent? && |s'.threads| == |s.threads| && Pending(s'.threads[t]) == Pending(s.threads[t]) + CallOf(a, t)
  {
    assert PhaseOk(s, a.t);
  }

  /** A step answers the request of the thread that takes it, or leaves it pending. */
  lemma StepServes(s: State, a: Action, t: nat)
    requires Inv(s) && Enabled(s, a) && t < |s.threads|
    ensures Served(t, Pending(s.threads[t]) + CallOf(a, t), EventOf(Apply(s, a).1, t), Pending(After(s, a).threads[t]))
  {
    if a.Iterate? { IterateServes(s, a.t); } else { SilentServes(s, a, t); }
  }

  lemma ServedTwice(t: nat, reqs: seq<Request>, evs: seq<Event>, mid: seq<Request>,
                    more: seq<Request>, evs': seq<Event>, rest: seq<Request>)
    requires Served(t, reqs, evs, mid) && Served(t, mid + more, evs', rest)
    ensures Served(t, reqs + more, evs + evs', rest)
  {
    assert (reqs + more)[|evs|..] == mid + more;
    assert (reqs + more)[|evs + evs'|..] == (mid + more)[|evs'|..];
    forall i | 0 <= i < |evs + evs'| ensures Answers(t, (reqs + more)[i], (evs + evs')[i]) {
      if i >= |evs| { assert (reqs + more)[i] == (mid + more)[i - |evs|]; }
    }
  }

  lemma ServedShift(t: nat, p: seq<Request>, c: seq<Request>, cs: seq<Request>, evs: seq<Event>, rest: seq<Request>)
    requires Served(t, p + c + cs, evs, rest)
    ensures Served(t, p + (c + cs), evs, rest)
  {
    assert p + (c + cs) == p + c + cs;
  }

  lemma ServedFirst(t: nat, p: seq<Request>, acts: seq<Action>, trace: seq<Event>, mid: seq<Request>,
                    rest: seq<Request>)
    requires acts != [] && trace != []
    requires Served(t, p + CallOf(acts[0], t), EventOf(trace[0], t), mid)
    requires Served(t, mid + Calls(acts[1..], t), EventsOf(trace[1..], t), rest)
    ensures Served(t, p + Calls(acts, t), EventsOf(trace, t), rest)
  {
    var c, cs, ev, evs := CallOf(acts[0], t), Calls(acts[1..], t), EventOf(trace[0], t), EventsOf(trace[1..], t);
    ServedTwice(t, p + c, ev, mid, cs, evs, rest);
    ServedShift(t, p, c, cs, ev + evs, rest);
  }

  /** Over every run the events of a thread answer its requests one by one, in the order of the
      calls, and what is not answered yet, at most one request, is pending. */
  lemma {:induction false} RunServes(s: State, acts: seq<Action>, t: nat)
    requires Inv(s) && Possible(s, acts) && t < |s.threads|
    ensures Served(t, Pending(s.threads[t]) + Calls(acts, t), EventsOf(Trace(s, acts), t),
      Pending(Final(s, acts).threads[t]))
    decreases |acts|
  {
    if acts != [] {
      StepServes(s, acts[0], t);
      var s' := After(s, acts[0]);
      RunServes(s', acts[1..], t);
      assert Trace(s, acts)[1..] == Trace(s', acts[1..]);
      ServedFirst(t, Pending(s.threads[t]), acts, Trace(s, acts), Pending(s'.threads[t]),
        Pending(Final(s, acts).threads[t]));
    }
  }

  /** `bufcache_init`: the entries are pushed to the front one after another. */
  function Start(device: seq<Sector>, threads: nat): (r: State) {
    State(device,
          Cache(seq(NUM_ENTRIES, _ => Entry(INVALID_SECTOR, true, false, seq(SECTOR_SIZE, _ => 0))),
                seq(NUM_ENTRIES, i requires 0 <= i < NUM_ENTRIES => NUM_ENTRIES - 1 - i)),
          None,
          seq(threads, _ => Idle))
  }

  lemma StartOk(device: seq<Sector>, threads: nat)
    requires |device| <= INVALID_SECTOR
    ensures Inv(Start(device, threads))
    ensures View(Start(device, threads)) == device
  {
    var s := Start(device, threads);
    forall e | 0 <= e < NUM_ENTRIES ensures e in s.cache.lru {
      assert s.cache.lru[NUM_ENTRIES - 1 - e] == e;
    }
  }

  ghost function Started(device: seq<Sector>, threads: nat): (s: State)
    requires |device| <= INVALID_SECTOR
    ensures Inv(s) && View(s) == device && |s.threads| == threads && forall t :: 0 <= t < threads ==> s.threads[t].Idle?
  {
    StartOk(device, threads);
    Start(device, threads)
  }

  /** A request for sector -1 passes the assertions and hits an unused entry: a read returns what
      happens to be in its buffer, and a write makes an entry dirty that no device has a sector for. */
  lemma UnusedHit(s: State, e: nat, t: nat, offset: nat, bytes: seq<Byte>)
    requires Inv(s) && Find(s.cache.entries, INVALID_SECTOR) == Some(e) && offset + |bytes| <= SECTOR_SIZE
    ensures Look(s.cache, INVALID_SECTOR) == Hit(e)
    ensures var entry := Copy(s.cache.entries[e], t, Write(INVALID_SECTOR, offset, bytes)).0;
      !Coherent(s.device, s.cache.entries[e := entry])
  {
    var es := s.cache.entries[e := Copy(s.cache.entries[e], t, Write(INVALID_SECTOR, offset, bytes)).0];
    assert es[e].dirty && es[e].sector == INVALID_SECTOR;
  }

  /** From start-up, for any device, any number of threads and any interleaving: the events are
      those of one atomic disk, each thread's events answer its calls one by one in their order,
      and no two entries share a sector. */
  lemma CacheIsAtomicDisk(device: seq<Sector>, threads: nat, acts: seq<Action>)
    requires |device| <= INVALID_SECTOR && Possible(Started(device, threads), acts)
    ensures var s := Started(device, threads);
      && LegalTrace(device, Trace(s, acts))
      && View(Final(s, acts)) == DiskAfter(device, Trace(s, acts))
      && NoDuplicates(Final(s, acts).cache.entries)
      && |Final(s, acts).threads| == threads
      && forall t :: 0 <= t < threads ==>
           Served(t, Calls(acts, t), EventsOf(Trace(s, acts), t), Pending(Final(s, acts).threads[t]))
  {
    var s := Started(device, threads);
    RunRefines(s, acts);
    forall t | 0 <= t < threads
      ensures Served(t, Calls(acts, t), EventsOf(Trace(s, acts), t), Pending(Final(s, acts).threads[t]))
    {
      RunServes(s, acts, t);
      assert Pending(s.threads[t]) + Calls(acts, t) == Calls(acts, t);
    }
  }

  // ---------------------------------------------------------------------------------
  // No deadlock, and completion of a request left alone
  // ---------------------------------------------------------------------------------

  /** As long as some request is pending, some pending request can take a step. */
  lemma NoDeadlock(s: State, t: nat)
    requires Inv(s) && t < |s.threads| && !s.threads[t].Idle?
    ensures exists a: Action :: !a.Call? && Enabled(s, a)
  {
    assert PhaseOk(s, t);
    if s.holder.Some? {
      assert PhaseOk(s, s.holder.value);
      assert Enabled(s, Iterate(s.holder.value));
    } else if s.threads[t].Acquiring? {
      assert Enabled(s, Acquire(t));
    } else {
      var e := if s.threads[t].WaitAny? then 0 else s.threads[t].e;
      assert !s.cache.entries[e].ready;
      var u: nat :| Owns(s.threads, u, e);
      assert PhaseOk(s, u);
      assert Enabled(s, if s.threads[u].done < SECTOR_SIZE then Transfer(u) else Finish(u));
    }
  }

  function DirtyCount(entries: seq<Entry>): (n: nat) {
    if entries == [] then 0 else (if entries[0].dirty then 1 else 0) + DirtyCount(entries[1..])
  }

  lemma {:induction false} DirtyUpdate(entries: seq<Entry>, e: nat, entry: Entry)
    requires e < |entries|
    ensures DirtyCount(entries[e := entry]) ==
      DirtyCount(entries) + (if entry.dirty then 1 else 0) - (if entries[e].dirty then 1 else 0)
  {
    if e == 0 {
      assert entries[e := entry][1..] == entries[1..];
    } else {
      DirtyUpdate(entries[1..], e - 1, entry);
      assert entries[e := entry][1..] == entries[1..][e - 1 := entry];
    }
  }

  /** The sum of a number that a phase determines, over all threads. */
  function Sum(threads: seq<Phase>, f: Phase -> nat): (r: nat) {
    if threads == [] then 0 else f(threads[0]) + Sum(threads[1..], f)
  }

  lemma {:induction false} SumUpdate(threads: seq<Phase>, t: nat, ph: Phase, f: Phase -> nat)
    requires t < |threads|
    ensures Sum(threads[t := ph], f) == Sum(threads, f) + f(ph) - f(threads[t])
  {
    if t == 0 {
      assert threads[t := ph][1..] == threads[1..];
    } else {
      SumUpdate(threads[1..], t - 1, ph, f);
      assert threads[t := ph][1..] == threads[1..][t - 1 := ph];
    }
  }

  lemma {:induction false} SumSame(threads: seq<Phase>, threads': seq<Phase>, f: Phase -> nat)
    requires |threads| == |threads'| && forall t :: 0 <= t < |threads| ==> f(threads[t]) == f(threads'[t])
    ensures Sum(threads, f) == Sum(threads', f)
  {
    if threads != [] { SumSame(threads[1..], threads'[1..], f); }
  }

  lemma {:induction false} SumBelow(threads: seq<Phase>, f: Phase -> nat, c: nat)
    requires forall t :: 0 <= t < |threads| ==> f(threads[t]) <= c
    ensures Sum(threads, f) <= c * |threads|
  {
    if threads != [] { SumBelow(threads[1..], f, c); }
  }

  function Waiting(ph: Phase): (r: nat) { if ph.Idle? then 0 else 1 }

  function Outside(ph: Phase): (r: nat) { if ph.Idle? || ph.Loading? then 0 else 1 }

  function Loads(ph: Phase): (r: nat) { if ph.Loading? then 1 else 0 }

  function Turns(ph: Phase): (r: nat) { if ph.Acquiring? then 2 else if ph.Running? then 1 else 0 }

  function BytesLeft(ph: Phase): (r: nat) {
    if ph.InFlight() && ph.done <= SECTOR_SIZE then SECTOR_SIZE - ph.done else 0
  }

  predicate HolderOk(s: State) {
    s.holder.Some? ==> s.holder.value < |s.threads| && s.threads[s.holder.value].Running?
  }

  lemma HolderRuns(s: State)
    requires Inv(s)
    ensures HolderOk(s)
  {
    if s.holder.Some? { assert PhaseOk(s, s.holder.value); }
  }

  /** The thread that has the lock will find its sector ready. */
  predicate HitAhead(s: State)
    requires WellShaped(s) && HolderOk(s)
  {
    s.holder.Some? && Look(s.cache, s.threads[s.holder.value].req.sector).Hit?
  }

  /** How far the pending requests are from being answered, the most significant number first: how
      many there are; how many entries are dirty; how many threads are neither loading their sector
      nor about to find it; how many are loading; how many turns they are from a wait; and how many
      bytes are to be moved. */
  datatype Distance = Distance(pending: nat, dirty: nat, outside: int, loads: nat, turns: nat, bytes: nat)

  ghost function DistanceOf(s: State): (d: Distance)
    requires Inv(s)
  {
    HolderRuns(s);
    Distance(Sum(s.threads, Waiting), DirtyCount(s.cache.entries),
             Sum(s.threads, Outside) - (if HitAhead(s) then 1 else 0),
             Sum(s.threads, Loads), Sum(s.threads, Turns), Sum(s.threads, BytesLeft))
  }

  predicate Closer(d': Distance, d: Distance) {
    d'.pending < d.pending || (d'.pending == d.pending &&
    (d'.dirty < d.dirty || (d'.dirty == d.dirty &&
    (d'.outside < d.outside || (d'.outside == d.outside &&
    (d'.loads < d.loads || (d'.loads == d.loads &&
    (d'.turns < d.turns || (d'.turns == d.turns && d'.bytes < d.bytes)))))))))
  }

  lemma SumsUpdate(threads: seq<Phase>, t: nat, ph: Phase)
    requires t < |threads|
    ensures Sum(threads[t := ph], Waiting) == Sum(threads, Waiting) + Waiting(ph) - Waiting(threads[t])
    ensures Sum(threads[t := ph], Outside) == Sum(threads, Outside) + Outside(ph) - Outside(threads[t])
    ensures Sum(threads[t := ph], Loads) == Sum(threads, Loads) + Loads(ph) - Loads(threads[t])
    ensures Sum(threads[t := ph], Turns) == Sum(threads, Turns) + Turns(ph) - Turns(threads[t])
    ensures Sum(threads[t := ph], BytesLeft) == Sum(threads, BytesLeft) + BytesLeft(ph) - BytesLeft(threads[t])
  {
    SumUpdate(threads, t, ph, Waiting);
    SumUpdate(threads, t, ph, Outside);
    SumUpdate(threads, t, ph, Loads);
    SumUpdate(threads, t, ph, Turns);
    SumUpdate(threads, t, ph, BytesLeft);
  }

  /** Waking the waiters changes neither how many threads are pending nor how many are outside
      or loading. */
  lemma SumsWake(threads: seq<Phase>, e: nat)
    ensures Sum(Broadcast(threads, e), Waiting) == Sum(threads, Waiting)
    ensures Sum(Broadcast(threads, e), Outside) == Sum(threads, Outside)
    ensures Sum(Broadcast(threads, e), Loads) == Sum(threads, Loads)
  {
    SumSame(threads, Broadcast(threads, e), Waiting);
    SumSame(threads, Broadcast(threads, e), Outside);
    SumSame(threads, Broadcast(threads, e), Loads);
  }

  lemma AcquireCloser(s: State, t: nat)
    requires Inv(s) && Enabled(s, Acquire(t))
    ensures Closer(DistanceOf(After(s, Acquire(t))), DistanceOf(s))
  {
    SumsUpdate(s.threads, t, After(s, Acquire(t)).threads[t]);
  }

  lemma IterateCloser(s: State, t: nat)
    requires Inv(s) && Enabled(s, Iterate(t))
    ensures Closer(DistanceOf(After(s, Iterate(t))), DistanceOf(s))
  {
    assert PhaseOk(s, t);
    var s' := After(s, Iterate(t));
    SumsUpdate(s.threads, t, s'.threads[t]);
    var r := Look(s.cache, s.threads[t].req.sector);
    if r.MustClean? || r.MustLoad? {
      DirtyUpdate(s.cache.entries, r.e, s'.cache.entries[r.e]);
    }
  }

  lemma TransferSame(s: State, t: nat)
    requires Inv(s) && Enabled(s, Transfer(t))
    ensures var s' := After(s, Transfer(t));
      DirtyCount(s'.cache.entries) == DirtyCount(s.cache.entries) && HolderOk(s) && HolderOk(s') &&
        HitAhead(s') == HitAhead(s)
  {
    assert PhaseOk(s, t);
    var s' := After(s, Transfer(t));
    var e := s.threads[t].e;
    DirtyUpdate(s.cache.entries, e, s'.cache.entries[e]);
    assert s.cache.entries[e := s'.cache.entries[e]] == s'.cache.entries;
    HolderRuns(s);
    HolderRuns(s');
    if s.holder.Some? {
      SectorsKept(s.cache.entries, s'.cache.entries, s.threads[s.holder.value].req.sector);
    }
  }

  lemma TransferCloser(s: State, t: nat)
    requires Inv(s) && Enabled(s, Transfer(t))
    ensures Closer(DistanceOf(After(s, Transfer(t))), DistanceOf(s))
  {
    assert PhaseOk(s, t);
    SumsUpdate(s.threads, t, After(s, Transfer(t)).threads[t]);
    TransferSame(s, t);
  }

  /** After a load the same thread finds its sector; after a write-back an entry less is dirty. */
  lemma FinishCloser(s: State, t: nat)
    requires Inv(s) && Enabled(s, Finish(t))
    ensures Closer(DistanceOf(After(s, Finish(t))), DistanceOf(s))
  {
    assert PhaseOk(s, t);
    var s' := After(s, Finish(t));
    var e := s.threads[t].e;
    SumsWake(s.threads, e);
    SumsUpdate(Broadcast(s.threads, e), t, s'.threads[t]);
    DirtyUpdate(s.cache.entries, e, s'.cache.entries[e]);
    if s.threads[t].Loading? { FindUnique(s'.cache.entries, e); }
  }

  /** Every step but a new call brings the pending requests closer to their answers, whichever
      thread takes it and whatever the others are doing. */
  lemma StepCloser(s: State, a: Action)
    requires Inv(s) && Enabled(s, a) && !a.Call?
    ensures Closer(DistanceOf(After(s, a)), DistanceOf(s))
  {
    match a
    case Acquire(t) => AcquireCloser(s, t);
    case Iterate(t) => IterateCloser(s, t);
    case Transfer(t) => TransferCloser(s, t);
    case Finish(t) => FinishCloser(s, t);
  }

  /** The distance written as one number, for `n` threads. */
  predicate Within(d: Distance, n: nat) {
    d.dirty <= NUM_ENTRIES && 0 <= d.outside <= n && d.loads <= n && d.turns <= 2 * n && d.bytes <= SECTOR_SIZE * n
  }

  function Digit(hi: nat, lo: nat, w: nat): (r: nat) { hi * w + lo }

  lemma DigitLess(hi: nat, lo: nat, hi': nat, lo': nat, w: nat)
    requires lo < w && lo' < w && (hi' < hi || (hi' == hi && lo' < lo))
    ensures Digit(hi', lo', w) < Digit(hi, lo, w)
  {
    if hi' < hi { assert hi' * w + w <= hi * w by { assert (hi' + 1) * w <= hi * w; } }
  }

  function Steps2(d: Distance): (r: nat) { Digit(d.pending, d.dirty, NUM_ENTRIES + 1) }

  function Steps3(d: Distance, n: nat): (r: nat)
    requires Within(d, n)
  { Digit(Steps2(d), d.outside, n + 1) }

  function Steps4(d: Distance, n: nat): (r: nat)
    requires Within(d, n)
  { Digit(Steps3(d, n), d.loads, n + 1) }

  function Steps5(d: Distance, n: nat): (r: nat)
    requires Within(d, n)
  { Digit(Steps4(d, n), d.turns, 2 * n + 1) }

  function Steps(d: Distance, n: nat): (r: nat)
    requires Within(d, n)
  { Digit(Steps5(d, n), d.bytes, SECTOR_SIZE * n + 1) }

  lemma CloserLess(d': Distance, d: Distance, n: nat)
    requires Within(d', n) && Within(d, n) && Closer(d', d)
    ensures Steps(d', n) < Steps(d, n)
  {
    if d'.pending != d.pending || d'.dirty != d.dirty {
      DigitLess(d.pending, d.dirty, d'.pending, d'.dirty, NUM_ENTRIES + 1);
    }
    if Steps2(d') != Steps2(d) || d'.outside != d.outside {
      DigitLess(Steps2(d), d.outside, Steps2(d'), d'.outside, n + 1);
    }
    if Steps3(d', n) != Steps3(d, n) || d'.loads != d.loads {
      DigitLess(Steps3(d, n), d.loads, Steps3(d', n), d'.loads, n + 1);
    }
    if Steps4(d', n) != Steps4(d, n) || d'.turns != d.turns {
      DigitLess(Steps4(d, n), d.turns, Steps4(d', n), d'.turns, 2 * n + 1);
    }
    DigitLess(Steps5(d, n), d.bytes, Steps5(d', n), d'.bytes, SECTOR_SIZE * n + 1);
  }

  lemma {:induction false} SumAtLeast(threads: seq<Phase>, t: nat, f: Phase -> nat)
    requires t < |threads|
    ensures Sum(threads, f) >= f(threads[t])
  {
    if t > 0 { SumAtLeast(threads[1..], t - 1, f); }
  }

  lemma {:induction false} DirtyAtMost(entries: seq<Entry>)
    ensures DirtyCount(entries) <= |entries|
  {
    if entries != [] { DirtyAtMost(entries[1..]); }
  }

  lemma DistanceWithin(s: State)
    requires Inv(s)
    ensures Within(DistanceOf(s), |s.threads|)
  {
    DirtyAtMost(s.cache.entries);
    HolderRuns(s);
    if s.holder.Some? { SumAtLeast(s.threads, s.holder.value, Outside); }
    SumBelow(s.threads, Outside, 1);
    SumBelow(s.threads, Loads, 1);
    SumBelow(s.threads, Turns, 2);
    SumBelow(s.threads, BytesLeft, SECTOR_SIZE);
  }

  /** No more than this many steps are left in `s` before every request is answered. */
  ghost function StepsLeft(s: State): (r: nat)
    requires Inv(s)
  {
    DistanceWithin(s);
    Steps(DistanceOf(s), |s.threads|)
  }

  predicate NoCalls(acts: seq<Action>) { forall i :: 0 <= i < |acts| ==> !acts[i].Call? }

  lemma StepLess(s: State, a: Action)
    requires Inv(s) && Enabled(s, a) && !a.Call?
    ensures StepsLeft(After(s, a)) < StepsLeft(s)
  {
    StepCloser(s, a);
    DistanceWithin(s);
    DistanceWithin(After(s, a));
    CloserLess(DistanceOf(After(s, a)), DistanceOf(s), |s.threads|);
  }

  lemma {:induction false} RunsBounded(s: State, acts: seq<Action>)
    requires Inv(s) && Possible(s, acts) && NoCalls(acts)
    ensures |acts| + StepsLeft(Final(s, acts)) <= StepsLeft(s)
    decreases |acts|
  {
    if acts != [] {
      StepLess(s, acts[0]);
      RunsBounded(After(s, acts[0]), acts[1..]);
    }
  }

  lemma {:induction false} NoCallsMade(acts: seq<Action>, t: nat)
    requires NoCalls(acts)
    ensures Calls(acts, t) == []
  {
    if acts != [] { NoCallsMade(acts[1..], t); }
  }

  /** The loop of `bufcache_access` terminates under any interference: from any state, every
      interleaving without new calls is bounded in length, and when it cannot go on, the request of
      every thread has been answered. */
  lemma EveryRunEnds(s: State, acts: seq<Action>)
    requires Inv(s) && Possible(s, acts) && NoCalls(acts)
    ensures |acts| <= StepsLeft(s)
    ensures (forall a: Action :: Enabled(Final(s, acts), a) ==> a.Call?) ==>
      forall t :: 0 <= t < |s.threads| ==>
        Final(s, acts).threads[t].Idle? && Served(t, Pending(s.threads[t]), EventsOf(Trace(s, acts), t), [])
  {
    RunsBounded(s, acts);
    var r := Final(s, acts);
    if forall a: Action :: Enabled(r, a) ==> a.Call? {
      forall t | 0 <= t < |s.threads|
        ensures r.threads[t].Idle? && Served(t, Pending(s.threads[t]), EventsOf(Trace(s, acts), t), [])
      {
        if !r.threads[t].Idle? { NoDeadlock(r, t); }
        RunServes(s, acts, t);
        NoCallsMade(acts, t);
        assert Pending(s.threads[t]) + [] == Pending(s.threads[t]);
      }
    }
  }

  /** And there is such a run: whatever state the threads are in, they can all be served. */
  lemma AllCanBeServed(s: State) returns (acts: seq<Action>)
    requires Inv(s)
    ensures Possible(s, acts) && NoCalls(acts)
    ensures forall t :: 0 <= t < |s.threads| ==> Final(s, acts).threads[t].Idle?
    decreases StepsLeft(s)
  {
    acts := [];
    if t :| 0 <= t < |s.threads| && !s.threads[t].Idle? {
      NoDeadlock(s, t);
      var a: Action :| !a.Call? && Enabled(s, a);
      StepLess(s, a);
      var rest := AllCanBeServed(After(s, a));
      acts := [a] + rest;
      assert acts[1..] == rest;
    }
  }

  // ---------------------------------------------------------------------------------
  // The eviction order
  // ---------------------------------------------------------------------------------

  /** When entry `e` was last accessed, -1 if never. */
  function LastHit(hits: seq<nat>, e: nat): (r: int)
    ensures -1 <= r < |hits|
    ensures r >= 0 ==> hits[r] == e
    ensures forall i :: r < i < |hits| ==> hits[i] != e
  {
    if hits == [] then -1
    else if hits[|hits| - 1] == e then |hits| - 1
    else LastHit(hits[..|hits| - 1], e)
  }

  /** The list runs from the most to the least recently accessed entry. */
  predicate ByRecency(lru: seq<nat>, hits: seq<nat>) {
    forall p, q :: 0 <= p < q < |lru| ==> LastHit(hits, lru[p]) >= LastHit(hits, lru[q])
  }

  lemma HitNow(hits: seq<nat>, e: nat, x: nat)
    ensures LastHit(hits + [e], x) == if x == e then |hits| else LastHit(hits, x)
  {
    assert (hits + [e])[..|hits|] == hits;
  }

  lemma HitOrders(lru: seq<nat>, hits: seq<nat>, e: nat)
    requires e in lru && Distinct(lru) && ByRecency(lru, hits)
    ensures ByRecency(MoveToFront(lru, e), hits + [e])
  {
    var r := MoveToFront(lru, e);
    forall p, q | 0 <= p < q < |r| ensures LastHit(hits + [e], r[p]) >= LastHit(hits + [e], r[q]) {
      HitNow(hits, e, r[p]);
      HitNow(hits, e, r[q]);
      var j := MovedBehind(lru, e, q);
      if p > 0 { var i := MovedBehind(lru, e, p); }
    }
  }

  /** The entry that a completed read or write was served from. */
  function AccessOf(entries: seq<Entry>, ev: Event): (hits: seq<nat>) {
    if ev.Silent? then []
    else
      match Find(entries, ev.sector)
      case Some(e) => [e]
      case None => []
  }

  /** The entries that were accessed in a run, in order. */
  ghost function Accesses(s: State, acts: seq<Action>): (hits: seq<nat>)
    requires Inv(s) && Possible(s, acts)
    decreases |acts|
  {
    if acts == [] then []
    else AccessOf(s.cache.entries, Apply(s, acts[0]).1) + Accesses(After(s, acts[0]), acts[1..])
  }

  lemma HitAccess(s: State, t: nat)
    requires Inv(s) && Enabled(s, Iterate(t)) && Acceptable(s, s.threads[t].req)
    ensures var r, (s', ev) := Look(s.cache, s.threads[t].req.sector), ApplyIterate(s, t);
      if r.Hit? then AccessOf(s.cache.entries, ev) == [r.e] && s'.cache.lru == MoveToFront(s.cache.lru, r.e)
      else AccessOf(s.cache.entries, ev) == [] && s'.cache.lru == s.cache.lru
  {
  }

  lemma IterateKeepsRecency(s: State, t: nat, hits: seq<nat>)
    requires Inv(s) && Enabled(s, Iterate(t)) && Acceptable(s, s.threads[t].req) && ByRecency(s.cache.lru, hits)
    ensures var (s', ev) := ApplyIterate(s, t); ByRecency(s'.cache.lru, hits + AccessOf(s.cache.entries, ev))
  {
    HitAccess(s, t);
    var r := Look(s.cache, s.threads[t].req.sector);
    if r.Hit? {
      HitOrders(s.cache.lru, hits, r.e);
    } else {
      assert hits + [] == hits;
    }
  }

  lemma StepKeepsRecency(s: State, a: Action, hits: seq<nat>)
    requires Inv(s) && Enabled(s, a) && ByRecency(s.cache.lru, hits)
    ensures var (s', ev) := Apply(s, a); ByRecency(s'.cache.lru, hits + AccessOf(s.cache.entries, ev))
  {
    assert PhaseOk(s, a.t);
    if a.Iterate? {
      IterateKeepsRecency(s, a.t, hits);
    } else {
      assert hits + [] == hits;
    }
  }

  lemma Regrouped(a: seq<nat>, b: seq<nat>, c: seq<nat>)
    ensures a + b + c == a + (b + c)
  {
  }

  /** Every run keeps the list in the order of the accesses. */
  lemma {:induction false} RunKeepsRecency(s: State, acts: seq<Action>, hits: seq<nat>)
    requires Inv(s) && Possible(s, acts) && ByRecency(s.cache.lru, hits)
    ensures ByRecency(Final(s, acts).cache.lru, hits + Accesses(s, acts))
    decreases |acts|
  {
    if acts == [] {
      assert hits + [] == hits;
    } else {
      var s', now := After(s, acts[0]), AccessOf(s.cache.entries, Apply(s, acts[0]).1);
      StepKeepsRecency(s, acts[0], hits);
      RunKeepsRecency(s', acts[1..], hits + now);
      Regrouped(hits, now, Accesses(s', acts[1..]));
    }
  }

  /** The last ready entry of a list in this order was accessed no later than any other. */
  lemma LastReadyIsOldest(c: Cache, hits: seq<nat>, p: nat, d: nat)
    requires InRange(c.lru, |c.entries|) && ByRecency(c.lru, hits) && d in c.lru
    requires CandidateBefore(c.entries, c.lru, |c.lru|) == Some(p) && d < |c.entries| && c.entries[d].ready
    ensures LastHit(hits, c.lru[p]) <= LastHit(hits, d)
  {
    assert c.lru[Position(c.lru, d)] == d;
  }

  /** Entry `e` is taken, to be written back or to be filled with another sector. */
  predicate Taken(c: Cache, c': Cache, e: nat) {
    e < |c.entries| && e < |c'.entries| && c.entries[e].ready && !c'.entries[e].ready
  }

  lemma OnlyTurnsTake(s: State, a: Action, e: nat)
    requires Inv(s) && Enabled(s, a) && Taken(s.cache, Apply(s, a).0.cache, e)
    ensures a.Iterate? && Acceptable(s, s.threads[a.t].req) && Apply(s, a) == ApplyIterate(s, a.t)
  {
    assert PhaseOk(s, a.t);
  }

  lemma TakesCandidate(s: State, t: nat, e: nat) returns (p: nat)
    requires Inv(s) && Enabled(s, Iterate(t)) && Acceptable(s, s.threads[t].req)
    requires Taken(s.cache, ApplyIterate(s, t).0.cache, e)
    ensures CandidateBefore(s.cache.entries, s.cache.lru, |s.cache.lru|) == Some(p) && s.cache.lru[p] == e
  {
    p := CandidateBefore(s.cache.entries, s.cache.lru, |s.cache.lru|).value;
  }

  /** In every run, when an entry is taken, no ready entry was accessed longer ago. */
  lemma EvictsLeastRecent(device: seq<Sector>, threads: nat, acts: seq<Action>, a: Action, e: nat, d: nat)
    requires |device| <= INVALID_SECTOR && Possible(Started(device, threads), acts)
    requires Enabled(Final(Started(device, threads), acts), a)
    requires var s := Final(Started(device, threads), acts);
      Taken(s.cache, Apply(s, a).0.cache, e) && d < NUM_ENTRIES && s.cache.entries[d].ready
    ensures var hits := Accesses(Started(device, threads), acts); LastHit(hits, e) <= LastHit(hits, d)
  {
    var s, hits := Final(Started(device, threads), acts), Accesses(Started(device, threads), acts);
    RunKeepsRecency(Started(device, threads), acts, []);
    assert [] + hits == hits;
    OnlyTurnsTake(s, a, e);
    var p := TakesCandidate(s, a.t, e);
    LastReadyIsOldest(s.cache, hits, p, d);
  }
}
