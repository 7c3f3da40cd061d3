/**
 The copy loops of `inode_read_at` and `inode_write_at` on top of the buffer cache.  The loops hand
 the cache one request for each chunk; other threads use the cache at the same time.  What the file
 holds is what the cache shows.
 */
module CachedFiles {
  import opened Sectors
  import opened Sequences
  import opened InodeIndex
  import opened Volume
  import opened FileBytes
  import C = BufCache

  /** One turn of the loop of `inode_write_at`: these bytes go to this place of the file. */
  datatype Piece = Piece(pos: nat, bytes: seq<Byte>)

  /** One turn of the loop of `inode_read_at`. */
  datatype Span = Span(pos: nat, len: nat)

  /** A turn moves bytes of one sector of the file. */
  predicate Fits(length: nat, pos: nat, len: nat) {
    pos < length && pos + len <= length && pos % SECTOR_SIZE + len <= SECTOR_SIZE
  }

  predicate PieceFits(length: nat, p: Piece) { Fits(length, p.pos, |p.bytes|) }

  predicate SpanFits(length: nat, p: Span) { Fits(length, p.pos, p.len) }

  predicate PiecesFit(length: nat, pieces: seq<Piece>) {
    forall i :: 0 <= i < |pieces| ==> PieceFits(length, pieces[i])
  }

  predicate SpansFit(length: nat, spans: seq<Span>) { forall i :: 0 <= i < |spans| ==> SpanFits(length, spans[i]) }

  predicate SpansIn(spans: seq<Span>, lo: nat, hi: nat) {
    forall i :: 0 <= i < |spans| ==> lo <= spans[i].pos && spans[i].pos + spans[i].len <= hi
  }

  /** The turns that write `bytes` at `at`. */
  function Pieces(length: nat, at: nat, bytes: seq<Byte>): (r: seq<Piece>)
    ensures PiecesFit(length, r)
    decreases |bytes|
  {
    if bytes == [] || at >= length then []
    else
      var n := Chunk(length, at, |bytes|);
      [Piece(at, bytes[..n])] + Pieces(length, at + n, bytes[n..])
  }

  /** The turns that read `size` bytes at `at`. */
  function Spans(length: nat, at: nat, size: nat): (r: seq<Span>)
    ensures SpansFit(length, r) && SpansIn(r, at, at + size)
    decreases size
  {
    if size == 0 || at >= length then []
    else
      var n := Chunk(length, at, size);
      [Span(at, n)] + Spans(length, at + n, size - n)
  }

  /** The data sectors of a file. */
  predicate Sized(length: nat, data: seq<nat>) { |data| == SectorCount(length) }

  function SectorAt(length: nat, data: seq<nat>, pos: nat): (k: nat)
    requires Sized(length, data) && pos < length
    ensures k in data
  {
    BlockInRange(length, pos);
    data[pos / SECTOR_SIZE]
  }

  function WriteRequests(length: nat, data: seq<nat>, pieces: seq<Piece>): (r: seq<C.Request>)
    requires Sized(length, data) && PiecesFit(length, pieces)
  {
    seq(|pieces|, i requires 0 <= i < |pieces| =>
      C.Write(SectorAt(length, data, pieces[i].pos), pieces[i].pos % SECTOR_SIZE, pieces[i].bytes))
  }

  function ReadRequests(length: nat, data: seq<nat>, spans: seq<Span>): (r: seq<C.Request>)
    requires Sized(length, data) && SpansFit(length, spans)
  {
    seq(|spans|, i requires 0 <= i < |spans| =>
      C.Read(SectorAt(length, data, spans[i].pos), spans[i].pos % SECTOR_SIZE, spans[i].len))
  }

  /** The contents after the turns. */
  function Written(c: seq<Byte>, pieces: seq<Piece>): (r: seq<Byte>)
    requires PiecesFit(|c|, pieces)
    ensures |r| == |c|
    decreases |pieces|
  {
    if pieces == [] then c else Written(Splice(c, pieces[0].pos, pieces[0].bytes), pieces[1..])
  }

  function Gathered(c: seq<Byte>, spans: seq<Span>): (r: seq<Byte>)
    requires SpansFit(|c|, spans)
  {
    if spans == [] then [] else c[spans[0].pos..spans[0].pos + spans[0].len] + Gathered(c, spans[1..])
  }

  /** The turns of the loops make up the whole: the bytes laid over the file, and the slice of it. */
  lemma {:induction false} PiecesWrite(c: seq<Byte>, at: nat, bytes: seq<Byte>)
    ensures Written(c, Pieces(|c|, at, bytes)) == Overlay(c, at, bytes)
    decreases |bytes|
  {
    if bytes != [] && at < |c| {
      var n := Chunk(|c|, at, |bytes|);
      var c' := Splice(c, at, bytes[..n]);
      PiecesWrite(c', at + n, bytes[n..]);
      assert Pieces(|c|, at, bytes)[1..] == Pieces(|c|, at + n, bytes[n..]);
      OverlayChunk(c, at, bytes, n);
    }
  }

  lemma {:induction false} SpansGather(c: seq<Byte>, at: nat, size: nat, end: nat)
    requires end == at + size <= |c|
    ensures Gathered(c, Spans(|c|, at, size)) == c[at..end]
    decreases size
  {
    if size > 0 {
      var n := Chunk(|c|, at, size);
      var next, rest := at + n, size - n;
      SpansGather(c, next, rest, end);
      assert Spans(|c|, at, size)[1..] == Spans(|c|, next, rest);
      SlicesJoin(c, at, next, end);
    }
  }

  lemma OverlayChunk(c: seq<Byte>, at: nat, bytes: seq<Byte>, n: nat)
    requires n <= |bytes| && at + n <= |c|
    ensures Overlay(Splice(c, at, bytes[..n]), at + n, bytes[n..]) == Overlay(c, at, bytes)
  {
  }

  predicate WritesTo(req: C.Request, where: seq<nat>) { req.Write? && req.sector in where }

  predicate ReadsFrom(req: C.Request, where: seq<nat>) { req.Read? && req.sector in where }

  function WritesIn(reqs: seq<C.Request>, where: seq<nat>): (r: seq<C.Request>) {
    if reqs == [] then []
    else (if WritesTo(reqs[0], where) then [reqs[0]] else []) + WritesIn(reqs[1..], where)
  }

  function ReadsIn(reqs: seq<C.Request>, where: seq<nat>): (r: seq<C.Request>) {
    if reqs == [] then []
    else (if ReadsFrom(reqs[0], where) then [reqs[0]] else []) + ReadsIn(reqs[1..], where)
  }

  /** A write that leaves the bytes `lo .. hi` of the file and its index sectors alone. */
  predicate Clear(req: C.Request, data: seq<nat>, index: seq<nat>, lo: nat, hi: nat) {
    req.Write? ==>
      && req.sector !in index
      && forall b :: 0 <= b < |data| && data[b] == req.sector ==>
           b * SECTOR_SIZE + req.offset + |req.bytes| <= lo || hi <= b * SECTOR_SIZE + req.offset
  }

  /** Every thread but `t` leaves them alone, with what it has under way and with its calls in the run.
      If no thread has the number `t`, that is every thread. */
  predicate OthersClear(threads: seq<C.Phase>, acts: seq<C.Action>, t: nat, data: seq<nat>, index: seq<nat>, lo: nat,
                        hi: nat) {
    && (forall u :: 0 <= u < |threads| && u != t && !threads[u].Idle? ==> Clear(threads[u].req, data, index, lo, hi))
    && (forall i :: 0 <= i < |acts| && acts[i].Call? && acts[i].t != t ==> Clear(acts[i].req, data, index, lo, hi))
  }

  /** The same bytes from `lo` to `hi`. */
  predicate Agree(c: seq<Byte>, c': seq<Byte>, lo: nat, hi: nat) {
    |c| == |c'| && forall p :: lo <= p < hi && p < |c| ==> c[p] == c'[p]
  }

  // ---------------------------------------------------------------------------------
  // One step of the cache
  // ---------------------------------------------------------------------------------

  /** A step without an event leaves the disk alone and the requests of `t` pending. */
  lemma QuietStep(s: C.State, a: C.Action, t: nat)
    requires C.Inv(s) && C.Enabled(s, a) && t < |s.threads| && C.Apply(s, a).1.Silent?
    ensures var s' := C.After(s, a);
      C.View(s') == C.View(s) && C.Pending(s'.threads[t]) == C.Pending(s.threads[t]) + C.CallOf(a, t)
  {
    C.StepRefines(s, a);
    if a.Iterate? { C.IterateServes(s, a.t); } else { C.SilentServes(s, a, t); }
  }

  /** A step with an event answers the request of the thread that takes it, on the disk. */
  lemma ServingStep(s: C.State, a: C.Action, t: nat)
    requires C.Inv(s) && C.Enabled(s, a) && t < |s.threads| && !C.Apply(s, a).1.Silent?
    ensures var s', ev := C.After(s, a), C.Apply(s, a).1;
      && !s.threads[a.t].Idle? && C.Answers(a.t, s.threads[a.t].req, ev)
      && C.Legal(C.View(s), ev) && C.View(s') == C.Effect(C.View(s), ev) && C.CallOf(a, t) == []
      && C.Pending(s'.threads[t]) == (if t == a.t then [] else C.Pending(s.threads[t]))
  {
    C.StepRefines(s, a);
    if a.Iterate? { C.IterateServes(s, a.t); } else { C.SilentServes(s, a, t); }
  }

  lemma ClearStep(s: C.State, acts: seq<C.Action>, t: nat, data: seq<nat>, index: seq<nat>, lo: nat, hi: nat, u: nat)
    requires C.Inv(s) && acts != [] && C.Enabled(s, acts[0]) && OthersClear(s.threads, acts, t, data, index, lo, hi)
    requires u < |s.threads| && u != t
    ensures var ph := C.After(s, acts[0]).threads[u]; !ph.Idle? ==> Clear(ph.req, data, index, lo, hi)
  {
    if C.Apply(s, acts[0]).1.Silent? { QuietStep(s, acts[0], u); } else { ServingStep(s, acts[0], u); }
    var ph' := C.After(s, acts[0]).threads[u];
    if !ph'.Idle? { assert C.Pending(ph')[0] == ph'.req; }
  }

  lemma StillClear(s: C.State, acts: seq<C.Action>, t: nat, data: seq<nat>, index: seq<nat>, lo: nat, hi: nat)
    requires C.Inv(s) && acts != [] && C.Enabled(s, acts[0]) && OthersClear(s.threads, acts, t, data, index, lo, hi)
    ensures OthersClear(C.After(s, acts[0]).threads, acts[1..], t, data, index, lo, hi)
  {
    var threads := C.After(s, acts[0]).threads;
    forall u | 0 <= u < |threads| && u != t && !threads[u].Idle? ensures Clear(threads[u].req, data, index, lo, hi) {
      ClearStep(s, acts, t, data, index, lo, hi, u);
    }
  }

  /** A disk that changes outside a file shows the same file. */
  lemma ElsewhereKeeps(d: Node, disk: seq<Sector>, disk': seq<Sector>, k: nat)
    requires TreeOk(d, disk) && k < |disk| == |disk'| && k !in Data(d, disk) + Index(d, disk)
    requires forall j :: 0 <= j < |disk| && j != k ==> disk'[j] == disk[j]
    ensures TreeOk(d, disk') && Data(d, disk') == Data(d, disk) && Index(d, disk') == Index(d, disk)
    ensures Contents(d, disk') == Contents(d, disk)
  {
    assert forall j :: j in Index(d, disk) ==> j in Data(d, disk) + Index(d, disk);
    assert forall j :: j in Data(d, disk) ==> j in Data(d, disk) + Index(d, disk);
    IndexFrame(d, disk, disk');
    ContentsFrame(d, disk, disk');
  }

  // ---------------------------------------------------------------------------------
  // A file on the disk that the cache shows
  // ---------------------------------------------------------------------------------

  /** The disk has the file `d` on these sectors, with the contents `c`. */
  ghost predicate Shows(d: Node, disk: seq<Sector>, data: seq<nat>, index: seq<nat>, c: seq<Byte>) {
    && TreeOk(d, disk) && Data(d, disk) == data && Index(d, disk) == index && Contents(d, disk) == c
    && NoDup(data) && Apart(index, data)
  }

  /** An event that does not write to the file's sectors. */
  lemma OtherEvent(d: Node, disk: seq<Sector>, data: seq<nat>, index: seq<nat>, c: seq<Byte>, ev: C.Event)
    requires Shows(d, disk, data, index, c) && C.Legal(disk, ev) && (ev.DidWrite? ==> ev.sector !in data + index)
    ensures Shows(d, C.Effect(disk, ev), data, index, c)
  {
    if ev.DidWrite? { ElsewhereKeeps(d, disk, C.Effect(disk, ev), ev.sector); }
  }

  /** A byte of the file that a clear write does not reach. */
  lemma ClearByte(d: Node, disk: seq<Sector>, t: nat, req: C.Request, ev: C.Event, lo: nat, hi: nat, p: nat)
    requires TreeOk(d, disk) && C.Answers(t, req, ev) && C.Legal(disk, ev) &&
      Clear(req, Data(d, disk), Index(d, disk), lo, hi)
    requires lo <= p < hi && p < d.length
    ensures p / SECTOR_SIZE < |Data(d, disk)|
    ensures var k := Data(d, disk)[p / SECTOR_SIZE]; C.Effect(disk, ev)[k][p % SECTOR_SIZE] == disk[k][p % SECTOR_SIZE]
  {
    BlockInRange(d.length, p);
    var b := p / SECTOR_SIZE;
    assert p == b * SECTOR_SIZE + p % SECTOR_SIZE;
    assert Data(d, disk)[b] < |disk|;
  }

  /** An event of a clear write: the file keeps its tree and these bytes. */
  lemma ClearEvent(d: Node, disk: seq<Sector>, data: seq<nat>, index: seq<nat>, c: seq<Byte>, t: nat, req: C.Request,
                   ev: C.Event, lo: nat, hi: nat) returns (c': seq<Byte>)
    requires Shows(d, disk, data, index, c) && C.Answers(t, req, ev) && C.Legal(disk, ev) &&
      Clear(req, data, index, lo, hi)
    ensures Shows(d, C.Effect(disk, ev), data, index, c') && Agree(c, c', lo, hi)
  {
    var disk' := C.Effect(disk, ev);
    IndexFrame(d, disk, disk');
    c' := Contents(d, disk');
    forall p | lo <= p < hi && p < |c| ensures c[p] == c'[p] {
      ClearByte(d, disk, t, req, ev, lo, hi, p);
    }
  }

  lemma {:induction false} WrittenAgree(c: seq<Byte>, c': seq<Byte>, pieces: seq<Piece>, lo: nat, hi: nat)
    requires Agree(c, c', lo, hi) && PiecesFit(|c|, pieces)
    ensures Agree(Written(c, pieces), Written(c', pieces), lo, hi)
    decreases |pieces|
  {
    if pieces != [] {
      var p := pieces[0];
      assert PieceFits(|c|, p);
      WrittenAgree(Splice(c, p.pos, p.bytes), Splice(c', p.pos, p.bytes), pieces[1..], lo, hi);
    }
  }

  lemma {:induction false} GatheredAgree(c: seq<Byte>, c': seq<Byte>, spans: seq<Span>, lo: nat, hi: nat)
    requires Agree(c, c', lo, hi) && SpansFit(|c|, spans) && SpansIn(spans, lo, hi)
    ensures Gathered(c, spans) == Gathered(c', spans)
    decreases |spans|
  {
    if spans != [] {
      var p := spans[0];
      assert SpanFits(|c|, p) && lo <= p.pos && p.pos + p.len <= hi;
      assert c[p.pos..p.pos + p.len] == c'[p.pos..p.pos + p.len];
      GatheredAgree(c, c', spans[1..], lo, hi);
    }
  }

  lemma AgreeTwice(a: seq<Byte>, b: seq<Byte>, c: seq<Byte>, lo: nat, hi: nat)
    requires Agree(a, b, lo, hi) && Agree(b, c, lo, hi)
    ensures Agree(a, c, lo, hi)
  {
  }

  /** The event of a turn. */
  lemma PieceEvent(d: Node, disk: seq<Sector>, data: seq<nat>, index: seq<nat>, c: seq<Byte>, t: nat, pos: nat,
                   bytes: seq<Byte>)
    requires Shows(d, disk, data, index, c) && Fits(d.length, pos, |bytes|)
    ensures var ev := C.DidWrite(t, SectorAt(d.length, data, pos), pos % SECTOR_SIZE, bytes);
      C.Legal(disk, ev) && Shows(d, C.Effect(disk, ev), data, index, Splice(c, pos, bytes))
  {
    ChunkTree(d, disk, pos, bytes);
    ChunkContents(d, disk, pos, bytes);
  }

  lemma SpanEvent(d: Node, disk: seq<Sector>, data: seq<nat>, index: seq<nat>, c: seq<Byte>, t: nat, pos: nat, len: nat,
                  ev: C.Event)
    requires Shows(d, disk, data, index, c) && Fits(d.length, pos, len) && C.Legal(disk, ev)
    requires C.Answers(t, C.Read(SectorAt(d.length, data, pos), pos % SECTOR_SIZE, len), ev)
    ensures ev.result == c[pos..pos + len]
  {
    ChunkRead(d, disk, pos, len);
  }

  lemma FirstCall(p: seq<C.Request>, acts: seq<C.Action>, t: nat)
    requires acts != []
    ensures p + C.Calls(acts, t) == p + C.CallOf(acts[0], t) + C.Calls(acts[1..], t)
  {
  }

  lemma FirstRequest(req: C.Request, rest: seq<C.Request>, where: seq<nat>)
    ensures WritesIn([req] + rest, where) == (if WritesTo(req, where) then [req] else []) + WritesIn(rest, where)
    ensures ReadsIn([req] + rest, where) == (if ReadsFrom(req, where) then [req] else []) + ReadsIn(rest, where)
  {
    assert ([req] + rest)[1..] == rest;
  }

  // ---------------------------------------------------------------------------------
  // Writing
  // ---------------------------------------------------------------------------------

  /** Of the requests in `p`, those that write to the file are for these turns. */
  ghost predicate Owes(p: seq<C.Request>, length: nat, data: seq<nat>, where: seq<nat>, pieces: seq<Piece>) {
    && Sized(length, data) && PiecesFit(length, pieces)
    && WritesIn(p, where) == WriteRequests(length, data, pieces)
  }

  /** The next request that writes to the file is that of the next turn. */
  lemma OwesFirst(req: C.Request, rest: seq<C.Request>, length: nat, data: seq<nat>, where: seq<nat>,
                  pieces: seq<Piece>)
    requires Owes([req] + rest, length, data, where, pieces)
    ensures WritesTo(req, where) ==>
      && pieces != []
      && req == C.Write(SectorAt(length, data, pieces[0].pos), pieces[0].pos % SECTOR_SIZE, pieces[0].bytes)
      && Owes(rest, length, data, where, pieces[1..])
    ensures !WritesTo(req, where) ==> Owes(rest, length, data, where, pieces)
  {
    FirstRequest(req, rest, where);
    var reqs := WriteRequests(length, data, pieces);
    if WritesTo(req, where) {
      assert WritesIn([req] + rest, where)[0] == req;
      assert WritesIn(rest, where) == reqs[1..];
      assert reqs[1..] == WriteRequests(length, data, pieces[1..]);
    } else {
      assert [] + WritesIn(rest, where) == WritesIn(rest, where);
    }
  }

  /** What one step does to the file, and what `t` owes then. */
  lemma WriteStep(s: C.State, acts: seq<C.Action>, t: nat, d: Node, data: seq<nat>, index: seq<nat>, c: seq<Byte>,
                  pieces: seq<Piece>, lo: nat, hi: nat) returns (c': seq<Byte>, pieces': seq<Piece>)
    requires C.Inv(s) && acts != [] && C.Enabled(s, acts[0]) && t < |s.threads|
    requires Shows(d, C.View(s), data, index, c) && OthersClear(s.threads, acts, t, data, index, lo, hi)
    requires Owes(C.Pending(s.threads[t]) + C.Calls(acts, t), d.length, data, data + index, pieces)
    ensures var s' := C.After(s, acts[0]);
      && Shows(d, C.View(s'), data, index, c')
      && Owes(C.Pending(s'.threads[t]) + C.Calls(acts[1..], t), d.length, data, data + index, pieces')
      && Agree(Written(c, pieces), Written(c', pieces'), lo, hi)
  {
    var a, s', ev, calls := acts[0], C.After(s, acts[0]), C.Apply(s, acts[0]).1, C.Calls(acts[1..], t);
    FirstCall(C.Pending(s.threads[t]), acts, t);
    c', pieces' := c, pieces;
    if ev.Silent? {
      QuietStep(s, a, t);
    } else {
      ServingStep(s, a, t);
      if a.t != t {
        assert C.Pending(s.threads[t]) + C.CallOf(a, t) == C.Pending(s.threads[t]);
        c' := ClearEvent(d, C.View(s), data, index, c, a.t, s.threads[a.t].req, ev, lo, hi);
        WrittenAgree(c, c', pieces, lo, hi);
      } else {
        var req := s.threads[t].req;
        assert C.Pending(s.threads[t]) + C.CallOf(a, t) == [req];
        assert C.Pending(s'.threads[t]) + calls == calls;
        OwesFirst(req, calls, d.length, data, data + index, pieces);
        if WritesTo(req, data + index) {
          PieceEvent(d, C.View(s), data, index, c, t, pieces[0].pos, pieces[0].bytes);
          c', pieces' := Splice(c, pieces[0].pos, pieces[0].bytes), pieces[1..];
        } else {
          OtherEvent(d, C.View(s), data, index, c, ev);
        }
      }
    }
  }

  lemma {:induction false} RunWrites(s: C.State, acts: seq<C.Action>, t: nat, d: Node, data: seq<nat>, index: seq<nat>,
                                     c: seq<Byte>, pieces: seq<Piece>, lo: nat, hi: nat) returns (c': seq<Byte>)
    requires C.Inv(s) && C.Possible(s, acts) && t < |s.threads| && C.Final(s, acts).threads[t].Idle?
    requires Shows(d, C.View(s), data, index, c) && OthersClear(s.threads, acts, t, data, index, lo, hi)
    requires Owes(C.Pending(s.threads[t]) + C.Calls(acts, t), d.length, data, data + index, pieces)
    ensures Shows(d, C.View(C.Final(s, acts)), data, index, c') && Agree(Written(c, pieces), c', lo, hi)
    decreases |acts|
  {
    if acts == [] {
      assert |WriteRequests(d.length, data, pieces)| == 0;
      c' := c;
    } else {
      StillClear(s, acts, t, data, index, lo, hi);
      var c1, pieces1 := WriteStep(s, acts, t, d, data, index, c, pieces, lo, hi);
      c' := RunWrites(C.After(s, acts[0]), acts[1..], t, d, data, index, c1, pieces1, lo, hi);
      AgreeTwice(Written(c, pieces), Written(c1, pieces1), c', lo, hi);
    }
  }

  /** The copy loop of `inode_write_at` through the cache, with any number of other readers and writers of
      the same file.  In any interleaving in which thread `t` makes the loop's requests, whatever else it
      reads, and nobody else writes to the bytes `lo .. hi` of the file or moves its blocks: these bytes
      end up as they were with the new ones laid over them, whatever is cached, evicted or written back.
      For writers of different ranges that says where every byte comes from. */
  lemma CachedWrite(s: C.State, acts: seq<C.Action>, t: nat, d: Node, data: seq<nat>, index: seq<nat>,
                    c: seq<Byte>, at: nat, bytes: seq<Byte>, lo: nat, hi: nat) returns (c': seq<Byte>)
    requires C.Inv(s) && C.Possible(s, acts) && t < |s.threads| && s.threads[t].Idle? &&
      C.Final(s, acts).threads[t].Idle?
    requires Shows(d, C.View(s), data, index, c) && OthersClear(s.threads, acts, t, data, index, lo, hi)
    requires WritesIn(C.Calls(acts, t), data + index) == WriteRequests(d.length, data, Pieces(d.length, at, bytes))
    ensures Shows(d, C.View(C.Final(s, acts)), data, index, c') && Agree(Overlay(c, at, bytes), c', lo, hi)
  {
    assert C.Pending(s.threads[t]) + C.Calls(acts, t) == C.Calls(acts, t);
    c' := RunWrites(s, acts, t, d, data, index, c, Pieces(d.length, at, bytes), lo, hi);
    PiecesWrite(c, at, bytes);
  }

  /** With no other writer at all, the whole file is the old one with the bytes laid over it. */
  lemma CachedWriteAlone(s: C.State, acts: seq<C.Action>, t: nat, d: Node, data: seq<nat>, index: seq<nat>,
                         c: seq<Byte>, at: nat, bytes: seq<Byte>)
    requires C.Inv(s) && C.Possible(s, acts) && t < |s.threads| && s.threads[t].Idle? &&
      C.Final(s, acts).threads[t].Idle?
    requires Shows(d, C.View(s), data, index, c) && OthersClear(s.threads, acts, t, data, index, 0, |c|)
    requires WritesIn(C.Calls(acts, t), data + index) == WriteRequests(d.length, data, Pieces(d.length, at, bytes))
    ensures Shows(d, C.View(C.Final(s, acts)), data, index, Overlay(c, at, bytes))
  {
    var c' := CachedWrite(s, acts, t, d, data, index, c, at, bytes, 0, |c|);
    assert c' == Overlay(c, at, bytes);
  }

  // ---------------------------------------------------------------------------------
  // Reading
  // ---------------------------------------------------------------------------------

  /** The bytes of an event that answers a read of `t` from these sectors. */
  function Delivers(ev: C.Event, t: nat, where: seq<nat>): (r: seq<Byte>) {
    if ev.DidRead? && ev.t == t && ev.sector in where then ev.result else []
  }

  /** The bytes that the reads of `t` from these sectors deliver, one after the other. */
  function Delivered(trace: seq<C.Event>, t: nat, where: seq<nat>): (r: seq<Byte>) {
    if trace == [] then [] else Delivers(trace[0], t, where) + Delivered(trace[1..], t, where)
  }

  ghost predicate Wants(p: seq<C.Request>, length: nat, data: seq<nat>, spans: seq<Span>) {
    && Sized(length, data) && SpansFit(length, spans)
    && ReadsIn(p, data) == ReadRequests(length, data, spans)
  }

  lemma WantsFirst(req: C.Request, rest: seq<C.Request>, length: nat, data: seq<nat>, spans: seq<Span>)
    requires Wants([req] + rest, length, data, spans)
    ensures ReadsFrom(req, data) ==>
      && spans != [] && req == C.Read(SectorAt(length, data, spans[0].pos), spans[0].pos % SECTOR_SIZE, spans[0].len)
      && Wants(rest, length, data, spans[1..])
    ensures !ReadsFrom(req, data) ==> Wants(rest, length, data, spans)
  {
    FirstRequest(req, rest, data);
    var reqs := ReadRequests(length, data, spans);
    if ReadsFrom(req, data) {
      assert ReadsIn([req] + rest, data)[0] == req;
      assert ReadsIn(rest, data) == reqs[1..];
      assert reqs[1..] == ReadRequests(length, data, spans[1..]);
    } else {
      assert [] + ReadsIn(rest, data) == ReadsIn(rest, data);
    }
  }

  lemma GatherFirst(c: seq<Byte>, spans: seq<Span>, got: seq<Byte>)
    requires spans != [] && SpansFit(|c|, spans) && Fits(|c|, spans[0].pos, spans[0].len)
    requires got == c[spans[0].pos..spans[0].pos + spans[0].len]
    ensures SpansFit(|c|, spans[1..]) && got + Gathered(c, spans[1..]) == Gathered(c, spans)
  {
  }

  lemma OwnRead(d: Node, disk: seq<Sector>, data: seq<nat>, index: seq<nat>, c: seq<Byte>, t: nat,
                req: C.Request, ev: C.Event, rest: seq<C.Request>, spans: seq<Span>) returns (spans': seq<Span>)
    requires Shows(d, disk, data, index, c) && C.Answers(t, req, ev) && C.Legal(disk, ev)
    requires Wants([req] + rest, d.length, data, spans)
    ensures Wants(rest, d.length, data, spans') && Delivers(ev, t, data) + Gathered(c, spans') == Gathered(c, spans)
    ensures spans' == spans || (spans != [] && spans' == spans[1..])
  {
    WantsFirst(req, rest, d.length, data, spans);
    spans' := spans;
    if ReadsFrom(req, data) {
      SpanEvent(d, disk, data, index, c, t, spans[0].pos, spans[0].len, ev);
      GatherFirst(c, spans, ev.result);
      spans' := spans[1..];
    } else {
      assert [] + Gathered(c, spans) == Gathered(c, spans);
    }
  }

  /** What one step delivers to `t`, what it still wants then, and the file then. */
  lemma ReadStep(s: C.State, acts: seq<C.Action>, t: nat, d: Node, data: seq<nat>, index: seq<nat>, c: seq<Byte>,
                 spans: seq<Span>, lo: nat, hi: nat) returns (c': seq<Byte>, spans': seq<Span>)
    requires C.Inv(s) && acts != [] && C.Enabled(s, acts[0]) && t < |s.threads| && SpansIn(spans, lo, hi)
    requires Shows(d, C.View(s), data, index, c) && OthersClear(s.threads, acts, |s.threads|, data, index, lo, hi)
    requires Wants(C.Pending(s.threads[t]) + C.Calls(acts, t), d.length, data, spans)
    ensures var s', ev := C.After(s, acts[0]), C.Apply(s, acts[0]).1;
      && Shows(d, C.View(s'), data, index, c') && SpansIn(spans', lo, hi)
      && Wants(C.Pending(s'.threads[t]) + C.Calls(acts[1..], t), d.length, data, spans')
      && Delivers(ev, t, data) + Gathered(c', spans') == Gathered(c, spans)
  {
    var a, s', ev, calls := acts[0], C.After(s, acts[0]), C.Apply(s, acts[0]).1, C.Calls(acts[1..], t);
    FirstCall(C.Pending(s.threads[t]), acts, t);
    c', spans' := c, spans;
    if ev.Silent? {
      QuietStep(s, a, t);
    } else {
      ServingStep(s, a, t);
      c' := ClearEvent(d, C.View(s), data, index, c, a.t, s.threads[a.t].req, ev, lo, hi);
      if a.t != t {
        assert C.Pending(s.threads[t]) + C.CallOf(a, t) == C.Pending(s.threads[t]);
      } else {
        assert C.Pending(s.threads[t]) + C.CallOf(a, t) == [s.threads[t].req];
        assert C.Pending(s'.threads[t]) + calls == calls;
        spans' := OwnRead(d, C.View(s), data, index, c, t, s.threads[t].req, ev, calls, spans);
      }
      GatheredAgree(c, c', spans', lo, hi);
    }
  }

  lemma {:induction false} RunReads(s: C.State, acts: seq<C.Action>, t: nat, d: Node, data: seq<nat>, index: seq<nat>,
                                    c: seq<Byte>, spans: seq<Span>, lo: nat, hi: nat)
    requires C.Inv(s) && C.Possible(s, acts) && t < |s.threads| && C.Final(s, acts).threads[t].Idle? &&
      SpansIn(spans, lo, hi)
    requires Shows(d, C.View(s), data, index, c) && OthersClear(s.threads, acts, |s.threads|, data, index, lo, hi)
    requires Wants(C.Pending(s.threads[t]) + C.Calls(acts, t), d.length, data, spans)
    ensures Delivered(C.Trace(s, acts), t, data) == Gathered(c, spans)
    decreases |acts|
  {
    if acts == [] {
      assert |ReadRequests(d.length, data, spans)| == 0;
    } else {
      var s' := C.After(s, acts[0]);
      StillClear(s, acts, |s.threads|, data, index, lo, hi);
      var c', spans' := ReadStep(s, acts, t, d, data, index, c, spans, lo, hi);
      RunReads(s', acts[1..], t, d, data, index, c', spans', lo, hi);
      assert C.Trace(s, acts)[1..] == C.Trace(s', acts[1..]);
    }
  }

  lemma SpansAre(d: Node, disk: seq<Sector>, data: seq<nat>, index: seq<nat>, c: seq<Byte>, at: nat, size: nat,
                 end: nat, spans: seq<Span>)
    requires Shows(d, disk, data, index, c) && end == at + size <= d.length && spans == Spans(d.length, at, size)
    ensures SpansIn(spans, at, end) && SpansFit(d.length, spans) && Sized(d.length, data)
    ensures Gathered(c, spans) == c[at..end]
  {
    SpansGather(c, at, size, end);
  }

  /** The copy loop of `inode_read_at` through the cache, with any number of writers elsewhere in the file:
      in any interleaving in which nobody writes to the range that is read, the reads of the loop deliver,
      put together, the bytes of the file. */
  lemma CachedRead(s: C.State, acts: seq<C.Action>, t: nat, d: Node, data: seq<nat>, index: seq<nat>,
                   c: seq<Byte>, at: nat, size: nat, end: nat)
    requires C.Inv(s) && C.Possible(s, acts) && t < |s.threads| && s.threads[t].Idle? &&
      C.Final(s, acts).threads[t].Idle?
    requires end == at + size <= d.length
    requires Shows(d, C.View(s), data, index, c) && OthersClear(s.threads, acts, |s.threads|, data, index, at, end)
    requires ReadsIn(C.Calls(acts, t), data) == ReadRequests(d.length, data, Spans(d.length, at, size))
    ensures Delivered(C.Trace(s, acts), t, data) == c[at..end]
  {
    assert C.Pending(s.threads[t]) + C.Calls(acts, t) == C.Calls(acts, t);
    var spans := Spans(d.length, at, size);
    SpansAre(d, C.View(s), data, index, c, at, size, end, spans);
    RunReads(s, acts, t, d, data, index, c, spans, at, end);
  }
}
