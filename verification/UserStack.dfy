/**
 The first page of a user stack: the command line is cut into tokens in place, the strings are
 pushed, and below them, aligned, what `main` expects: argument pointers, argv, argc, and a return
 address.  Positions are offsets in the page; the page is at `BASE`.
 */
module UserStack {
  import opened Sectors
  import opened Words

  const PGSIZE: nat := 4096
  const BASE: nat := 0xBFFF_F000
  const SPACE: int := 32
  const MAX_ARGS: nat := 100

  // ---------------------------------------------------------------------------------
  // Tokens
  // ---------------------------------------------------------------------------------

  /** The words of a line, the first of which has begun with `cur`. */
  function Split(r: seq<int>, cur: seq<int>): (t: seq<seq<int>>) {
    if r == [] then (if cur == [] then [] else [cur])
    else if r[0] != SPACE then Split(r[1..], cur + [r[0]])
    else if cur == [] then Split(r[1..], [])
    else [cur] + Split(r[1..], [])
  }

  function Tokens(r: seq<int>): (t: seq<seq<int>>) { Split(r, []) }

  function NoSpaces(r: seq<int>): (s: seq<int>) {
    if r == [] then [] else if r[0] == SPACE then NoSpaces(r[1..]) else [r[0]] + NoSpaces(r[1..])
  }

  function Joined(t: seq<seq<int>>): (r: seq<int>) {
    if t == [] then [] else t[0] + Joined(t[1..])
  }

  lemma JoinedCons(x: seq<int>, t: seq<seq<int>>)
    ensures Joined([x] + t) == x + Joined(t)
  {
    assert ([x] + t)[1..] == t;
  }

  lemma {:induction false} SplitJoins(r: seq<int>, cur: seq<int>)
    ensures Joined(Split(r, cur)) == cur + NoSpaces(r)
    decreases |r|
  {
    if r == [] {
      JoinedCons(cur, []);
    } else if r[0] != SPACE {
      SplitJoins(r[1..], cur + [r[0]]);
    } else {
      SplitJoins(r[1..], []);
      JoinedCons(cur, Split(r[1..], []));
    }
  }

  predicate IsWord(w: seq<int>) { w != [] && SPACE !in w }

  lemma {:induction false} SplitWords(r: seq<int>, cur: seq<int>)
    requires SPACE !in cur
    ensures forall i :: 0 <= i < |Split(r, cur)| ==> IsWord(Split(r, cur)[i])
    decreases |r|
  {
    if r != [] {
      if r[0] != SPACE { SplitWords(r[1..], cur + [r[0]]); } else { SplitWords(r[1..], []); }
    }
  }

  /** No token is empty or has a space in it, and together they are all of the line but its spaces. */
  lemma TokensAre(r: seq<int>)
    ensures Joined(Tokens(r)) == NoSpaces(r)
    ensures forall i :: 0 <= i < |Tokens(r)| ==> IsWord(Tokens(r)[i])
  {
    SplitJoins(r, []);
    SplitWords(r, []);
  }

  lemma {:induction false} SplitSpaces(r: seq<int>, a: nat)
    requires a <= |r| && forall i :: 0 <= i < a ==> r[i] == SPACE
    ensures Split(r, []) == Split(r[a..], [])
    decreases a
  {
    if a > 0 {
      SplitSpaces(r[1..], a - 1);
      assert r[1..][a - 1..] == r[a..];
    }
  }

  lemma {:induction false} SplitWord(r: seq<int>, cur: seq<int>, k: nat)
    requires k <= |r| && forall i :: 0 <= i < k ==> r[i] != SPACE
    ensures Split(r, cur) == Split(r[k..], cur + r[..k])
    decreases k
  {
    if k > 0 {
      SplitWord(r[1..], cur + [r[0]], k - 1);
      assert r[1..][k - 1..] == r[k..] && (cur + [r[0]]) + r[1..][..k - 1] == cur + r[..k];
    } else {
      assert r[k..] == r && cur + r[..k] == cur;
    }
  }

  /** How the first token is found: behind `a` spaces, `k` characters up to a space or the end. */
  lemma TokenCut(r: seq<int>, a: nat, k: nat)
    requires a + k <= |r| && k > 0 && (forall i :: 0 <= i < a ==> r[i] == SPACE)
    requires (forall i :: a <= i < a + k ==> r[i] != SPACE) && (a + k < |r| ==> r[a + k] == SPACE)
    ensures Tokens(r) == [r[a..a + k]] + Tokens(if a + k < |r| then r[a + k + 1..] else [])
  {
    SplitSpaces(r, a);
    SplitWord(r[a..], [], k);
    assert [] + r[a..][..k] == r[a..a + k] && r[a..][k..] == r[a + k..];
    if a + k < |r| { assert r[a + k..][1..] == r[a + k + 1..]; }
  }

  lemma NoToken(r: seq<int>)
    requires forall i :: 0 <= i < |r| ==> r[i] == SPACE
    ensures Tokens(r) == []
  {
    SplitSpaces(r, |r|);
  }

  /** The string from `pos` up to the null byte at `end`. */
  ghost predicate IsString(buf: array<int>, pos: nat, end: nat)
    reads buf
  {
    pos <= end < buf.Length && buf[end] == 0 && forall k :: pos <= k < end ==> buf[k] != 0
  }

  /** The first loop of `strtok_r`: up to the first character that is not a space. */
  method SkipSpaces(buf: array<int>, pos: nat, ghost end: nat) returns (s: nat)
    requires IsString(buf, pos, end)
    ensures pos <= s <= end && buf[s] != SPACE && (forall k :: pos <= k < s ==> buf[k] == SPACE)
  {
    s := pos;
    while buf[s] == SPACE
      invariant pos <= s <= end && forall k :: pos <= k < s ==> buf[k] == SPACE
      decreases end - s
    {
      s := s + 1;
    }
  }

  /** The second: up to the first that is one, or the end. */
  method SkipWord(buf: array<int>, pos: nat, ghost end: nat) returns (s: nat)
    requires IsString(buf, pos, end) && buf[pos] != SPACE && buf[pos] != 0
    ensures pos < s <= end && (s < end ==> buf[s] == SPACE) && (forall k :: pos <= k < s ==> buf[k] != SPACE)
  {
    s := pos + 1;
    while !(buf[s] == SPACE || buf[s] == 0)
      invariant pos < s <= end && forall k :: pos <= k < s ==> buf[k] != SPACE
      decreases end - s
    {
      s := s + 1;
    }
  }

  lemma TokenInBuffer(buf: array<int>, pos: nat, start: nat, s: nat, end: nat)
    requires IsString(buf, pos, end) && pos <= start < s <= end && (s < end ==> buf[s] == SPACE)
    requires (forall k :: pos <= k < start ==> buf[k] == SPACE) && (forall k :: start <= k < s ==> buf[k] != SPACE)
    ensures Tokens(buf[pos..end]) == [buf[start..s]] + Tokens(if s < end then buf[s + 1..end] else [])
  {
    var r, a, k := buf[pos..end], start - pos, s - start;
    assert r[a..a + k] == buf[start..s];
    if s < end { assert r[a + k + 1..] == buf[s + 1..end]; }
    TokenCut(r, a, k);
  }

  /** `strtok_r` with a space as the delimiter, from `pos` on: the next token, at `start`, is cut off
      with a null byte, and the rest of the string is at `save`. */
  method NextToken(buf: array<int>, pos: nat, ghost end: nat) returns (found: bool, start: nat, len: nat, save: nat)
    requires IsString(buf, pos, end)
    modifies buf
    ensures IsString(buf, save, end)
    ensures !found ==> Tokens(old(buf[pos..end])) == [] && save == end && buf[..] == old(buf[..])
    ensures found ==> pos <= start < start + len <= end && start + len <= save && buf[start + len] == 0
    ensures found ==> Tokens(old(buf[pos..end])) == [buf[start..start + len]] + Tokens(buf[save..end])
    ensures forall k :: 0 <= k < buf.Length && (k < pos || save <= k) ==> buf[k] == old(buf[k])
  {
    start := SkipSpaces(buf, pos, end);
    if buf[start] == 0 {
      NoToken(buf[pos..end]);
      return false, start, 0, start;
    }
    var s := SkipWord(buf, start, end);
    TokenInBuffer(buf, pos, start, s, end);
    ghost var word := buf[start..s];
    found, len := true, s - start;
    if buf[s] != 0 {
      save := s + 1;
      ghost var rest := buf[save..end];
      buf[s] := 0;
      assert buf[save..end] == rest;
    } else {
      save := s;
      assert buf[save..end] == [];
    }
    assert buf[start..start + len] == word;
  }

  // ---------------------------------------------------------------------------------
  // The stack
  // ---------------------------------------------------------------------------------

  /** The strings as they lie on the stack: the last token lowest. */
  function Strings(t: seq<seq<int>>): (r: seq<int>) {
    if t == [] then [] else t[|t| - 1] + [0] + Strings(t[..|t| - 1])
  }

  lemma StringsPush(t: seq<seq<int>>, x: seq<int>)
    ensures Strings(t + [x]) == x + [0] + Strings(t)
  {
    assert (t + [x])[..|t|] == t;
  }

  lemma {:induction false} StringsGrow(t: seq<seq<int>>, u: seq<seq<int>>)
    ensures |Strings(t)| <= |Strings(t + u)|
    decreases |u|
  {
    if u == [] {
      assert t + u == t;
    } else {
      var v := u[..|u| - 1];
      assert t + u == (t + v) + [u[|u| - 1]];
      StringsGrow(t, v);
      StringsPush(t + v, u[|u| - 1]);
    }
  }

  /** Where token `i` begins, in the page. */
  function Location(t: seq<seq<int>>, i: nat): (p: int)
    requires i < |t|
  {
    PGSIZE - |Strings(t[..i + 1])|
  }

  /** Bytes left out so that the stack pointer, when `main` is entered, is 4 less than a multiple of 16. */
  function Padding(t: seq<seq<int>>): (n: nat)
    ensures n < 16
  {
    (PGSIZE - |Strings(t)| - 4 * (|t| + 3)) % 16
  }

  /** The whole fits into the page. */
  predicate Fits(t: seq<seq<int>>) {
    |Strings(t)| + Padding(t) + 4 * (|t| + 4) <= PGSIZE
  }

  function FinalEsp(t: seq<seq<int>>): (p: int) { PGSIZE - |Strings(t)| - Padding(t) - 4 * (|t| + 4) }

  lemma {:induction false} StringAt(t: seq<seq<int>>, i: nat)
    requires i < |t|
    ensures var s := Strings(t); var p := |s| - |Strings(t[..i + 1])|;
      0 <= p && p + |t[i]| < |s| && s[p..p + |t[i]|] == t[i] && s[p + |t[i]|] == 0
    decreases |t|
  {
    var n := |t| - 1;
    var low := t[n] + [0];
    assert Strings(t) == low + Strings(t[..n]);
    if i < n {
      assert t[..n][..i + 1] == t[..i + 1] && t[..n][i] == t[i];
      StringAt(t[..n], i);
      var q := |Strings(t[..n])| - |Strings(t[..i + 1])|;
      assert Strings(t)[|low| + q..|low| + q + |t[i]|] == Strings(t[..n])[q..q + |t[i]|];
    } else {
      assert t[..i + 1] == t;
    }
  }

  function ReadWord(mem: seq<int>, p: nat): (w: int)
    requires p + 4 <= |mem|
  {
    mem[p] + 256 * (mem[p + 1] + 256 * (mem[p + 2] + 256 * mem[p + 3]))
  }

  /** From `p` on there are the words `ws`. */
  ghost predicate HoldsWords(mem: seq<int>, p: nat, ws: seq<int>) {
    p + 4 * |ws| <= |mem| && forall i :: 0 <= i < |ws| ==> ReadWord(mem, p + 4 * i) == ws[i]
  }

  lemma ReadsAfterPush(mem: seq<int>, mem': seq<int>, p: nat, b: seq<int>, q: nat)
    requires |b| <= p <= |mem| == |mem'| && mem'[p - |b|..] == b + mem[p..] && p <= q && q + 4 <= |mem|
    ensures ReadWord(mem', q) == ReadWord(mem, q)
  {
    forall k | p <= k < |mem| ensures mem'[k] == mem[k] {
      assert mem'[p - |b|..][k - p + |b|] == (b + mem[p..])[k - p + |b|];
    }
  }

  lemma PushHolds(mem: seq<int>, mem': seq<int>, p: nat, w: Word, ws: seq<int>)
    requires 4 <= p <= |mem| == |mem'| && mem'[p - 4..] == BytesOf(w) + mem[p..] && HoldsWords(mem, p, ws)
    ensures HoldsWords(mem', p - 4, [w] + ws)
  {
    var b := BytesOf(w);
    assert forall k :: 0 <= k < 4 ==> mem'[p - 4 + k] == mem'[p - 4..][k] == b[k];
    assert b[0] == mem'[p - 4] && b[1] == mem'[p - 3] && b[2] == mem'[p - 2] && b[3] == mem'[p - 1];
    forall i | 0 <= i < |[w] + ws| ensures ReadWord(mem', p - 4 + 4 * i) == ([w] + ws)[i] {
      if i > 0 {
        assert ReadWord(mem, p + 4 * (i - 1)) == ws[i - 1];
        ReadsAfterPush(mem, mem', p, b, p + 4 * (i - 1));
      }
    }
  }

  function Address(t: seq<seq<int>>, i: nat): (w: Word)
    requires i < |t| && |Strings(t)| <= PGSIZE
  {
    Below(t, i);
    BASE + Location(t, i)
  }

  /** The addresses of the strings. */
  function Addresses(t: seq<seq<int>>): (r: seq<Word>)
    requires |Strings(t)| <= PGSIZE
    ensures |r| == |t| && forall i :: 0 <= i < |t| ==> r[i] == Address(t, i)
  {
    seq(|t|, i requires 0 <= i < |t| => Address(t, i))
  }

  lemma Below(t: seq<seq<int>>, i: nat)
    requires i < |t|
    ensures |Strings(t[..i + 1])| <= |Strings(t)|
  {
    assert t == t[..i + 1] + t[i + 1..];
    StringsGrow(t[..i + 1], t[i + 1..]);
  }

  /** What `main` finds above its return address, which is at `esp`. */
  function FrameWords(t: seq<seq<int>>, esp: nat): (r: seq<Word>)
    requires |Strings(t)| <= PGSIZE && |t| < PGSIZE && esp < PGSIZE
  {
    [|t|, BASE + esp + 12] + Addresses(t) + [0]
  }

  ghost predicate Laid(mem: seq<int>, esp: nat, t: seq<seq<int>>) {
    && |mem| == PGSIZE && Fits(t) && esp == FinalEsp(t)
    && HoldsWords(mem, esp + 4, FrameWords(t, esp))
    && mem[PGSIZE - |Strings(t)|..] == Strings(t)
  }

  lemma Aligned(d: nat, n: nat, pad: nat)
    requires pad == (PGSIZE - d - 4 * (n + 3)) % 16
    ensures (BASE + (PGSIZE - d - pad - 4 * (n + 4)) + 4) % 16 == 0
  {
  }

  lemma PartsAt(a: Word, b: Word, at: seq<Word>, i: nat)
    requires i < |at|
    ensures var ws := [a, b] + at + [0];
      |ws| == |at| + 3 && ws[0] == a && ws[1] == b && ws[i + 2] == at[i] && ws[|at| + 2] == 0
  {
  }

  lemma FrameAt(t: seq<seq<int>>, esp: nat, i: nat)
    requires |Strings(t)| <= PGSIZE && |t| < PGSIZE && esp < PGSIZE && i < |t|
    ensures var ws := FrameWords(t, esp);
      |ws| == |t| + 3 && ws[0] == |t| && ws[1] == BASE + esp + 12 && ws[i + 2] == Address(t, i) && ws[|t| + 2] == 0
  {
    PartsAt(|t|, BASE + esp + 12, Addresses(t), i);
  }

  lemma WordsRead(mem: seq<int>, p: nat, ws: seq<int>, n: nat, i: nat)
    requires |ws| == n + 3 && HoldsWords(mem, p, ws) && i < n
    ensures ReadWord(mem, p) == ws[0] && ReadWord(mem, p + 4) == ws[1]
    ensures ReadWord(mem, p + 8 + 4 * i) == ws[i + 2] && ReadWord(mem, p + 8 + 4 * n) == ws[n + 2]
  {
    assert ReadWord(mem, p + 4 * 0) == ws[0] && ReadWord(mem, p + 4 * 1) == ws[1];
    assert ReadWord(mem, p + 4 * (i + 2)) == ws[i + 2] && ReadWord(mem, p + 4 * (n + 2)) == ws[n + 2];
  }

  lemma SliceOf(mem: seq<int>, base: nat, s: seq<int>, q: nat, n: nat)
    requires base <= |mem| && mem[base..] == s && q + n < |s|
    ensures mem[base + q..base + q + n] == s[q..q + n] && mem[base + q + n] == s[q + n]
  {
    assert mem[base..][q..q + n] == mem[base + q..base + q + n];
    assert mem[base..][q + n] == mem[base + q + n];
  }

  lemma StringReads(mem: seq<int>, t: seq<seq<int>>, i: nat)
    requires |mem| == PGSIZE && |Strings(t)| <= PGSIZE && mem[PGSIZE - |Strings(t)|..] == Strings(t) && i < |t|
    ensures var p := Location(t, i);
      PGSIZE - |Strings(t)| <= p && p + |t[i]| < PGSIZE && mem[p..p + |t[i]|] == t[i] && mem[p + |t[i]|] == 0
  {
    StringAt(t, i);
    Below(t, i);
    var s, p := Strings(t), Location(t, i);
    SliceOf(mem, PGSIZE - |s|, s, p - (PGSIZE - |s|), |t[i]|);
  }

  /** Reading the page back gives argc, argv and as many pointers as there are tokens, with a null
      pointer behind the last; and the stack pointer is aligned as section 2.2.2 of the System V i386
      ABI asks. */
  lemma FrameReadBack(mem: seq<int>, esp: nat, t: seq<seq<int>>, i: nat)
    requires Laid(mem, esp, t) && i < |t|
    ensures (BASE + esp + 4) % 16 == 0
    ensures ReadWord(mem, esp + 4) == |t| && ReadWord(mem, esp + 8) == BASE + esp + 12
    ensures ReadWord(mem, esp + 12 + 4 * |t|) == 0 && ReadWord(mem, esp + 12 + 4 * i) == Address(t, i)
  {
    FrameAt(t, esp, i);
    WordsRead(mem, esp + 4, FrameWords(t, esp), |t|, i);
    Aligned(|Strings(t)|, |t|, Padding(t));
  }

  /** And each pointer leads, above the frame, to its token with a null byte behind it. */
  lemma ArgumentReadBack(mem: seq<int>, esp: nat, t: seq<seq<int>>, i: nat, p: int)
    requires Laid(mem, esp, t) && i < |t| && p == ReadWord(mem, esp + 12 + 4 * i) - BASE
    ensures esp + 16 + 4 * |t| <= p && p + |t[i]| < PGSIZE
    ensures mem[p..p + |t[i]|] == t[i] && mem[p + |t[i]|] == 0
  {
    FrameReadBack(mem, esp, t, i);
    StringReads(mem, t, i);
  }

  class Page {
    var mem: seq<int>
    var esp: nat

    ghost predicate Valid()
      reads this
    {
      |mem| == PGSIZE && esp <= PGSIZE
    }

    constructor ()
      ensures Valid() && esp == PGSIZE
    {
      mem, esp := seq(PGSIZE, i => 0), PGSIZE;
    }

    method Push(b: seq<int>)
      requires Valid() && |b| <= esp
      modifies this
      ensures Valid() && esp == old(esp) - |b| && mem[esp..] == b + old(mem[esp..])
    {
      esp := esp - |b|;
      mem := mem[..esp] + b + mem[esp + |b|..];
    }

    /** The strings, in the order of the tokens, and where each of them lies. */
    method PushStrings(buf: array<int>, ghost end: nat) returns (argc: nat, at: seq<int>)
      requires Valid() && esp == PGSIZE && IsString(buf, 0, end)
      requires |Tokens(buf[0..end])| <= MAX_ARGS && |Strings(Tokens(buf[0..end]))| <= PGSIZE
      modifies this, buf
      ensures Valid() && mem[esp..] == Strings(old(Tokens(buf[0..end]))) &&
        esp == PGSIZE - |Strings(old(Tokens(buf[0..end])))|
      ensures argc == |old(Tokens(buf[0..end]))| && |at| == argc
      ensures forall i :: 0 <= i < argc ==> at[i] == BASE + Location(old(Tokens(buf[0..end])), i)
    {
      ghost var all := Tokens(buf[0..end]);
      ghost var done: seq<seq<int>> := [];
      argc, at := 0, [];
      var pos: nat := 0;
      var found, start: nat, len: nat := true, 0, 0;
      while found
        invariant Valid() && IsString(buf, pos, end) && done + Tokens(buf[pos..end]) == all
        invariant !found ==> done == all
        invariant mem[esp..] == Strings(done) && argc == |done| == |at|
        invariant forall i :: 0 <= i < argc ==> at[i] == BASE + Location(done, i)
        decreases found, end - pos
      {
        ghost var rest := Tokens(buf[pos..end]);
        found, start, len, pos := NextToken(buf, pos, end);
        if found {
          var token := buf[start..start + len];
          assert all == (done + [token]) + Tokens(buf[pos..end]);
          StringsGrow(done + [token], Tokens(buf[pos..end]));
          StringsPush(done, token);
          Push(token + [0]);
          LocationsKept(done, token);
          argc, at := argc + 1, at + [BASE + esp];
          done := done + [token];
        } else {
          assert done + [] == done;
        }
      }
    }

    method PushWord(w: Word, ghost ws: seq<int>, ghost top: nat)
      requires Valid() && 4 <= esp <= top <= PGSIZE && HoldsWords(mem, esp, ws)
      modifies this
      ensures Valid() && esp == old(esp) - 4 && HoldsWords(mem, esp, [w] + ws) && mem[top..] == old(mem[top..])
    {
      ghost var mem0, esp0 := mem, esp;
      Push(BytesOf(w));
      PushHolds(mem0, mem, esp0, w, ws);
      assert mem[top..] == mem[esp..][top - esp..];
    }

    /** The argument pointers, from the last to the first, on top of a null pointer. */
    method PushPointers(argc: nat, at: seq<Word>, ghost top: nat)
      requires Valid() && argc == |at| && 4 * (argc + 1) <= esp <= top <= PGSIZE
      modifies this
      ensures Valid() && esp == old(esp) - 4 * (argc + 1) && HoldsWords(mem, esp, at + [0]) &&
        mem[top..] == old(mem[top..])
    {
      PushWord(0, [], top);
      var i := argc;
      assert at[i..] + [0] == [0] + [];
      while i > 0
        invariant i <= argc && Valid() && esp == old(esp) - 4 * (argc - i + 1)
        invariant HoldsWords(mem, esp, at[i..] + [0]) && mem[top..] == old(mem[top..])
      {
        i := i - 1;
        assert at[i..] + [0] == [at[i]] + (at[i + 1..] + [0]);
        PushWord(at[i], at[i + 1..] + [0], top);
      }
      assert at[0..] == at;
    }

    /** `setup_stack`, on the page that has been mapped for it. */
    method SetupStack(buf: array<int>, ghost end: nat)
      requires Valid() && esp == PGSIZE && IsString(buf, 0, end)
      requires |Tokens(buf[0..end])| <= MAX_ARGS && Fits(Tokens(buf[0..end]))
      modifies this, buf
      ensures Laid(mem, esp, old(Tokens(buf[0..end])))
    {
      ghost var t := Tokens(buf[0..end]);
      var argc, at := PushStrings(buf, end);
      ghost var top := esp;
      assert at == Addresses(t);
      var address := BASE + esp - 4 * (argc + 3);
      assert address % 16 == Padding(t);
      esp := esp - address % 16;
      PushPointers(argc, at, top);
      var argv: Word := BASE + esp;
      PushWord(argv, at + [0], top);
      PushWord(argc, [argv] + (at + [0]), top);
      assert [argc] + ([argv] + (at + [0])) == FrameWords(t, esp - 4);
      esp := esp - 4;
    }
  }

  lemma LocationsKept(t: seq<seq<int>>, x: seq<int>)
    ensures forall i :: 0 <= i < |t| ==> Location(t + [x], i) == Location(t, i)
    ensures Location(t + [x], |t|) == PGSIZE - |Strings(t + [x])|
  {
    forall i | 0 <= i < |t| ensures Location(t + [x], i) == Location(t, i) { assert (t + [x])[..i + 1] == t[..i + 1]; }
    assert (t + [x])[..|t| + 1] == t + [x];
  }
}
