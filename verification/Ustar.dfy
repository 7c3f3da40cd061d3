/**
 Headers of ustar archives: writing one and parsing it back.  A header is 512 bytes; strings are
 sequences of bytes without the null byte that ends them.
 */
module Ustar {
  import opened Sectors

  const HEADER_SIZE: nat := 512
  const ULONG_MAX: nat := 0xFFFF_FFFF
  const INT_MAX: nat := 0x7FFF_FFFF

  const ZERO: int := 48
  const BLANK: int := 32
  const SLASH: int := 47
  const DOT: int := 46

  // ---------------------------------------------------------------------------------
  // Octal fields
  // ---------------------------------------------------------------------------------

  /** The last `w` octal digits of `v`. */
  function Octal(v: nat, w: nat): (s: seq<int>)
    ensures |s| == w && forall i :: 0 <= i < w ==> ZERO <= s[i] < ZERO + 8
  {
    if w == 0 then [] else Octal(v / 8, w - 1) + [ZERO + v % 8]
  }

  function Pow8(w: nat): (r: nat) { if w == 0 then 1 else 8 * Pow8(w - 1) }

  function ValueOf(s: seq<int>): (v: int) {
    if s == [] then 0 else 8 * ValueOf(s[..|s| - 1]) + (s[|s| - 1] - ZERO)
  }

  lemma {:induction false} OctalValue(v: nat, w: nat)
    requires v < Pow8(w)
    ensures ValueOf(Octal(v, w)) == v
  {
    if w > 0 {
      OctalValue(v / 8, w - 1);
      assert Octal(v, w)[..w - 1] == Octal(v / 8, w - 1);
    }
  }

  function Digits(v: nat): (n: nat) { if v == 0 then 0 else 1 + Digits(v / 8) }

  lemma {:induction false} Padded(v: nat, w: nat)
    requires v < Pow8(w)
    ensures Digits(v) <= w && Octal(v, w) == seq(w - Digits(v), i => ZERO) + Octal(v, Digits(v))
  {
    if w > 0 {
      Padded(v / 8, w - 1);
      if v == 0 {
        assert seq(w - 1, i => ZERO) + [ZERO] == seq(w, i => ZERO);
      }
    }
  }

  /** `format_integer` for an octal conversion with the flag for zeros and the given width: the digits
      are made from the last to the first, at least one, and come out in reverse behind the padding. */
  method FormatOctal(value: nat, width: nat) returns (s: seq<int>)
    requires 0 < width < 64 && value < Pow8(width)
    ensures s == Octal(value, width)
  {
    var v, digits := value, [];
    while v > 0
      invariant digits == Octal(value, |digits|) && Digits(value) == |digits| + Digits(v)
      invariant Rest(value, |digits|) == v
      decreases v
    {
      OctalStep(value, |digits|);
      digits := [ZERO + v % 8] + digits;
      v := v / 8;
    }
    Padded(value, width);
    if digits == [] { digits := [ZERO]; }
    s := seq(width - |digits|, i => ZERO) + digits;
    if Digits(value) == 0 {
      assert s == seq(width, i => ZERO);
    }
  }

  /** The value without its last `n` digits. */
  function Rest(v: nat, n: nat): (r: nat) { if n == 0 then v else Rest(v, n - 1) / 8 }

  lemma {:induction false} OctalStep(v: nat, n: nat)
    ensures Octal(v, n + 1) == [ZERO + Rest(v, n) % 8] + Octal(v, n)
  {
    if n > 0 {
      OctalStep(v / 8, n - 1);
      RestShift(v, n);
      assert Octal(v, n + 1) == Octal(v / 8, n) + [ZERO + v % 8];
      assert Octal(v, n) == Octal(v / 8, n - 1) + [ZERO + v % 8];
    }
  }

  lemma {:induction false} RestShift(v: nat, n: nat)
    requires n > 0
    ensures Rest(v, n) == Rest(v / 8, n - 1)
  {
    if n > 1 { RestShift(v, n - 1); }
  }

  /** What `parse_octal_field` makes of a field from position `i` on, with value `v` so far. */
  function ParseFrom(s: seq<int>, i: nat, v: nat): (r: Option<nat>)
    requires i <= |s|
    decreases |s| - i
  {
    if i == |s| then None
    else if ZERO <= s[i] <= ZERO + 7 then
      if v > ULONG_MAX / 8 then None else ParseFrom(s, i + 1, s[i] - ZERO + v * 8)
    else if s[i] == BLANK || s[i] == 0 then
      if i > 0 then Some(v) else None
    else None
  }

  predicate IsDigit(c: int) { ZERO <= c <= ZERO + 7 }

  /** `n` octal digits, at least one, and then a space or a null byte. */
  predicate IsField(s: seq<int>, n: nat) {
    0 < n < |s| && (forall i :: 0 <= i < n ==> IsDigit(s[i])) && (s[n] == BLANK || s[n] == 0)
  }

  lemma NextDigit(s: seq<int>, i: nat)
    requires i < |s|
    ensures ValueOf(s[..i + 1]) == 8 * ValueOf(s[..i]) + (s[i] - ZERO)
  {
    assert s[..i + 1][..i] == s[..i];
  }

  /** What is parsed is the value of such a field, and fits 32 bits. */
  lemma {:induction false} ParsedFrom(s: seq<int>, i: nat, v: nat) returns (n: nat)
    requires i <= |s| && (forall k :: 0 <= k < i ==> IsDigit(s[k])) && v == ValueOf(s[..i]) <= ULONG_MAX
    requires ParseFrom(s, i, v).Some?
    ensures IsField(s, n) && ParseFrom(s, i, v) == Some(ValueOf(s[..n])) && ValueOf(s[..n]) <= ULONG_MAX
    decreases |s| - i
  {
    if IsDigit(s[i]) {
      NextDigit(s, i);
      n := ParsedFrom(s, i + 1, s[i] - ZERO + v * 8);
    } else {
      n := i;
    }
  }

  lemma {:induction false} ValueGrows(s: seq<int>, i: nat, n: nat)
    requires i <= n <= |s| && forall k :: 0 <= k < n ==> IsDigit(s[k])
    ensures 0 <= ValueOf(s[..i]) <= ValueOf(s[..n])
    decreases n
  {
    if i < n {
      NextDigit(s, n - 1);
      ValueGrows(s, i, n - 1);
    } else if i > 0 {
      NextDigit(s, i - 1);
      ValueGrows(s, i - 1, i - 1);
    }
  }

  lemma {:induction false} FieldParses(s: seq<int>, n: nat, i: nat, v: nat)
    requires IsField(s, n) && ValueOf(s[..n]) <= ULONG_MAX && i <= n && v == ValueOf(s[..i])
    ensures ParseFrom(s, i, v) == Some(ValueOf(s[..n]))
    decreases n - i
  {
    if i < n {
      NextDigit(s, i);
      ValueGrows(s, i + 1, n);
      ValueGrows(s, i, n);
      FieldParses(s, n, i + 1, s[i] - ZERO + v * 8);
    }
  }

  /** `parse_octal_field` accepts exactly the fields of octal digits and a terminator whose value fits 32
      bits, and gives that value. */
  lemma ParseExactly(s: seq<int>, v: nat)
    ensures ParseFrom(s, 0, 0) == Some(v) <==> exists n: nat :: IsField(s, n) && ValueOf(s[..n]) == v <= ULONG_MAX
  {
    if ParseFrom(s, 0, 0).Some? {
      var n := ParsedFrom(s, 0, 0);
    }
    if n: nat :| IsField(s, n) && ValueOf(s[..n]) == v <= ULONG_MAX {
      FieldParses(s, n, 0, 0);
    }
  }

  method ParseOctalField(s: seq<int>) returns (r: Option<nat>)
    ensures r == ParseFrom(s, 0, 0)
  {
    var value: nat, ofs := 0, 0;
    while ofs < |s|
      invariant ofs <= |s| && ParseFrom(s, 0, 0) == ParseFrom(s, ofs, value)
    {
      var c := s[ofs];
      if ZERO <= c <= ZERO + 7 {
        if value > ULONG_MAX / 8 { return None; }
        value := c - ZERO + value * 8;
      } else if c == BLANK || c == 0 {
        return if ofs > 0 then Some(value) else None;
      } else {
        return None;
      }
      ofs := ofs + 1;
    }
    r := None;
  }

  /** A number that was written with `w` digits and a null byte is read back. */
  lemma OctalRoundTrip(v: nat, w: nat)
    requires w > 0 && v < Pow8(w) && v <= ULONG_MAX
    ensures ParseFrom(Octal(v, w) + [0], 0, 0) == Some(v)
  {
    var s := Octal(v, w) + [0];
    OctalValue(v, w);
    assert s[..w] == Octal(v, w);
    FieldParses(s, w, 0, 0);
  }

  // ---------------------------------------------------------------------------------
  // Checksums
  // ---------------------------------------------------------------------------------

  const CHKSUM: nat := 148
  const CHKSUM_END: nat := 156

  /** The sum of the first `n` bytes, as if the checksum field were blank. */
  function Sum(h: seq<int>, n: nat): (r: int)
    requires n <= |h|
  {
    if n == 0 then 0 else Sum(h, n - 1) + (if CHKSUM <= n - 1 < CHKSUM_END then BLANK else h[n - 1])
  }

  function Checksum(h: seq<int>): (r: int) { Sum(h, |h|) }

  method CalculateChecksum(h: seq<int>) returns (sum: int)
    requires |h| == HEADER_SIZE
    ensures sum == Checksum(h)
  {
    sum := 0;
    var i := 0;
    while i < |h|
      invariant i <= |h| && sum == Sum(h, i)
    {
      sum := sum + (if CHKSUM <= i < CHKSUM_END then BLANK else h[i]);
      i := i + 1;
    }
  }

  /** The checksum does not depend on its own field. */
  lemma {:induction false} SumIgnoresField(h: seq<int>, h': seq<int>, n: nat)
    requires n <= |h| == |h'| && forall k :: 0 <= k < n && !(CHKSUM <= k < CHKSUM_END) ==> h'[k] == h[k]
    ensures Sum(h', n) == Sum(h, n)
  {
    if n > 0 { SumIgnoresField(h, h', n - 1); }
  }

  lemma {:induction false} SumBounds(h: seq<int>, n: nat)
    requires n <= |h| && forall k :: 0 <= k < n ==> 0 <= h[k] < 256
    ensures 0 <= Sum(h, n) <= 255 * n
  {
    if n > 0 { SumBounds(h, n - 1); }
  }

  // ---------------------------------------------------------------------------------
  // Names
  // ---------------------------------------------------------------------------------

  function FirstSlash(s: seq<int>): (k: nat)
    ensures k <= |s| && (k < |s| ==> s[k] == SLASH) && SLASH !in s[..k]
  {
    if s == [] || s[0] == SLASH then 0 else 1 + FirstSlash(s[1..])
  }

  /** The name begins with "/", "./" or "../". */
  predicate Antisocial(s: seq<int>) {
    || (|s| >= 1 && s[0] == SLASH)
    || (|s| >= 2 && s[0] == DOT && s[1] == SLASH)
    || (|s| >= 3 && s[0] == DOT && s[1] == DOT && s[2] == SLASH)
  }

  lemma AntisocialHasSlash(s: seq<int>)
    requires Antisocial(s)
    ensures FirstSlash(s) < |s|
  {
    assert s[0] == SLASH || s[1] == SLASH || s[2] == SLASH;
  }

  predicate EndsWith(s: seq<int>, r: seq<int>) { |r| <= |s| && r == s[|s| - |r|..] }

  lemma EndOfEnd(s: seq<int>, k: nat, r: seq<int>)
    requires k <= |s| && EndsWith(s[k..], r)
    ensures EndsWith(s, r)
  {
    assert s[k..][|s| - k - |r|..] == s[|s| - |r|..];
  }

  function Unprefixed(s: seq<int>): (r: seq<int>)
    ensures !Antisocial(r) && EndsWith(s, r)
    decreases |s|
  {
    if Antisocial(s) then
      AntisocialHasSlash(s);
      var k := FirstSlash(s) + 1;
      var r := Unprefixed(s[k..]);
      EndOfEnd(s, k, r);
      r
    else s
  }

  /** `strip_antisocial_prefixes`. */
  function Strip(s: seq<int>): (r: seq<int>) {
    var u := Unprefixed(s);
    if u == [] || u == [DOT, DOT] then [DOT] else u
  }

  method StripPrefixes(name: seq<int>) returns (r: seq<int>)
    ensures r == Strip(name)
  {
    var s := name;
    while Antisocial(s)
      invariant Unprefixed(s) == Unprefixed(name)
      decreases |s|
    {
      AntisocialHasSlash(s);
      s := s[FirstSlash(s) + 1..];
    }
    r := if s == [] || s == [DOT, DOT] then [DOT] else s;
  }

  /** Any number of "/", "./" and "../" one after the other. */
  predicate OnlyPrefixes(d: seq<int>) {
    || d == []
    || (d[0] == SLASH && OnlyPrefixes(d[1..]))
    || (|d| >= 2 && d[..2] == [DOT, SLASH] && OnlyPrefixes(d[2..]))
    || (|d| >= 3 && d[..3] == [DOT, DOT, SLASH] && OnlyPrefixes(d[3..]))
  }

  predicate IsPrefix(p: seq<int>) { p == [SLASH] || p == [DOT, SLASH] || p == [DOT, DOT, SLASH] }

  lemma {:induction false} FirstSlashIs(s: seq<int>, k: nat)
    requires k < |s| && s[k] == SLASH && forall i :: 0 <= i < k ==> s[i] != SLASH
    ensures FirstSlash(s) == k
  {
    if k > 0 { FirstSlashIs(s[1..], k - 1); }
  }

  lemma FirstPrefix(s: seq<int>, k: nat)
    requires Antisocial(s) && k == FirstSlash(s) + 1
    ensures k <= |s| && IsPrefix(s[..k])
  {
    if s[0] == SLASH {
      FirstSlashIs(s, 0);
      assert s[..1] == [SLASH];
    } else if s[1] == SLASH {
      FirstSlashIs(s, 1);
      assert s[..2] == [DOT, SLASH];
    } else {
      FirstSlashIs(s, 2);
      assert s[..3] == [DOT, DOT, SLASH];
    }
  }

  lemma OneMorePrefix(p: seq<int>, d: seq<int>)
    requires IsPrefix(p) && OnlyPrefixes(d)
    ensures OnlyPrefixes(p + d)
  {
    assert (p + d)[|p|..] == d && (p + d)[..|p|] == p;
  }

  lemma Rejoined(s: seq<int>, k: nat, d: seq<int>, u: seq<int>)
    requires k <= |s| && s[k..] == d + u
    ensures s == (s[..k] + d) + u
  {
    assert s == s[..k] + s[k..];
  }

  /** What is stripped is such prefixes and nothing else. */
  lemma {:induction false} StripsPrefixes(s: seq<int>) returns (d: seq<int>)
    ensures s == d + Unprefixed(s) && OnlyPrefixes(d)
    decreases |s|
  {
    if Antisocial(s) {
      var k := FirstSlash(s) + 1;
      FirstPrefix(s, k);
      var rest := StripsPrefixes(s[k..]);
      d := s[..k] + rest;
      OneMorePrefix(s[..k], rest);
      Rejoined(s, k, rest, Unprefixed(s));
    } else {
      d := [];
    }
  }

  /** A stripped name is not empty, is not `..`, and does not begin with `/`, `./` or `../`. */
  lemma StrippedName(s: seq<int>)
    ensures Strip(s) != [] && Strip(s) != [DOT, DOT] && !Antisocial(Strip(s))
    ensures forall b :: b in Strip(s) ==> b in s || b == DOT
  {
    var u := Unprefixed(s);
    assert forall b :: b in u ==> b in s;
  }

  /** Stripping once is enough. */
  lemma StripTwice(s: seq<int>)
    ensures Strip(Strip(s)) == Strip(s)
  {
    StrippedName(s);
    assert Unprefixed(Strip(s)) == Strip(s);
  }

  // ---------------------------------------------------------------------------------
  // Headers
  // ---------------------------------------------------------------------------------

  const REGULAR: int := 48
  const DIRECTORY: int := 53

  const MAGIC: seq<int> := [117, 115, 116, 97, 114, 0]  // "ustar"
  const ROOT: seq<int> := [114, 111, 111, 116, 0]       // "root"
  const ID: seq<int> := [48, 48, 48, 48, 48, 48, 48, 0]
  const VERSION: seq<int> := [48, 48]
  const MTIME: nat := 1136102400

  /** The bytes `b` are at offset `o`. */
  ghost predicate FieldAt(h: seq<int>, o: nat, b: seq<int>) {
    o + |b| <= |h| && forall k :: 0 <= k < |b| ==> h[o + k] == b[k]
  }

  ghost predicate Clear(h: seq<int>, lo: nat, hi: nat) {
    lo <= hi <= |h| && forall k :: lo <= k < hi ==> h[k] == 0
  }

  predicate IsName(n: seq<int>) { forall k :: 0 <= k < |n| ==> 0 < n[k] < 256 }

  function Mode(dir: bool): (m: nat) { if dir then 493 else 420 }  // octal 0755 and 0644

  /** The fields up to the checksum. */
  ghost predicate FrontOk(h: seq<int>, name: seq<int>, dir: bool, size: nat) {
    && |h| == HEADER_SIZE && |name| <= 99
    && FieldAt(h, 0, name) && Clear(h, |name|, 100)
    && FieldAt(h, 100, Octal(Mode(dir), 7) + [0])
    && FieldAt(h, 108, ID) && FieldAt(h, 116, ID)
    && FieldAt(h, 124, Octal(size, 11) + [0])
    && FieldAt(h, 136, Octal(MTIME, 11) + [0])
  }

  /** The fields behind it. */
  ghost predicate BackOk(h: seq<int>, dir: bool) {
    && |h| == HEADER_SIZE
    && h[156] == (if dir then DIRECTORY else REGULAR) && Clear(h, 157, 257)
    && FieldAt(h, 257, MAGIC) && FieldAt(h, 263, VERSION)
    && FieldAt(h, 265, ROOT) && Clear(h, 270, 297) && FieldAt(h, 297, ROOT) && Clear(h, 302, HEADER_SIZE)
  }

  ghost predicate Made(h: seq<int>, name: seq<int>, dir: bool, size: nat) {
    && FrontOk(h, name, dir, size) && BackOk(h, dir)
    && Checksum(h) >= 0 && FieldAt(h, CHKSUM, Octal(Checksum(h), 7) + [0])
  }

  /** The widths of the fields of `struct ustar_header`: name, mode, uid, gid, size, mtime, chksum, typeflag,
      linkname, magic, version, uname, gname, devmajor, devminor, prefix and padding. */
  const WIDTHS: seq<nat> := [100, 8, 8, 8, 12, 12, 8, 1, 100, 6, 2, 32, 32, 8, 8, 155, 12]

  function OffsetOf(field: nat): (o: nat)
    requires field <= |WIDTHS|
  {
    if field == 0 then 0 else OffsetOf(field - 1) + WIDTHS[field - 1]
  }

  lemma Offsets()
    ensures OffsetOf(1) == 100 && OffsetOf(2) == 108 && OffsetOf(3) == 116 && OffsetOf(4) == 124 && OffsetOf(5) == 136
    ensures OffsetOf(6) == CHKSUM && OffsetOf(7) == CHKSUM_END && OffsetOf(8) == 157 && OffsetOf(9) == 257
    ensures OffsetOf(10) == 263 && OffsetOf(11) == 265 && OffsetOf(12) == 297 && OffsetOf(15) == 345
    ensures OffsetOf(|WIDTHS|) == HEADER_SIZE
  {
    assert OffsetOf(3) == 116;
    assert OffsetOf(6) == CHKSUM;
    assert OffsetOf(9) == 257;
    assert OffsetOf(12) == 297;
    assert OffsetOf(15) == 345;
  }

  /** A header that is made has each field where the struct has it, and zeros elsewhere. */
  lemma Layout(h: seq<int>, name: seq<int>, dir: bool, size: nat)
    requires Made(h, name, dir, size)
    ensures FieldAt(h, OffsetOf(0), name) && Clear(h, |name|, OffsetOf(1))
    ensures FieldAt(h, OffsetOf(1), Octal(if dir then 0x1ED else 0x1A4, 7) + [0])
    ensures FieldAt(h, OffsetOf(2), ID) && FieldAt(h, OffsetOf(3), ID)
    ensures FieldAt(h, OffsetOf(4), Octal(size, 11) + [0]) && FieldAt(h, OffsetOf(5), Octal(MTIME, 11) + [0])
    ensures FieldAt(h, OffsetOf(7), [if dir then DIRECTORY else REGULAR]) && Clear(h, OffsetOf(8), OffsetOf(9))
    ensures FieldAt(h, OffsetOf(9), MAGIC) && FieldAt(h, OffsetOf(10), VERSION)
    ensures FieldAt(h, OffsetOf(11), ROOT) && Clear(h, OffsetOf(11) + |ROOT|, OffsetOf(12))
    ensures FieldAt(h, OffsetOf(12), ROOT) && Clear(h, OffsetOf(12) + |ROOT|, HEADER_SIZE)
  {
    Offsets();
  }

  method PutField(header: array<int>, o: nat, b: seq<int>)
    requires o + |b| <= header.Length
    modifies header
    ensures FieldAt(header[..], o, b)
    ensures forall k :: 0 <= k < header.Length && !(o <= k < o + |b|) ==> header[k] == old(header[k])
  {
    var i := 0;
    while i < |b|
      invariant i <= |b| && (forall k :: 0 <= k < i ==> header[o + k] == b[k])
      invariant forall k :: 0 <= k < header.Length && !(o <= k < o + i) ==> header[k] == old(header[k])
    {
      header[o + i] := b[i];
      i := i + 1;
    }
  }

  method FillFront(header: array<int>, name: seq<int>, dir: bool, size: nat)
    requires header.Length == HEADER_SIZE && |name| <= 99 && size <= INT_MAX && Clear(header[..], 0, HEADER_SIZE)
    modifies header
    ensures FrontOk(header[..], name, dir, size) && Clear(header[..], CHKSUM, HEADER_SIZE)
  {
    assert Pow8(7) == 2097152 && Pow8(11) == 8589934592;
    var mode := FormatOctal(Mode(dir), 7);
    var length := FormatOctal(size, 11);
    var mtime := FormatOctal(MTIME, 11);
    PutField(header, 0, name);
    PutField(header, 100, mode + [0]);
    PutField(header, 108, ID);
    PutField(header, 116, ID);
    PutField(header, 124, length + [0]);
    PutField(header, 136, mtime + [0]);
  }

  method FillBack(header: array<int>, dir: bool)
    requires header.Length == HEADER_SIZE && Clear(header[..], CHKSUM, HEADER_SIZE)
    modifies header
    ensures BackOk(header[..], dir) && Clear(header[..], CHKSUM, CHKSUM_END)
    ensures forall k :: 0 <= k < CHKSUM ==> header[k] == old(header[k])
  {
    header[156] := if dir then DIRECTORY else REGULAR;
    PutField(header, 257, MAGIC);
    PutField(header, 263, VERSION);
    PutField(header, 297, ROOT);
    PutField(header, 265, ROOT);
  }

  ghost predicate Bytes(h: seq<int>, lo: nat, hi: nat) {
    lo <= hi <= |h| && forall k :: lo <= k < hi ==> 0 <= h[k] < 256
  }

  lemma FieldBytes(h: seq<int>, o: nat, b: seq<int>)
    requires FieldAt(h, o, b) && forall k :: 0 <= k < |b| ==> 0 <= b[k] < 256
    ensures Bytes(h, o, o + |b|)
  {
    forall k | o <= k < o + |b| ensures 0 <= h[k] < 256 { assert h[o + (k - o)] == b[k - o]; }
  }

  lemma HeaderBytes(h: seq<int>, name: seq<int>, dir: bool, size: nat)
    requires FrontOk(h, name, dir, size) && BackOk(h, dir) && Clear(h, CHKSUM, CHKSUM_END) && IsName(name)
    ensures Bytes(h, 0, HEADER_SIZE)
  {
    FieldBytes(h, 0, name);
    FieldBytes(h, 100, Octal(Mode(dir), 7) + [0]);
    FieldBytes(h, 108, ID);
    FieldBytes(h, 116, ID);
    FieldBytes(h, 124, Octal(size, 11) + [0]);
    FieldBytes(h, 136, Octal(MTIME, 11) + [0]);
    FieldBytes(h, 257, MAGIC);
    FieldBytes(h, 263, VERSION);
    FieldBytes(h, 265, ROOT);
    FieldBytes(h, 297, ROOT);
  }

  method FillChecksum(header: array<int>, ghost name: seq<int>, ghost dir: bool, ghost size: nat)
    requires header.Length == HEADER_SIZE && FrontOk(header[..], name, dir, size) && BackOk(header[..], dir)
    requires Clear(header[..], CHKSUM, CHKSUM_END) && IsName(name)
    modifies header
    ensures Made(header[..], name, dir, size)
  {
    ghost var h := header[..];
    HeaderBytes(h, name, dir, size);
    SumBounds(h, |h|);
    assert Pow8(7) == 2097152;
    var sum := CalculateChecksum(header[..]);
    var digits := FormatOctal(sum, 7);
    PutField(header, CHKSUM, digits + [0]);
    SumIgnoresField(h, header[..], |h|);
  }

  lemma FrontKept(h: seq<int>, h': seq<int>, name: seq<int>, dir: bool, size: nat)
    requires FrontOk(h, name, dir, size) && |h'| == |h| && forall k :: 0 <= k < CHKSUM ==> h'[k] == h[k]
    ensures FrontOk(h', name, dir, size)
  {
  }

  /** `ustar_make_header`: it fails exactly if the stripped name has more than 99 bytes. */
  method MakeHeader(name: seq<int>, dir: bool, size: nat, header: array<int>) returns (ok: bool)
    requires header.Length == HEADER_SIZE && IsName(name) && size <= INT_MAX
    modifies header
    ensures ok <==> |Strip(name)| <= 99
    ensures ok ==> Made(header[..], Strip(name), dir, size)
    ensures !ok ==> header[..] == old(header[..])
  {
    var s := StripPrefixes(name);
    StripName(name);
    if |s| > 99 { return false; }
    var i := 0;
    while i < HEADER_SIZE
      invariant i <= HEADER_SIZE && forall k :: 0 <= k < i ==> header[k] == 0
    {
      header[i] := 0;
      i := i + 1;
    }
    FillFront(header, s, dir, size);
    ghost var front := header[..];
    FillBack(header, dir);
    FrontKept(front, header[..], s, dir, size);
    FillChecksum(header, s, dir, size);
    ok := true;
  }

  datatype Entry =
    | EndOfArchive
    | Entry(name: seq<int>, dir: bool, size: nat)
    | NotUstar
    | BadVersion
    | BadChecksumField
    | ChecksumMismatch
    | NameTooLong
    | BadType
    | BadSizeField
    | TooLarge

  /** A string up to its null byte. */
  function CString(s: seq<int>): (r: seq<int>) {
    if s == [] || s[0] == 0 then [] else [s[0]] + CString(s[1..])
  }

  /** The tests of `ustar_parse_header`, given what is in the checksum field, what it should be, what is
      in the size field, and the stripped name. */
  function Verdict(h: seq<int>, zeros: bool, sum: Option<nat>, check: int, size: Option<nat>,
                   name: seq<int>): (e: Entry)
    requires |h| == HEADER_SIZE
  {
    if zeros then EndOfArchive
    else if h[257..263] != MAGIC then NotUstar
    else if h[263] != ZERO || h[264] != ZERO then BadVersion
    else if sum.None? then BadChecksumField
    else if sum.value != check then ChecksumMismatch
    else if h[99] != 0 || h[345] != 0 then NameTooLong
    else if h[156] != REGULAR && h[156] != DIRECTORY then BadType
    else if h[156] == DIRECTORY then Entry(name, true, 0)
    else if size.None? then BadSizeField
    else if size.value > INT_MAX then TooLarge
    else Entry(name, false, size.value)
  }

  /** What `ustar_parse_header` makes of a header. */
  function Parse(h: seq<int>): (e: Entry)
    requires |h| == HEADER_SIZE
  {
    Verdict(h, forall k :: 0 <= k < |h| ==> h[k] == 0, ParseFrom(h[CHKSUM..CHKSUM_END], 0, 0), Checksum(h),
            ParseFrom(h[124..136], 0, 0), Strip(CString(h[0..100])))
  }

  lemma FieldSlice(h: seq<int>, o: nat, b: seq<int>)
    requires FieldAt(h, o, b)
    ensures h[o..o + |b|] == b
  {
  }

  lemma {:induction false} CStringIs(s: seq<int>, n: nat)
    requires n < |s| && s[n] == 0 && forall k :: 0 <= k < n ==> s[k] != 0
    ensures CString(s) == s[..n]
    decreases n
  {
    if n > 0 { CStringIs(s[1..], n - 1); }
  }

  lemma NameReads(h: seq<int>, name: seq<int>, dir: bool, size: nat)
    requires FrontOk(h, name, dir, size) && IsName(name)
    ensures CString(h[0..100]) == name && h[99] == 0
  {
    var s := h[0..100];
    assert forall k :: 0 <= k < |name| ==> s[k] == h[0 + k] == name[k];
    CStringIs(s, |name|);
    assert s[..|name|] == name;
  }

  lemma MadeBytes(h: seq<int>, name: seq<int>, dir: bool, size: nat)
    requires Made(h, name, dir, size) && IsName(name)
    ensures 0 <= Checksum(h) < Pow8(7)
  {
    FieldBytes(h, CHKSUM, Octal(Checksum(h), 7) + [0]);
    var blank := h[CHKSUM := 0][149 := 0][150 := 0][151 := 0][152 := 0][153 := 0][154 := 0][155 := 0];
    FrontKept(h, blank, name, dir, size);
    HeaderBytes(blank, name, dir, size);
    SumIgnoresField(h, blank, |h|);
    SumBounds(blank, |blank|);
    assert Pow8(7) == 2097152;
  }

  lemma MarksRead(h: seq<int>, dir: bool)
    requires BackOk(h, dir)
    ensures h[257] != 0 && h[257..263] == MAGIC && h[263] == ZERO && h[264] == ZERO && h[345] == 0
  {
    FieldSlice(h, 257, MAGIC);
    assert h[257 + 0] == MAGIC[0] && h[263 + 0] == VERSION[0] && h[263 + 1] == VERSION[1];
  }

  lemma NumbersRead(h: seq<int>, sum: nat, size: nat)
    requires FieldAt(h, CHKSUM, Octal(sum, 7) + [0]) && FieldAt(h, 124, Octal(size, 11) + [0]) && sum < Pow8(7) &&
      size <= INT_MAX
    ensures ParseFrom(h[CHKSUM..CHKSUM_END], 0, 0) == Some(sum) && ParseFrom(h[124..136], 0, 0) == Some(size)
  {
    assert Pow8(7) == 2097152 && Pow8(11) == 8589934592;
    FieldSlice(h, CHKSUM, Octal(sum, 7) + [0]);
    FieldSlice(h, 124, Octal(size, 11) + [0]);
    OctalRoundTrip(sum, 7);
    OctalRoundTrip(size, 11);
  }

  lemma VerdictIs(h: seq<int>, name: seq<int>, dir: bool, size: nat, check: nat)
    requires |h| == HEADER_SIZE && h[257] != 0 && h[257..263] == MAGIC && h[263] == ZERO && h[264] == ZERO
    requires h[99] == 0 && h[345] == 0 && h[156] == (if dir then DIRECTORY else REGULAR) && size <= INT_MAX &&
      check >= 0
    ensures Verdict(h, forall k :: 0 <= k < |h| ==> h[k] == 0, Some(check), check, Some(size), name)
      == Entry(name, dir, if dir then 0 else size)
  {
  }

  lemma ParseMade(h: seq<int>, name: seq<int>, dir: bool, size: nat)
    requires Made(h, name, dir, size) && IsName(name) && Strip(name) == name && size <= INT_MAX
    ensures Parse(h) == Entry(name, dir, if dir then 0 else size)
  {
    MadeBytes(h, name, dir, size);
    NameReads(h, name, dir, size);
    MarksRead(h, dir);
    NumbersRead(h, Checksum(h), size);
    VerdictIs(h, name, dir, size, Checksum(h));
  }

  lemma StripName(name: seq<int>)
    requires IsName(name)
    ensures IsName(Strip(name))
  {
    StrippedName(name);
    var s := Strip(name);
    forall k | 0 <= k < |s| ensures 0 < s[k] < 256 { assert s[k] in s; }
  }

  /** Every header that is made is parsed back: the stripped name, the type, and the size, which is
      zero for a directory. */
  lemma HeaderRoundTrip(h: seq<int>, name: seq<int>, dir: bool, size: nat)
    requires Made(h, Strip(name), dir, size) && IsName(name) && size <= INT_MAX
    ensures Parse(h) == Entry(Strip(name), dir, if dir then 0 else size)
  {
    StripName(name);
    StripTwice(name);
    ParseMade(h, Strip(name), dir, size);
  }

  method IsAllZeros(h: seq<int>) returns (r: bool)
    ensures r <==> forall k :: 0 <= k < |h| ==> h[k] == 0
  {
    var i := 0;
    while i < |h|
      invariant i <= |h| && forall k :: 0 <= k < i ==> h[k] == 0
    {
      if h[i] != 0 { return false; }
      i := i + 1;
    }
    r := true;
  }

  /** `ustar_parse_header`. */
  method ParseHeader(h: seq<int>) returns (e: Entry)
    requires |h| == HEADER_SIZE
    ensures e == Parse(h)
  {
    var empty := IsAllZeros(h);
    if empty { return EndOfArchive; }
    if h[257..263] != MAGIC { return NotUstar; }
    if h[263] != ZERO || h[264] != ZERO { return BadVersion; }
    var chksum := ParseOctalField(h[CHKSUM..CHKSUM_END]);
    if chksum == None { return BadChecksumField; }
    var sum := CalculateChecksum(h);
    if chksum.value != sum { return ChecksumMismatch; }
    if h[99] != 0 || h[345] != 0 { return NameTooLong; }
    if h[156] != REGULAR && h[156] != DIRECTORY { return BadType; }
    var size := 0;
    if h[156] == REGULAR {
      var field := ParseOctalField(h[124..136]);
      if field == None { return BadSizeField; }
      if field.value > INT_MAX { return TooLarge; }
      size := field.value;
    }
    var name := StripPrefixes(CString(h[0..100]));
    e := Entry(name, h[156] == DIRECTORY, size);
  }

  // ---------------------------------------------------------------------------------
  // What is accepted
  // ---------------------------------------------------------------------------------

  lemma {:induction false} SumOneByte(h: seq<int>, k: nat, b: int, n: nat)
    requires k < |h| && n <= |h| && !(CHKSUM <= k < CHKSUM_END)
    ensures Sum(h[k := b], n) == Sum(h, n) + if k < n then b - h[k] else 0
  {
    if n > 0 { SumOneByte(h, k, b, n - 1); }
  }

  lemma ChecksumOneByte(h: seq<int>, k: nat, b: int)
    requires k < |h| == HEADER_SIZE && !(CHKSUM <= k < CHKSUM_END)
    ensures Checksum(h[k := b]) == Checksum(h) + b - h[k]
  {
    SumOneByte(h, k, b, |h|);
  }

  lemma VerdictAccepts(h: seq<int>, zeros: bool, sum: Option<nat>, check: int, size: Option<nat>, name: seq<int>)
    requires |h| == HEADER_SIZE && Verdict(h, zeros, sum, check, size, name).Entry?
    ensures var e := Verdict(h, zeros, sum, check, size, name);
      sum.Some? && sum.value == check && e.name == name && e.size <= INT_MAX && (e.dir ==> e.size == 0)
  {
  }

  /** Only a header whose checksum field has its own checksum is accepted. */
  lemma AcceptedSum(h: seq<int>)
    requires |h| == HEADER_SIZE && Parse(h).Entry?
    ensures ParseFrom(h[CHKSUM..CHKSUM_END], 0, 0) == Some(Checksum(h))
  {
    VerdictAccepts(h, forall k :: 0 <= k < |h| ==> h[k] == 0, ParseFrom(h[CHKSUM..CHKSUM_END], 0, 0), Checksum(h),
                   ParseFrom(h[124..136], 0, 0), Strip(CString(h[0..100])));
  }

  /** Damage to a single byte, anywhere but in the checksum field, is noticed. */
  lemma OneByteCaught(h: seq<int>, k: nat, b: int)
    requires k < |h| == HEADER_SIZE && !(CHKSUM <= k < CHKSUM_END) && b != h[k] && Parse(h).Entry?
    ensures !Parse(h[k := b]).Entry?
  {
    var h' := h[k := b];
    AcceptedSum(h);
    ChecksumOneByte(h, k, b);
    assert h'[CHKSUM..CHKSUM_END] == h[CHKSUM..CHKSUM_END];
    if Parse(h').Entry? { AcceptedSum(h'); }
  }

  /** What is accepted has a stripped name, and a size that fits an `int`. */
  lemma AcceptedName(h: seq<int>)
    requires |h| == HEADER_SIZE && Parse(h).Entry?
    ensures var e := Parse(h);
      && e.name != [] && e.name != [DOT, DOT] && !Antisocial(e.name)
      && e.size <= INT_MAX && (e.dir ==> e.size == 0)
  {
    StrippedName(CString(h[0..100]));
    VerdictAccepts(h, forall k :: 0 <= k < |h| ==> h[k] == 0, ParseFrom(h[CHKSUM..CHKSUM_END], 0, 0), Checksum(h),
                   ParseFrom(h[124..136], 0, 0), Strip(CString(h[0..100])));
  }

  const A: int := 97
  const B: int := 98

  /** The name `a/../../b`. */
  const CLIMBS: seq<int> := [A, SLASH, DOT, DOT, SLASH, DOT, DOT, SLASH, B]

  lemma ClimbsOn(name: seq<int>)
    requires name == CLIMBS
    ensures Strip(name) == name && IsName(name)
  {
    assert !Antisocial(name);
  }

  /** Only prefixes are stripped: this name, which leads out of the directory further on, is kept, and
      a header with it is accepted. */
  lemma ClimbingInput(h: seq<int>, name: seq<int>, size: nat)
    requires name == CLIMBS && Made(h, name, false, size) && size <= INT_MAX
    ensures Strip(name) == name && Parse(h) == Entry(name, false, size)
  {
    ClimbsOn(name);
    ParseMade(h, name, false, size);
  }
}
