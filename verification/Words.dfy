/**
 A sector seen as 128 little-endian 32-bit words: the layout of an index block and of an
 on-disk inode.
 */
module Words {
  import opened Sectors

  const WORDS_PER_SECTOR: nat := 128

  type Word = w: int | 0 <= w < 0x1_0000_0000

  function WordOf(b0: Byte, b1: Byte, b2: Byte, b3: Byte): (w: Word) {
    b0 + 256 * (b1 + 256 * (b2 + 256 * b3))
  }

  function BytesOf(w: Word): (r: seq<Byte>)
    ensures |r| == 4
    ensures WordOf(r[0], r[1], r[2], r[3]) == w
  {
    [w % 256, w / 256 % 256, w / 256 / 256 % 256, w / 256 / 256 / 256]
  }

  function WordsIn(s: seq<Byte>, n: nat): (ws: seq<Word>)
    requires |s| == 4 * n
    ensures |ws| == n
  {
    if n == 0 then [] else [WordOf(s[0], s[1], s[2], s[3])] + WordsIn(s[4..], n - 1)
  }

  function BytesFor(ws: seq<Word>): (s: seq<Byte>)
    ensures |s| == 4 * |ws|
  {
    if ws == [] then [] else BytesOf(ws[0]) + BytesFor(ws[1..])
  }

  lemma {:induction false} WordsRoundTrip(ws: seq<Word>)
    ensures WordsIn(BytesFor(ws), |ws|) == ws
  {
    if ws != [] {
      WordsRoundTrip(ws[1..]);
      assert BytesFor(ws)[4..] == BytesFor(ws[1..]);
    }
  }

  /** The words a sector holds. */
  function Unpack(s: Sector): (ws: seq<Word>)
    ensures |ws| == WORDS_PER_SECTOR
  {
    WordsIn(s, WORDS_PER_SECTOR)
  }

  /** The sector that holds the words `ws`. */
  function Pack(ws: seq<Word>): (s: Sector)
    requires |ws| == WORDS_PER_SECTOR
  {
    BytesFor(ws)
  }

  lemma UnpackPack(ws: seq<Word>)
    requires |ws| == WORDS_PER_SECTOR
    ensures Unpack(Pack(ws)) == ws
  {
    WordsRoundTrip(ws);
  }
}
