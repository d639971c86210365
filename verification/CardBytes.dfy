/**
 The formatted card with an imported save, byte by byte, and its checksums as plain sums.

 Words are spelled out as two bytes, most significant first, and places as numbers from the start of the
 image, so that this account of the format stands beside the functions that build it.
 */
module CardBytes {
  import opened Wrappers
  import opened Arithmetic
  import opened MemoryCard
  import opened CardImage

  /** The word at an offset: first the high byte, then the low one. */
  function WordAt(s: seq<Byte>, offset: nat): nat
    requires offset + 2 <= |s|
  {
    s[offset] as int * 256 + s[offset + 1]
  }

  // ---------------------------------------------------------------- checksums

  /** The plain sum of the first n words. */
  function Total(s: seq<Byte>, n: nat): nat
    requires 2 * n <= |s|
  {
    if n == 0 then 0 else Total(s, n - 1) + WordAt(s, 2 * (n - 1))
  }

  lemma {:induction false} TotalOfPrefix(s: seq<Byte>, n: nat, m: nat)
    requires 2 * n <= m <= |s|
    ensures Total(s[..m], n) == Total(s, n)
  {
    if n > 0 {
      TotalOfPrefix(s, n - 1, m);
    }
  }

  /** The checksum is the sum of the words and the inverse one the sum of their complements, modulo 65536. */
  lemma {:induction false} SumsOfWords(s: seq<Byte>, n: nat)
    requires |s| == 2 * n
    ensures WordSum(s) == Total(s, n) % 0x1_0000
    ensures InverseSum(s) == (0xFFFF * n - Total(s, n)) % 0x1_0000
    decreases n
  {
    hide WordSum, InverseSum, WordAt;
    LastWord(s, n);
    if n > 0 {
      var init := s[..2 * n - 2];
      SumsOfWords(init, n - 1);
      TotalOfPrefix(s, n - 1, 2 * n - 2);
      var v: int := WordAt(s, 2 * n - 2);
      ModuloAdds(Total(s, n - 1), v);
      ModuloAdds(0xFFFF * (n - 1) - Total(s, n - 1), 0xFFFF - v);
      assert Total(s, n) == Total(s, n - 1) + v;
      assert 0xFFFF * n - Total(s, n) == 0xFFFF * (n - 1) - Total(s, n - 1) + (0xFFFF - v);
    }
  }

  /** What the last word adds to the two sums. */
  lemma {:induction false} LastWord(s: seq<Byte>, n: nat)
    requires |s| == 2 * n
    ensures n == 0 ==> WordSum(s) == 0 == InverseSum(s)
    ensures n > 0 ==>
        var init, v := s[..2 * n - 2], WordAt(s, 2 * n - 2);
        && WordSum(s) == (WordSum(init) + v) % 0x1_0000
        && InverseSum(s) == (InverseSum(init) + (0xFFFF - v)) % 0x1_0000
  {
  }

  lemma {:induction false} ModuloAdds(x: int, y: int)
    ensures (x % 0x1_0000 + y) % 0x1_0000 == (x + y) % 0x1_0000
  {
  }

  /** The four bytes at an offset are the sum and the inverse sum of s[from..to], 65535 being written as zero. */
  ghost predicate Sums(s: seq<Byte>, offset: nat, from: nat, to: nat)
    requires offset + 4 <= |s| && from <= to <= |s|
  {
    var region, n := s[from..to], (to - from) / 2;
    var sum, inverse := Total(region, n) % 0x1_0000, (0xFFFF * n - Total(region, n)) % 0x1_0000;
    && WordAt(s, offset) == (if sum == 0xFFFF then 0 else sum)
    && WordAt(s, offset + 2) == (if inverse == 0xFFFF then 0 else inverse)
  }

  lemma {:induction false} MatchingIsSumming(s: seq<Byte>, from: nat, to: nat, offset: nat)
    requires offset + 4 <= |s| && from <= to <= |s| && (to - from) % 2 == 0
    ensures ChecksumMatches(s, s[from..to], offset) <==> Sums(s, offset, from, to)
  {
    hide WordSum, InverseSum, Total;
    SumsOfWords(s[from..to], (to - from) / 2);
  }

  // ---------------------------------------------------------------- the system blocks

  /** The header: the plain id, 26 zero bytes but for the size of 16 megabits at 34, and no encoding at 0x1FA. */
  lemma {:induction false} HeaderBytes(i: nat)
    requires i < 0x2000 && !(0x1FC <= i < 0x200)
    ensures HeaderBlock()[i] == if i < 12 then MaskedId(12)[i]
                                else if i < 38 then (if i == 35 then 16 else 0)
                                else if i in {0x1FA, 0x1FB} then 0 else 0xFF
  {
    hide WithChecksum, MaskedId, ChecksumMatches, Read16;
    WithChecksumMatches(HeaderFields(), 0, 0x1FC, 0x1FC);
    var b1 := Overwrite(Repeat(0xFF, 0x2000), 0, MaskedId(12));
    var b2 := Overwrite(b1, 12, Repeat(0, 26));
    assert b2[i] == if i < 12 then MaskedId(12)[i] else if i < 38 then 0 else 0xFF;
    var b3 := Write16(b2, 34, 16);
    assert b3[i] == if i == 35 then 16 else b2[i];
  }

  /** Scrambling a zero seed gives zero, so a card with a zero serial carries its id in plain text. */
  lemma {:induction false} ZeroStaysZero(i: nat)
    ensures Mask(0, i) == 0
  {
    if i > 0 {
      ZeroStaysZero(i - 1);
    }
  }

  lemma {:induction false} IdIsPlain(i: nat)
    requires i < 12
    ensures MaskedId(12)[i] == "DOLPHINSLOTA"[i] as int
  {
    ZeroStaysZero(i);
    hide Mask;
    assert i in {0, 1, 2, 3, 4, 5, 6, 7, 8, 9, 10, 11};
  }

  /** A directory with one entry, whose first block is 5; the rest is erased but for the update count. */
  lemma {:induction false} DirectoryBytes(entry: seq<Byte>, i: nat)
    requires |entry| == 64 && i < 0x1FFC
    ensures DirectoryWith(entry)[i] == if i in {0x36, 0x37} then (if i == 0x37 then 5 else 0)
                                       else if i < 64 then entry[i]
                                       else if i in {0x1FFA, 0x1FFB} then 0 else 0xFF
  {
    hide WithChecksum, ChecksumMatches, Read16;
    var e0 := Write16(Repeat(0xFF, 0x2000), 0x1FFA, 0);
    WithChecksumMatches(e0, 0, 0x1FFC, 0x1FFC);
    assert EmptyDirectory()[i] == e0[i];
    var d1 := Overwrite(EmptyDirectory(), 0, entry);
    var d2 := Write16(d1, 0x36, 5);
    WithChecksumMatches(d2, 0, 0x1FFC, 0x1FFC);
    assert DirectoryWith(entry)[i] == d2[i];
  }

  /** The allocation table of a file of n blocks: free blocks, last block, then the chain from block 5 on. */
  lemma {:induction false} TableWords(n: nat, i: nat)
    requires 1 <= n <= 251 && i < 251
    ensures var bat := BatWith(n);
            && WordAt(bat, 6) == 251 - n && WordAt(bat, 8) == 4 + n
            && WordAt(bat, 10 + 2 * i) == if i + 1 < n then 6 + i else if i + 1 == n then 0xFFFF else 0
  {
    hide BatWith, ChecksumMatches;
    TableHolds(n, 5 + i);
  }

  // ---------------------------------------------------------------- main results

  /** A save can be imported exactly if its own block count, 1 to 251, and its length agree. */
  lemma {:induction false} ImportableExactly(save: seq<Byte>)
    ensures ImportableSave(save) <==>
            |save| >= 64 && 1 <= WordAt(save, 0x38) <= 251 && |save| == 64 + 0x2000 * WordAt(save, 0x38)
  {
  }

  lemma {:induction false} ByteOfBlock(image: seq<Byte>, k: nat, i: nat)
    requires |image| == 0x20_0000 && k < 5 && i < 0x2000
    ensures image[0x2000 * k + i] == Block(image, k)[i]
  {
  }

  /**
   The card with an imported save, byte by byte: the header, two directories that hold the save's entry with
   5 for its first block, two allocation tables, the save's blocks from block 5 on, and erased blocks after.
   */
  lemma {:induction false} CardByteByByte(save: seq<Byte>, image: seq<Byte>, i: nat)
    requires ImportableSave(save) && image == CardWith(save) && i < 0x20_0000
    ensures |image| == 0x20_0000 && 1 <= WordAt(save, 0x38) <= 251
    ensures var n := WordAt(save, 0x38);
            && (i < 12 ==> image[i] == "DOLPHINSLOTA"[i] as int)
            && (12 <= i < 38 ==> image[i] == if i == 35 then 16 else 0)
            && (38 <= i < 0x2000 && !(0x1FC <= i < 0x200) ==> image[i] == if i in {0x1FA, 0x1FB} then 0 else 0xFF)
            && (i < 0x1FFC ==>
                  image[0x2000 + i] == image[0x4000 + i] == if i == 0x36 then 0 else if i == 0x37 then 5
                                                            else if i < 64 then save[i]
                                                            else if i in {0x1FFA, 0x1FFB} then 0 else 0xFF)
            && (i < 0x2000 ==> image[0x6000 + i] == image[0x8000 + i])
            && WordAt(image, 0x6006) == 251 - n && WordAt(image, 0x6008) == 4 + n
            && (i < 251 ==>
                  WordAt(image, 0x600A + 2 * i) == if i + 1 < n then 6 + i else if i + 1 == n then 0xFFFF else 0)
            && (i >= 0xA000 ==> image[i] == if i - 0xA000 + 64 < |save| then save[i - 0xA000 + 64] else 0xFF)
  {
    hide HeaderBlock, DirectoryWith, BatWith, CardWith, MaskedId;
    CardWithHolds(save);
    HeaderOfCard(image, save, i);
    DirectoriesOfCard(image, save, i);
    TablesOfCard(image, save, i);
    if i >= 0xA000 {
      assert image[i] == image[0xA000..][i - 0xA000];
    }
  }

  lemma {:induction false} HeaderOfCard(image: seq<Byte>, save: seq<Byte>, i: nat)
    requires ImportableSave(save) && HoldsSave(image, save) && i < 0x20_0000
    ensures i < 12 ==> image[i] == "DOLPHINSLOTA"[i] as int
    ensures 12 <= i < 38 ==> image[i] == if i == 35 then 16 else 0
    ensures 38 <= i < 0x2000 && !(0x1FC <= i < 0x200) ==> image[i] == if i in {0x1FA, 0x1FB} then 0 else 0xFF
  {
    hide HeaderBlock, DirectoryWith, BatWith, MaskedId;
    if i < 0x2000 && !(0x1FC <= i < 0x200) {
      ByteOfBlock(image, 0, i);
      HeaderBytes(i);
      if i < 12 {
        IdIsPlain(i);
      }
    }
  }

  lemma {:induction false} DirectoriesOfCard(image: seq<Byte>, save: seq<Byte>, i: nat)
    requires ImportableSave(save) && HoldsSave(image, save)
    ensures i < 0x1FFC ==>
        image[0x2000 + i] == image[0x4000 + i] == if i == 0x36 then 0 else if i == 0x37 then 5
                                                  else if i < 64 then save[i]
                                                  else if i in {0x1FFA, 0x1FFB} then 0 else 0xFF
  {
    hide HeaderBlock, DirectoryWith, BatWith;
    if i < 0x1FFC {
      ByteOfBlock(image, 1, i);
      ByteOfBlock(image, 2, i);
      DirectoryBytes(save[..64], i);
    }
  }

  lemma {:induction false} TablesOfCard(image: seq<Byte>, save: seq<Byte>, i: nat)
    requires ImportableSave(save) && HoldsSave(image, save)
    ensures i < 0x2000 ==> image[0x6000 + i] == image[0x8000 + i]
    ensures var n := Read16(save, 0x38);
            && WordAt(image, 0x6006) == 251 - n && WordAt(image, 0x6008) == 4 + n
            && (i < 251 ==>
                  WordAt(image, 0x600A + 2 * i) == if i + 1 < n then 6 + i else if i + 1 == n then 0xFFFF else 0)
  {
    hide HeaderBlock, DirectoryWith, BatWith, Read16;
    var n := Read16(save, 0x38);
    assert Block(image, 3) == Block(image, 4) == BatWith(n);
    forall k: nat | k < 0x2000 ensures image[0x6000 + k] == image[0x8000 + k] == BatWith(n)[k] {
      ByteOfBlock(image, 3, k);
      ByteOfBlock(image, 4, k);
    }
    TableWords(n, if i < 251 then i else 0);
  }

  /** All five stored checksums are the sums of the words they cover. */
  lemma {:induction false} StoredSumsAreSums(save: seq<Byte>, image: seq<Byte>)
    requires ImportableSave(save) && image == CardWith(save)
    ensures |image| == 0x20_0000
    ensures Sums(image, 0x1FC, 0, 0x1FC)
    ensures Sums(image, 0x3FFC, 0x2000, 0x3FFC) && Sums(image, 0x5FFC, 0x4000, 0x5FFC)
    ensures Sums(image, 0x6000, 0x6004, 0x8000) && Sums(image, 0x8000, 0x8004, 0xA000)
  {
    hide CardWith, ChecksumMatches, Sums;
    ChecksumsAndCopiesAgree(save);
    SumsInBlock(image, 0, 0, 0x1FC, 0x1FC);
    SumsInBlock(image, 1, 0, 0x1FFC, 0x1FFC);
    SumsInBlock(image, 2, 0, 0x1FFC, 0x1FFC);
    SumsInBlock(image, 3, 4, 0x2000, 0);
    SumsInBlock(image, 4, 4, 0x2000, 0);
    assert Block(image, 3)[4..] == Block(image, 3)[4..0x2000];
    assert Block(image, 0)[..0x1FC] == Block(image, 0)[0..0x1FC];
    assert Block(image, 1)[..0x1FFC] == Block(image, 1)[0..0x1FFC];
  }

  lemma {:induction false} SliceOfSlice(s: seq<Byte>, a: nat, b: nat, from: nat, to: nat)
    requires a <= b <= |s| && from <= to <= b - a
    ensures s[a..b][from..to] == s[a + from..a + to]
  {
    forall i | 0 <= i < to - from ensures s[a..b][from..to][i] == s[a + from..a + to][i] {
      assert s[a..b][from..to][i] == s[a..b][from + i];
    }
  }

  lemma {:induction false} SumsInBlock(image: seq<Byte>, k: nat, from: nat, to: nat, offset: nat)
    requires |image| == 0x20_0000 && k < 5 && from <= to <= 0x2000 && (to - from) % 2 == 0 && offset + 4 <= 0x2000
    ensures ChecksumMatches(Block(image, k), Block(image, k)[from..to], offset) <==>
            Sums(image, 0x2000 * k + offset, 0x2000 * k + from, 0x2000 * k + to)
  {
    hide ChecksumMatches, Total;
    var block := Block(image, k);
    MatchingIsSumming(block, from, to, offset);
    SliceOfSlice(image, 0x2000 * k, 0x2000 * k + 0x2000, from, to);
    assert block[offset] == image[0x2000 * k + offset] && block[offset + 1] == image[0x2000 * k + offset + 1];
    assert block[offset + 2] == image[0x2000 * k + offset + 2] && block[offset + 3] == image[0x2000 * k + offset + 3];
  }

  // ---------------------------------------------------------------- the flash id

  /** x is the run of seeds from a serial: a 64-bit congruential step, then another cut to 15 bits. */
  ghost predicate Seeds(serial: nat, x: seq<nat>) {
    && |x| == 13 && x[0] == serial
    && forall i :: 0 <= i < 12 ==>
         x[i + 1] == Stepped(Stepped(x[i])) % 0x8000
  }

  function Stepped(x: nat): nat {
    (x * 1103515245 + 12345) % 0x1_0000_0000_0000_0000 / 0x1_0000
  }

  /** The id of a card takes the stepped seeds of its serial, bytes 12 to 19, off its first twelve bytes. */
  lemma {:induction false} IdFromSerial(data: seq<Byte>, x: seq<nat>, i: nat)
    requires |data| >= 20 && i < 12
    requires Seeds(WordAt(data, 12) * 0x1_0000_0000_0000 + WordAt(data, 14) * 0x1_0000_0000
                   + WordAt(data, 16) * 0x1_0000 + WordAt(data, 18), x)
    ensures UnmaskedId(data, 12)[i] == (data[i] - Stepped(x[i])) % 256
  {
    MaskFollowsSeeds(Serial(data), x, i);
    hide Scramble, Mask;
  }

  lemma {:induction false} MaskFollowsSeeds(serial: nat, x: seq<nat>, i: nat)
    requires Seeds(serial, x) && i < 12
    ensures Mask(serial, i) == Stepped(x[i])
    decreases i
  {
    if i > 0 {
      MaskFollowsSeeds(serial, x, i - 1);
    }
  }
}
