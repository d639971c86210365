/**
 Formatting a 251-block card and importing one exported save into it.

 The image starts with five system blocks: the header with the flash identity, two copies of the
 directory and two of the block allocation table. The save's blocks follow, chained through the table;
 reading it back goes by its directory entry and that chain alone.
 */
module CardImage {
  import opened Wrappers
  import opened MemoryCard
  import opened Bits

  const DEFAULT_SIZE := 0x20_0000
  const SYSTEM_BLOCKS := 5
  const USER_BLOCKS := 251
  const ENTRY_SIZE := 64
  const LAST_BLOCK := 0xFFFF

  datatype ImportError = IncompleteSave | InvalidSaveSize
  datatype Result<+T> = Success(value: T) | Failure(error: ImportError)

  // ---------------------------------------------------------------- big-endian fields and checksums

  function Be16(hi: nat, lo: nat): nat { hi * 256 + lo }

  function Read16(s: seq<Byte>, offset: nat): (v: nat)
    requires offset + 2 <= |s|
    ensures v < 0x10000
  {
    Be16(s[offset], s[offset + 1])
  }

  function Write16(s: seq<Byte>, offset: nat, v: nat): (r: seq<Byte>)
    requires offset + 2 <= |s| && v < 0x10000
    ensures |r| == |s| && Read16(r, offset) == v
    ensures forall i :: 0 <= i < |s| && i != offset && i != offset + 1 ==> r[i] == s[i]
  {
    Overwrite(s, offset, [v / 256, v % 256])
  }

  function WordSum(s: seq<Byte>): (r: nat)
    ensures r < 0x10000
  {
    if |s| < 2 then 0 else (WordSum(s[..|s| - 2]) + Read16(s, |s| - 2)) % 0x10000
  }

  function InverseSum(s: seq<Byte>): (r: nat)
    ensures r < 0x10000
  {
    if |s| < 2 then 0 else (InverseSum(s[..|s| - 2]) + (0xFFFF - Read16(s, |s| - 2))) % 0x10000
  }

  function Folded(sum: nat): nat { if sum == 0xFFFF then 0 else sum }

  /** The stored sum and inverse sum at offset are those of the region. */
  predicate ChecksumMatches(s: seq<Byte>, region: seq<Byte>, offset: nat)
    requires offset + 4 <= |s|
  {
    Read16(s, offset) == Folded(WordSum(region)) && Read16(s, offset + 2) == Folded(InverseSum(region))
  }

  /** s with the checksum of s[from..from + size] stored at offset. */
  function WithChecksum(s: seq<Byte>, from: nat, size: nat, offset: nat): (r: seq<Byte>)
    requires from + size <= |s| && offset + 4 <= |s|
    ensures |r| == |s|
  {
    var region := s[from..from + size];
    Write16(Write16(s, offset, Folded(WordSum(region))), offset + 2, Folded(InverseSum(region)))
  }

  lemma {:induction false} WithChecksumMatches(s: seq<Byte>, from: nat, size: nat, offset: nat)
    requires from + size <= |s| && offset + 4 <= |s| && (offset + 4 <= from || from + size <= offset)
    ensures var r := WithChecksum(s, from, size, offset);
            && r[from..from + size] == s[from..from + size]
            && (forall i :: 0 <= i < |s| && !(offset <= i < offset + 4) ==> r[i] == s[i])
            && ChecksumMatches(r, r[from..from + size], offset)
  {
    hide Overwrite, WordSum, InverseSum, Folded;
    var r := WithChecksum(s, from, size, offset);
    assert r[from..from + size] == s[from..from + size];
  }

  /** The two sums of n words add up to n times 0xFFFF, so either one determines the other. */
  lemma {:induction false} SumsAreComplementary(s: seq<Byte>, n: nat)
    requires |s| == 2 * n
    ensures (WordSum(s) + InverseSum(s) + n) % 0x10000 == 0
    decreases n
  {
    hide Read16;
    if n > 0 {
      var init, v := s[..|s| - 2], Read16(s, |s| - 2);
      SumsAreComplementary(init, n - 1);
      assert WordSum(s) == (WordSum(init) + v) % 0x10000;
      assert InverseSum(s) == (InverseSum(init) + (0xFFFF - v)) % 0x10000;
      OneWordMore(WordSum(init), InverseSum(init), v, n - 1);
    }
  }

  lemma {:induction false} OneWordMore(sum: nat, inverse: nat, v: nat, n: nat)
    requires sum < 0x10000 && inverse < 0x10000 && v < 0x10000 && (sum + inverse + n) % 0x10000 == 0
    ensures ((sum + v) % 0x10000 + (inverse + (0xFFFF - v)) % 0x10000 + (n + 1)) % 0x10000 == 0
  {
    var wraps := if sum + v >= 0x10000 then 1 else 0;
    var inverseWraps := if inverse + (0xFFFF - v) >= 0x10000 then 1 else 0;
    assert (sum + v) % 0x10000 == sum + v - 0x10000 * wraps;
    assert (inverse + (0xFFFF - v)) % 0x10000 == inverse + (0xFFFF - v) - 0x10000 * inverseWraps;
  }

  lemma {:induction false} SumsOfNothing()
    ensures WordSum([]) == 0 == InverseSum([])
  {
  }

  lemma {:induction false} SumsOfOneMore(s: seq<Byte>, i: nat)
    requires i + 2 <= |s|
    ensures WordSum(s[..i + 2]) == (WordSum(s[..i]) + Read16(s, i)) % 0x10000
    ensures InverseSum(s[..i + 2]) == (InverseSum(s[..i]) + (0xFFFF - Read16(s, i))) % 0x10000
  {
    assert s[..i + 2][..i] == s[..i];
  }

  method Checksum(s: seq<Byte>, from: nat, size: nat, offset: nat) returns (r: seq<Byte>)
    requires from + size <= |s| && offset + 4 <= |s| && size % 2 == 0
    ensures r == WithChecksum(s, from, size, offset)
  {
    hide WordSum, InverseSum, Write16;
    var sum, inverse: nat := 0, 0;
    ghost var region := s[from..from + size];
    var i := 0;
    SumsOfNothing();
    assert region[..0] == [];
    while i < size
      invariant 0 <= i <= size && i % 2 == 0
      invariant sum == WordSum(region[..i]) && inverse == InverseSum(region[..i])
    {
      SumsOfOneMore(region, i);
      var value := Read16(s, from + i);
      sum := (sum + value) % 0x10000;
      inverse := (inverse + (0xFFFF - value)) % 0x10000;
      i := i + 2;
    }
    assert region[..size] == region;
    r := Write16(s, offset, if sum == 0xFFFF then 0 else sum);
    r := Write16(r, offset + 2, if inverse == 0xFFFF then 0 else inverse);
  }

  // ---------------------------------------------------------------- the blocks of a formatted card

  /** (seed * 0x41C64E6D + 0x3039) >> 16 in 64 bits. */
  function Scramble(seed: nat): nat {
    (seed * 0x41C6_4E6D + 0x3039) % 0x1_0000_0000_0000_0000 / 0x1_0000
  }

  /** The masking byte of flash id position i, from the serial's seed. */
  function Mask(seed: nat, i: nat): nat
    decreases i
  {
    if i == 0 then Scramble(seed) else Scramble(Scramble(Mask(seed, i - 1)) % 0x8000)
  }

  const FLASH_ID: seq<Byte> := [0x44, 0x4F, 0x4C, 0x50, 0x48, 0x49, 0x4E, 0x53, 0x4C, 0x4F, 0x54, 0x41]

  function MaskByte(plain: Byte, mask: nat): Byte { (plain + mask) % 256 }

  function UnmaskByte(masked: Byte, mask: nat): Byte { (masked - mask) % 256 }

  lemma {:induction false} UnmaskUndoesMask(b: Byte, mask: nat)
    ensures UnmaskByte(MaskByte(b, mask), mask) == b
  {
  }

  function MaskedId(n: nat): (r: seq<Byte>)
    requires n <= 12
    ensures |r| == n
  {
    seq(n, i requires 0 <= i < n => MaskByte(FLASH_ID[i], Mask(0, i)))
  }

  function HeaderFields(): (r: seq<Byte>)
    ensures |r| == BLOCK_SIZE
  {
    var b := Overwrite(Overwrite(Repeat(0xFF, BLOCK_SIZE), 0, MaskedId(12)), 12, Repeat(0, 26));
    Write16(Write16(b, 34, 16), 0x1FA, 0)
  }

  function HeaderBlock(): (r: seq<Byte>)
    ensures |r| == BLOCK_SIZE
  {
    WithChecksum(HeaderFields(), 0, 0x1FC, 0x1FC)
  }

  function EmptyDirectory(): (r: seq<Byte>)
    ensures |r| == BLOCK_SIZE
  {
    WithChecksum(Write16(Repeat(0xFF, BLOCK_SIZE), 0x1FFA, 0), 0, 0x1FFC, 0x1FFC)
  }

  function EmptyBat(): (r: seq<Byte>)
    ensures |r| == BLOCK_SIZE
  {
    WithChecksum(Write16(Write16(Repeat(0, BLOCK_SIZE), 6, USER_BLOCKS), 8, 4), 4, BLOCK_SIZE - 4, 0)
  }

  function DirectoryWith(entry: seq<Byte>): (r: seq<Byte>)
    requires |entry| == ENTRY_SIZE
    ensures |r| == BLOCK_SIZE
  {
    WithChecksum(Write16(Overwrite(EmptyDirectory(), 0, entry), 0x36, 5), 0, 0x1FFC, 0x1FFC)
  }

  /** The chain of an n-block file written into the first entries of the block allocation table. */
  function ChainEntries(bat: seq<Byte>, blocks: nat, n: nat): (r: seq<Byte>)
    requires |bat| == BLOCK_SIZE && n <= blocks <= USER_BLOCKS
    ensures |r| == BLOCK_SIZE
    decreases n
  {
    if n == 0 then bat
    else Write16(ChainEntries(bat, blocks, n - 1), 10 + (n - 1) * 2, if n == blocks then LAST_BLOCK else 5 + n)
  }

  function BatWith(blocks: nat): (r: seq<Byte>)
    requires 1 <= blocks <= USER_BLOCKS
    ensures |r| == BLOCK_SIZE
  {
    var b := Write16(Write16(EmptyBat(), 6, USER_BLOCKS - blocks), 8, 4 + blocks);
    WithChecksum(ChainEntries(b, blocks, blocks), 4, BLOCK_SIZE - 4, 0)
  }

  function Block(image: seq<Byte>, k: nat): (r: seq<Byte>)
    requires (k + 1) * BLOCK_SIZE <= |image|
    ensures |r| == BLOCK_SIZE
  {
    image[k * BLOCK_SIZE..(k + 1) * BLOCK_SIZE]
  }

  predicate Formatted(image: seq<Byte>, directory: seq<Byte>, bat: seq<Byte>, user: seq<Byte>) {
    && |image| == DEFAULT_SIZE
    && Block(image, 0) == HeaderBlock()
    && Block(image, 1) == directory && Block(image, 2) == directory
    && Block(image, 3) == bat && Block(image, 4) == bat
    && image[SYSTEM_BLOCKS * BLOCK_SIZE..] == user
  }

  // ---------------------------------------------------------------- building an image

  /** Replacing one system block leaves the other blocks and the user area alone. */
  lemma {:induction false} ReplaceBlock(image: seq<Byte>, k: nat, block: seq<Byte>)
    requires |image| == DEFAULT_SIZE && k < SYSTEM_BLOCKS && |block| == BLOCK_SIZE
    ensures var r := Overwrite(image, k * BLOCK_SIZE, block);
            && |r| == DEFAULT_SIZE && Block(r, k) == block
            && (forall j: nat :: j < SYSTEM_BLOCKS && j != k ==> Block(r, j) == Block(image, j))
            && r[SYSTEM_BLOCKS * BLOCK_SIZE..] == image[SYSTEM_BLOCKS * BLOCK_SIZE..]
  {
    var r := Overwrite(image, k * BLOCK_SIZE, block);
    assert Block(r, k) == block;
    forall j: nat | j < SYSTEM_BLOCKS && j != k ensures Block(r, j) == Block(image, j) {
    }
  }

  method MaskId() returns (id: seq<Byte>)
    ensures id == MaskedId(12)
  {
    var seed := 0;
    id := [];
    var i := 0;
    while i < 12
      invariant 0 <= i <= 12
      invariant id == MaskedId(i)
      invariant seed == if i == 0 then 0 else Scramble(Mask(0, i - 1)) % 0x8000
    {
      seed := Scramble(seed);
      id := id + [MaskByte(FLASH_ID[i], seed)];
      seed := Scramble(seed) % 0x8000;
      i := i + 1;
    }
  }

  method NewFormattedImage() returns (bytes: seq<Byte>)
    ensures Formatted(bytes, EmptyDirectory(), EmptyBat(), Repeat(0xFF, USER_BLOCKS * BLOCK_SIZE))
  {
    hide WithChecksum, MaskedId, Write16;
    bytes := Repeat(0xFF, DEFAULT_SIZE);
    ghost var blank := Repeat(0xFF, BLOCK_SIZE);
    assert forall k: nat :: k < SYSTEM_BLOCKS ==> Block(bytes, k) == blank;
    assert bytes[SYSTEM_BLOCKS * BLOCK_SIZE..] == Repeat(0xFF, USER_BLOCKS * BLOCK_SIZE);
    var id := MaskId();
    var header := Overwrite(Overwrite(Block(bytes, 0), 0, id), 12, Repeat(0, 26));
    header := Write16(header, 34, 16);
    header := Write16(header, 0x1FA, 0);
    header := Checksum(header, 0, 0x1FC, 0x1FC);
    ReplaceBlock(bytes, 0, header);
    bytes := Overwrite(bytes, 0 * BLOCK_SIZE, header);
    for block := 1 to 3
      invariant |bytes| == DEFAULT_SIZE && Block(bytes, 0) == HeaderBlock()
      invariant forall k: nat :: 1 <= k < SYSTEM_BLOCKS ==>
          Block(bytes, k) == if k < block then EmptyDirectory() else blank
      invariant bytes[SYSTEM_BLOCKS * BLOCK_SIZE..] == Repeat(0xFF, USER_BLOCKS * BLOCK_SIZE)
    {
      var p := Write16(Block(bytes, block), 0x1FFA, 0);
      p := Checksum(p, 0, 0x1FFC, 0x1FFC);
      ReplaceBlock(bytes, block, p);
      bytes := Overwrite(bytes, block * BLOCK_SIZE, p);
    }
    for block := 3 to 5
      invariant |bytes| == DEFAULT_SIZE && Block(bytes, 0) == HeaderBlock()
      invariant forall k: nat :: 1 <= k < block ==> Block(bytes, k) == if k < 3 then EmptyDirectory() else EmptyBat()
      invariant bytes[SYSTEM_BLOCKS * BLOCK_SIZE..] == Repeat(0xFF, USER_BLOCKS * BLOCK_SIZE)
    {
      var p := Repeat(0, BLOCK_SIZE);
      p := Write16(p, 6, DEFAULT_SIZE / BLOCK_SIZE - SYSTEM_BLOCKS);
      p := Write16(p, 8, 4);
      p := Checksum(p, 4, BLOCK_SIZE - 4, 0);
      ReplaceBlock(bytes, block, p);
      bytes := Overwrite(bytes, block * BLOCK_SIZE, p);
    }
  }

  predicate ImportableSave(save: seq<Byte>) {
    && |save| >= ENTRY_SIZE
    && 1 <= Read16(save, 0x38) <= USER_BLOCKS && |save| == ENTRY_SIZE + Read16(save, 0x38) * BLOCK_SIZE
  }

  function SystemArea(directory: seq<Byte>, bat: seq<Byte>): (r: seq<Byte>)
    requires |directory| == BLOCK_SIZE == |bat|
    ensures |r| == SYSTEM_BLOCKS * BLOCK_SIZE
  {
    HeaderBlock() + directory + directory + bat + bat
  }

  /** A payload of this many blocks, and erased blocks after it. */
  function UserArea(payload: seq<Byte>, blocks: nat): (r: seq<Byte>)
    requires blocks <= USER_BLOCKS && |payload| == blocks * BLOCK_SIZE
    ensures |r| == USER_BLOCKS * BLOCK_SIZE
  {
    payload + Repeat(0xFF, (USER_BLOCKS - blocks) * BLOCK_SIZE)
  }

  /** The image of a card that holds one save. */
  function CardWith(save: seq<Byte>): (image: seq<Byte>)
    requires ImportableSave(save)
    ensures |image| == DEFAULT_SIZE
  {
    var blocks := Read16(save, 0x38);
    SystemArea(DirectoryWith(save[..ENTRY_SIZE]), BatWith(blocks)) + UserArea(save[ENTRY_SIZE..], blocks)
  }

  /** The same block by block. */
  predicate HoldsSave(image: seq<Byte>, save: seq<Byte>)
    requires ImportableSave(save)
  {
    var blocks := Read16(save, 0x38);
    Formatted(image, DirectoryWith(save[..ENTRY_SIZE]), BatWith(blocks),
              UserArea(save[ENTRY_SIZE..], blocks))
  }

  /** Its blocks are the expected ones, and an image with those blocks is no other. */
  lemma {:induction false} CardWithHolds(save: seq<Byte>)
    requires ImportableSave(save)
    ensures HoldsSave(CardWith(save), save)
  {
    hide HeaderBlock, DirectoryWith, BatWith;
    var blocks := Read16(save, 0x38);
    var image := CardWith(save);
    assert Block(image, 0) == HeaderBlock();
    assert Block(image, 1) == Block(image, 2) == DirectoryWith(save[..ENTRY_SIZE]);
    assert Block(image, 3) == Block(image, 4) == BatWith(blocks);
    assert image[SYSTEM_BLOCKS * BLOCK_SIZE..] == UserArea(save[ENTRY_SIZE..], blocks);
  }

  lemma {:induction false} HoldsOnlyCardWith(image: seq<Byte>, save: seq<Byte>)
    requires ImportableSave(save) && HoldsSave(image, save)
    ensures image == CardWith(save)
  {
    hide HeaderBlock, DirectoryWith, BatWith;
    assert image == Block(image, 0) + Block(image, 1) + Block(image, 2) + Block(image, 3) + Block(image, 4)
                    + image[SYSTEM_BLOCKS * BLOCK_SIZE..];
  }

  /** Writes the chain of a file of this many blocks into an allocation table. */
  method WriteChain(table: seq<Byte>, blocks: nat) returns (bat: seq<Byte>)
    requires |table| == BLOCK_SIZE && blocks <= USER_BLOCKS
    ensures bat == ChainEntries(table, blocks, blocks)
  {
    hide Write16;
    bat := table;
    for i := 0 to blocks
      invariant bat == ChainEntries(table, blocks, i)
    {
      bat := Write16(bat, 10 + i * 2, if i + 1 == blocks then 0xFFFF else 6 + i);
    }
  }

  lemma {:induction false} CopyUserArea(image: seq<Byte>, payload: seq<Byte>, blocks: nat)
    requires |image| == DEFAULT_SIZE && blocks <= USER_BLOCKS && |payload| == blocks * BLOCK_SIZE
    requires image[SYSTEM_BLOCKS * BLOCK_SIZE..] == Repeat(0xFF, USER_BLOCKS * BLOCK_SIZE)
    ensures var r := Overwrite(image, SYSTEM_BLOCKS * BLOCK_SIZE, payload);
            && (forall j: nat :: j < SYSTEM_BLOCKS ==> Block(r, j) == Block(image, j))
            && r[SYSTEM_BLOCKS * BLOCK_SIZE..] == UserArea(payload, blocks)
  {
    var r := Overwrite(image, SYSTEM_BLOCKS * BLOCK_SIZE, payload);
    var user := image[SYSTEM_BLOCKS * BLOCK_SIZE..];
    assert r[SYSTEM_BLOCKS * BLOCK_SIZE..] == payload + user[|payload|..];
    assert user[|payload|..] == Repeat(0xFF, (USER_BLOCKS - blocks) * BLOCK_SIZE);
  }

  method AddToDirectory(block: seq<Byte>, entry: seq<Byte>) returns (directory: seq<Byte>)
    requires block == EmptyDirectory() && |entry| == ENTRY_SIZE
    ensures directory == DirectoryWith(entry)
  {
    hide WithChecksum, Write16, EmptyDirectory;
    directory := Overwrite(block, 0, entry);
    directory := Write16(directory, 0x36, 5);
    directory := Checksum(directory, 0, 0x1FFC, 0x1FFC);
  }

  method AddToTable(block: seq<Byte>, blocks: nat) returns (bat: seq<Byte>)
    requires block == EmptyBat() && 1 <= blocks <= USER_BLOCKS
    ensures bat == BatWith(blocks)
  {
    hide WithChecksum, Write16, ChainEntries, EmptyBat;
    bat := Write16(block, 6, DEFAULT_SIZE / BLOCK_SIZE - 5 - blocks);
    bat := Write16(bat, 8, 4 + blocks);
    bat := WriteChain(bat, blocks);
    bat := Checksum(bat, 4, BLOCK_SIZE - 4, 0);
  }

  method FormattedImageWithSave(save: seq<Byte>) returns (r: Result<seq<Byte>>)
    ensures r.Success? <==> ImportableSave(save)
    ensures r.Success? ==> r.value == CardWith(save)
    ensures r.Failure? ==> r.error == if |save| < ENTRY_SIZE then IncompleteSave else InvalidSaveSize
  {
    hide DirectoryWith, BatWith, HeaderBlock, EmptyDirectory, EmptyBat;
    if |save| < 64 { return Failure(IncompleteSave); }
    var blocks := Read16(save, 0x38);
    if blocks == 0 || blocks > DEFAULT_SIZE / BLOCK_SIZE - 5 || |save| != 64 + blocks * BLOCK_SIZE {
      return Failure(InvalidSaveSize);
    }
    var bytes := NewFormattedImage();
    for block := 1 to 3
      invariant |bytes| == DEFAULT_SIZE && Block(bytes, 0) == HeaderBlock()
      invariant forall k: nat :: 1 <= k < 3 ==>
                  Block(bytes, k) == if k < block then DirectoryWith(save[..ENTRY_SIZE]) else EmptyDirectory()
      invariant Block(bytes, 3) == EmptyBat() && Block(bytes, 4) == EmptyBat()
      invariant bytes[SYSTEM_BLOCKS * BLOCK_SIZE..] == Repeat(0xFF, USER_BLOCKS * BLOCK_SIZE)
    {
      var directory := AddToDirectory(Block(bytes, block), save[..64]);
      ReplaceBlock(bytes, block, directory);
      bytes := Overwrite(bytes, block * BLOCK_SIZE, directory);
    }
    for block := 3 to 5
      invariant |bytes| == DEFAULT_SIZE && Block(bytes, 0) == HeaderBlock()
      invariant Block(bytes, 1) == DirectoryWith(save[..ENTRY_SIZE]) == Block(bytes, 2)
      invariant forall k: nat :: 3 <= k < 5 ==> Block(bytes, k) == if k < block then BatWith(blocks) else EmptyBat()
      invariant bytes[SYSTEM_BLOCKS * BLOCK_SIZE..] == Repeat(0xFF, USER_BLOCKS * BLOCK_SIZE)
    {
      var bat := AddToTable(Block(bytes, block), blocks);
      ReplaceBlock(bytes, block, bat);
      bytes := Overwrite(bytes, block * BLOCK_SIZE, bat);
    }
    CopyUserArea(bytes, save[64..], blocks);
    bytes := Overwrite(bytes, 5 * BLOCK_SIZE, save[64..]);
    HoldsOnlyCardWith(bytes, save);
    return Success(bytes);
  }

  // ---------------------------------------------------------------- reading a card

  /** The table entry of a user block. */
  function Entry(bat: seq<Byte>, block: nat): nat
    requires |bat| == BLOCK_SIZE && SYSTEM_BLOCKS <= block < SYSTEM_BLOCKS + USER_BLOCKS
  {
    Read16(bat, 10 + (block - SYSTEM_BLOCKS) * 2)
  }

  /** The blocks of a file, following the table from its first block. */
  function Follow(bat: seq<Byte>, block: nat, fuel: nat): Option<seq<nat>>
    requires |bat| == BLOCK_SIZE
    decreases fuel
  {
    if fuel == 0 || !(SYSTEM_BLOCKS <= block < SYSTEM_BLOCKS + USER_BLOCKS) then None
    else if Entry(bat, block) == LAST_BLOCK then Some([block])
    else
      match Follow(bat, Entry(bat, block), fuel - 1)
      case None => None
      case Some(rest) => Some([block] + rest)
  }

  function BlocksFrom(first: nat, n: nat): (r: seq<nat>)
    ensures |r| == n
    decreases n
  {
    if n == 0 then [] else [first] + BlocksFrom(first + 1, n - 1)
  }

  /** The bytes of the listed blocks. */
  function Contents(image: seq<Byte>, blocks: seq<nat>): seq<Byte> {
    if blocks == [] then []
    else
      var first := if (blocks[0] + 1) * BLOCK_SIZE <= |image| then Block(image, blocks[0]) else [];
      first + Contents(image, blocks[1..])
  }

  /** A save read back through the first entry of one directory copy and the chain in one table copy. */
  function ReadSave(image: seq<Byte>, directory: nat, table: nat): Option<seq<Byte>>
    requires |image| == DEFAULT_SIZE && directory in {1, 2} && table in {3, 4}
  {
    var entry := Block(image, directory)[..ENTRY_SIZE];
    match Follow(Block(image, table), Read16(entry, 0x36), USER_BLOCKS)
    case None => None
    case Some(blocks) => Some(entry + Contents(image, blocks))
  }

  function FreeEntries(bat: seq<Byte>, n: nat): nat
    requires |bat| == BLOCK_SIZE && n <= USER_BLOCKS
  {
    if n == 0 then 0 else FreeEntries(bat, n - 1) + if Entry(bat, SYSTEM_BLOCKS + n - 1) == 0 then 1 else 0
  }

  // ---------------------------------------------------------------- main results

  lemma {:induction false} ChainEntriesHold(bat: seq<Byte>, blocks: nat, n: nat, i: nat)
    requires |bat| == BLOCK_SIZE && n <= blocks <= USER_BLOCKS && i < USER_BLOCKS
    ensures Read16(ChainEntries(bat, blocks, n), 10 + i * 2)
            == if i >= n then Read16(bat, 10 + i * 2) else if i + 1 == blocks then LAST_BLOCK else 6 + i
    ensures ChainEntries(bat, blocks, n)[..10] == bat[..10]
    decreases n
  {
    hide Write16;
    if n > 0 {
      ChainEntriesHold(bat, blocks, n - 1, i);
      var before := ChainEntries(bat, blocks, n - 1);
      var after := ChainEntries(bat, blocks, n);
      assert after[..10] == before[..10];
    }
  }

  /** The table of an imported save: chain, free entries, free count and last allocated block. */
  lemma {:induction false} TableHolds(blocks: nat, block: nat)
    requires 1 <= blocks <= USER_BLOCKS && SYSTEM_BLOCKS <= block < SYSTEM_BLOCKS + USER_BLOCKS
    ensures var bat := BatWith(blocks);
            && Entry(bat, block) == (if block + 1 < SYSTEM_BLOCKS + blocks then block + 1
                                     else if block + 1 == SYSTEM_BLOCKS + blocks then LAST_BLOCK else 0)
            && Read16(bat, 6) == USER_BLOCKS - blocks && Read16(bat, 8) == 4 + blocks
            && ChecksumMatches(bat, bat[4..BLOCK_SIZE], 0)
  {
    hide Write16, ChecksumMatches, WithChecksum, Repeat, ChainEntries;
    var zeros := Write16(Write16(Repeat(0, BLOCK_SIZE), 6, USER_BLOCKS), 8, 4);
    WithChecksumMatches(zeros, 4, BLOCK_SIZE - 4, 0);
    var b := Write16(Write16(EmptyBat(), 6, USER_BLOCKS - blocks), 8, 4 + blocks);
    var i := block - SYSTEM_BLOCKS;
    assert b[10 + i * 2] == 0 && b[10 + i * 2 + 1] == 0;
    ChainEntriesHold(b, blocks, blocks, i);
    var chained := ChainEntries(b, blocks, blocks);
    assert chained[..10][6] == b[..10][6] && chained[..10][7] == b[..10][7];
    assert chained[..10][8] == b[..10][8] && chained[..10][9] == b[..10][9];
    WithChecksumMatches(chained, 4, BLOCK_SIZE - 4, 0);
  }

  /** Following the chain from any block of the file lists the rest of the file and stops. */
  lemma {:induction false} ChainIsFollowed(blocks: nat, k: nat, fuel: nat)
    requires k < blocks <= USER_BLOCKS && blocks - k <= fuel
    ensures Follow(BatWith(blocks), SYSTEM_BLOCKS + k, fuel) == Some(BlocksFrom(SYSTEM_BLOCKS + k, blocks - k))
    decreases blocks - k
  {
    hide BatWith, Entry;
    TableHolds(blocks, SYSTEM_BLOCKS + k);
    if k + 1 < blocks {
      ChainIsFollowed(blocks, k + 1, fuel - 1);
    } else {
      assert BlocksFrom(SYSTEM_BLOCKS + k, 1) == [SYSTEM_BLOCKS + k];
    }
  }

  lemma {:induction false} ContentsOfRange(image: seq<Byte>, first: nat, n: nat)
    requires |image| == DEFAULT_SIZE && first + n <= SYSTEM_BLOCKS + USER_BLOCKS
    ensures Contents(image, BlocksFrom(first, n)) == image[first * BLOCK_SIZE..(first + n) * BLOCK_SIZE]
    decreases n
  {
    if n > 0 {
      ContentsOfRange(image, first + 1, n - 1);
      assert BlocksFrom(first, n)[1..] == BlocksFrom(first + 1, n - 1);
    }
  }

  lemma {:induction false} FreeEntriesCount(blocks: nat, n: nat)
    requires 1 <= blocks <= USER_BLOCKS && n <= USER_BLOCKS
    ensures FreeEntries(BatWith(blocks), n) == if n <= blocks then 0 else n - blocks
    decreases n
  {
    hide BatWith, Entry;
    if n > 0 {
      FreeEntriesCount(blocks, n - 1);
      TableHolds(blocks, SYSTEM_BLOCKS + n - 1);
    }
  }

  /** Reading the save back through either directory copy and either table copy gives the save, renumbered. */
  lemma {:induction false} ImportRoundTrip(save: seq<Byte>, directory: nat, table: nat)
    requires ImportableSave(save) && directory in {1, 2} && table in {3, 4}
    ensures ReadSave(CardWith(save), directory, table)
            == Some(Write16(save[..ENTRY_SIZE], 0x36, 5) + save[ENTRY_SIZE..])
  {
    hide Write16, BatWith, WithChecksum, Follow, HeaderBlock, CardWith;
    var image := CardWith(save);
    CardWithHolds(save);
    var blocks := Read16(save, 0x38);
    var d := Write16(Overwrite(EmptyDirectory(), 0, save[..ENTRY_SIZE]), 0x36, 5);
    WithChecksumMatches(d, 0, 0x1FFC, 0x1FFC);
    assert d[..ENTRY_SIZE] == Write16(save[..ENTRY_SIZE], 0x36, 5);
    var entry := Block(image, directory)[..ENTRY_SIZE];
    assert entry == DirectoryWith(save[..ENTRY_SIZE])[..ENTRY_SIZE] == d[..ENTRY_SIZE];
    ChainIsFollowed(blocks, 0, USER_BLOCKS);
    ContentsOfRange(image, SYSTEM_BLOCKS, blocks);
    var user := image[SYSTEM_BLOCKS * BLOCK_SIZE..];
    assert image[SYSTEM_BLOCKS * BLOCK_SIZE..(SYSTEM_BLOCKS + blocks) * BLOCK_SIZE] == user[..blocks * BLOCK_SIZE];
    assert user[..blocks * BLOCK_SIZE] == save[ENTRY_SIZE..];
  }

  /** Used and free blocks add up to the card, in the stored count and in the table itself. */
  lemma {:induction false} BlocksAreAccountedFor(save: seq<Byte>, table: nat)
    requires ImportableSave(save) && table in {3, 4}
    ensures var bat := Block(CardWith(save), table);
            var chain := Follow(bat, SYSTEM_BLOCKS, USER_BLOCKS);
            && chain.Some? && |chain.value| == Read16(save, 0x38)
            && Entry(bat, SYSTEM_BLOCKS + |chain.value| - 1) == LAST_BLOCK
            && |chain.value| + Read16(bat, 6) == USER_BLOCKS
            && FreeEntries(bat, USER_BLOCKS) == Read16(bat, 6)
  {
    hide BatWith, Entry, Follow, FreeEntries, CardWith;
    CardWithHolds(save);
    var blocks := Read16(save, 0x38);
    ChainIsFollowed(blocks, 0, USER_BLOCKS);
    FreeEntriesCount(blocks, USER_BLOCKS);
    TableHolds(blocks, SYSTEM_BLOCKS + blocks - 1);
  }

  /** Every stored checksum is the one a reader recomputes, and both copies of each system block agree. */
  lemma {:induction false} ChecksumsAndCopiesAgree(save: seq<Byte>)
    requires ImportableSave(save)
    ensures var header := Block(CardWith(save), 0); ChecksumMatches(header, header[..0x1FC], 0x1FC)
    ensures var directory := Block(CardWith(save), 1);
            directory == Block(CardWith(save), 2) && ChecksumMatches(directory, directory[..0x1FFC], 0x1FFC)
    ensures var bat := Block(CardWith(save), 3);
            bat == Block(CardWith(save), 4) && ChecksumMatches(bat, bat[4..], 0)
  {
    hide Write16, WithChecksum, ChecksumMatches, BatWith, CardWith;
    var image := CardWith(save);
    CardWithHolds(save);
    WithChecksumMatches(HeaderFields(), 0, 0x1FC, 0x1FC);
    WithChecksumMatches(Write16(Overwrite(EmptyDirectory(), 0, save[..ENTRY_SIZE]), 0x36, 5), 0, 0x1FFC, 0x1FFC);
    TableHolds(Read16(save, 0x38), SYSTEM_BLOCKS);
    var bat := Block(image, 3);
    assert bat[4..] == bat[4..BLOCK_SIZE];
  }

  // ---------------------------------------------------------------- the flash id

  /** The formatting serial: the eight bytes from 12, big-endian. */
  function Serial(data: seq<Byte>): nat
    requires |data| >= 20
  {
    ((Read16(data, 12) * 0x1_0000 + Read16(data, 14)) * 0x1_0000 + Read16(data, 16)) * 0x1_0000 + Read16(data, 18)
  }

  /** The id a guest derives from a card image. */
  method FlashId(data: seq<Byte>) returns (flash: seq<Byte>)
    requires |data| >= 20
    ensures flash == UnmaskedId(data, 12)
  {
    hide Scramble, UnmaskByte;
    var seed := Serial(data);
    flash := [];
    var i := 0;
    while i < 12
      invariant 0 <= i <= 12
      invariant flash == UnmaskedId(data, i)
      invariant seed == if i == 0 then Serial(data) else Scramble(Mask(Serial(data), i - 1)) % 0x8000
    {
      seed := Scramble(seed);
      flash := flash + [UnmaskByte(data[i], seed)];
      seed := Scramble(seed) % 0x8000;
      i := i + 1;
    }
  }

  function UnmaskedId(data: seq<Byte>, n: nat): (r: seq<Byte>)
    requires |data| >= 20 && n <= 12
    ensures |r| == n
  {
    seq(n, i requires 0 <= i < n => UnmaskByte(data[i], Mask(Serial(data), i)))
  }

  lemma {:induction false} HeaderStart(i: nat)
    requires i < 20
    ensures HeaderBlock()[i] == if i < 12 then MaskedId(12)[i] else 0
  {
    hide WithChecksum, MaskedId, HeaderFields, ChecksumMatches;
    HeaderFieldsStart(i);
    WithChecksumMatches(HeaderFields(), 0, 0x1FC, 0x1FC);
  }

  lemma {:induction false} HeaderFieldsStart(i: nat)
    requires i < 20
    ensures HeaderFields()[i] == if i < 12 then MaskedId(12)[i] else 0
  {
    hide MaskedId, Read16, Write16;
    var id := MaskedId(12);
    var b1 := Overwrite(Repeat(0xFF, BLOCK_SIZE), 0, id);
    assert i < 12 ==> b1[i] == id[i];
    var b2 := Overwrite(b1, 12, Repeat(0, 26));
    assert b2[i] == if i < 12 then id[i] else 0;
    var b3 := Write16(b2, 34, 16);
    assert b3[i] == b2[i];
  }

  lemma {:induction false} SerialOfZeros(data: seq<Byte>)
    requires |data| >= 20 && forall i :: 12 <= i < 20 ==> data[i] == 0
    ensures Serial(data) == 0
  {
  }

  lemma {:induction false} UnmaskedAt(data: seq<Byte>, i: nat)
    requires |data| >= 20 && i < 12 && Serial(data) == 0 && data[i] == MaskedId(12)[i]
    ensures UnmaskedId(data, 12)[i] == FLASH_ID[i]
  {
    hide Mask, MaskByte, UnmaskByte, Serial;
    UnmaskUndoesMask(FLASH_ID[i], Mask(0, i));
  }

  /** The id derived from a card formatted here is, byte by byte, the one written into it: its serial is zero. */
  lemma {:induction false} FormattedCardHasTheFlashId(image: seq<Byte>, directory: seq<Byte>, bat: seq<Byte>,
                                                      user: seq<Byte>, i: nat)
    requires Formatted(image, directory, bat, user) && i < 12
    ensures UnmaskedId(image, 12)[i] == FLASH_ID[i]
  {
    hide MaskedId, UnmaskedId, Serial, HeaderBlock;
    assert forall k :: 0 <= k < 20 ==> image[k] == Block(image, 0)[k];
    forall k: nat | k < 20 ensures image[k] == if k < 12 then MaskedId(12)[k] else 0 {
      HeaderStart(k);
    }
    SerialOfZeros(image);
    UnmaskedAt(image, i);
  }
}
