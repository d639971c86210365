/** A GameCube memory card behind its EXI byte protocol. */
module MemoryCard {
  import opened Wrappers
  import opened Arithmetic
  import opened Bits

  // The card image is in memory and the same image in a host file. Writes go to the file at once or, in
  // batch mode, are gathered into one dirty interval. Host writes are taken to succeed.

  type Byte = b: int | 0 <= b < 256

  const BLOCK_SIZE := 0x2000
  const PAGE_SIZE := 512
  const PROGRAM_BYTES := 128
  const COUNTERS := 0x1_0000_0000

  const CLEAR_STATUS: Byte := 0x89
  const GET_STATUS: Byte := 0x83
  const GET_ID: Byte := 0x85
  const SET_INTERRUPT: Byte := 0x81
  const READ: Byte := 0x52
  const ERASE: Byte := 0xF1
  const PROGRAM: Byte := 0xF2

  datatype Card = Card(
    data: seq<Byte>,
    file: seq<Byte>,
    persistedGeneration: nat,
    durableWrites: nat,
    pendingWriteGeneration: nat,
    idleObservedGeneration: nat,
    dirtyStart: nat,
    dirtyEnd: nat,
    batchWrites: bool,
    program: seq<Byte>,
    position: nat,
    address: nat,
    command: Byte,
    status: Byte,
    present: bool,
    interruptEnabled: bool,
    interruptPending: bool,
    dmaWrite: bool)

  /** Raw image sizes accepted by the card: powers of two from 512 KiB to 16 MiB. */
  predicate CardSize(n: nat) {
    n in {0x8_0000, 0x10_0000, 0x20_0000, 0x40_0000, 0x80_0000, 0x100_0000}
  }

  predicate Shaped(c: Card) {
    && CardSize(|c.data|) && |c.file| == |c.data| && |c.program| == PROGRAM_BYTES
    && c.dirtyEnd <= |c.data| && (c.dirtyEnd != 0 ==> c.dirtyStart <= c.dirtyEnd)
  }

  // ---------------------------------------------------------------- writing back

  /** s with the bytes at offset.. replaced. */
  function Overwrite(s: seq<Byte>, offset: nat, bytes: seq<Byte>): (r: seq<Byte>)
    requires offset + |bytes| <= |s|
    ensures |r| == |s|
    ensures forall i :: 0 <= i < |s| ==> r[i] == if offset <= i < offset + |bytes| then bytes[i - offset] else s[i]
  {
    s[..offset] + bytes + s[offset + |bytes|..]
  }

  function PersistRange(c: Card, offset: nat, length: nat): Card
    requires offset + length <= |c.data| == |c.file|
  {
    c.(file := Overwrite(c.file, offset, c.data[offset..offset + length]), durableWrites := c.durableWrites + 1)
  }

  /** Records a write to data[offset..offset+length]. */
  function Persist(c: Card, offset: nat, length: nat): Card
    requires offset + length <= |c.data| == |c.file|
  {
    if c.batchWrites then
      c.(persistedGeneration := c.persistedGeneration + 1, pendingWriteGeneration := c.pendingWriteGeneration + 1,
         dirtyStart := if c.dirtyEnd != 0 then Min(c.dirtyStart, offset) else offset,
         dirtyEnd := Max(c.dirtyEnd, offset + length))
    else PersistRange(c.(persistedGeneration := c.persistedGeneration + 1), offset, length)
  }

  function Flush(c: Card): Card
    requires Shaped(c)
  {
    if c.dirtyEnd == 0 then c
    else PersistRange(c, c.dirtyStart, c.dirtyEnd - c.dirtyStart)
         .(dirtyEnd := 0, idleObservedGeneration := c.pendingWriteGeneration)
  }

  /** Called once per game update: commits only after an update without a new write. */
  function FlushIfIdle(c: Card): Card
    requires Shaped(c)
  {
    if c.dirtyEnd == 0 || c.idleObservedGeneration != c.pendingWriteGeneration
    then c.(idleObservedGeneration := c.pendingWriteGeneration)
    else Flush(c)
  }

  function SetBatchWrites(c: Card, enabled: bool): Card
    requires Shaped(c)
  {
    Flush(c).(batchWrites := enabled, idleObservedGeneration := c.pendingWriteGeneration)
  }

  // ---------------------------------------------------------------- the EXI protocol

  /** (status & ~0x80) | 0x41: bit 7 is busy, bit 6 unlocked and bit 0 ready. */
  function CompletedStatus(status: Byte): Byte {
    var idle := ClearBit(status, 7);
    var unlocked := SetBit(idle, 6);
    assert Pow2(8) == 256;
    BitUpdatesStayInWidth(status, 7, 8);
    BitUpdatesStayInWidth(idle, 6, 8);
    BitUpdatesStayInWidth(unlocked, 0, 8);
    SetBit(unlocked, 0)
  }

  /** The end of a command, with its interrupt. */
  function Complete(c: Card): Card {
    c.(status := CompletedStatus(c.status), interruptPending := true)
  }

  /** The card offset an address selects: the size is a power of two, so masking is a remainder. */
  function Offset(c: Card, address: nat): (o: nat)
    requires Shaped(c)
    ensures o < |c.data|
  {
    address % |c.data|
  }

  /** The first address of the 512-byte page around an address. */
  function PageBase(address: nat): (p: nat)
    ensures p <= address < p + 512
  {
    address - address % 512
  }

  /** The next address, wrapping inside its 512-byte page. */
  function NextInPage(address: nat): (next: nat)
    ensures PageBase(next) == PageBase(address)
    ensures next == if address + 1 == PageBase(address) + 512 then PageBase(address) else address + 1
  {
    PageBase(address) + (address + 1) % 512
  }

  /** The first n steps of programming: the buffer is written from the address on, wrapping in the page. */
  function ProgramBytes(data: seq<Byte>, address: nat, program: seq<Byte>, n: nat): (r: (seq<Byte>, nat))
    requires CardSize(|data|) && |program| == PROGRAM_BYTES
    ensures |r.0| == |data|
    ensures PageBase(r.1) == PageBase(address)
    decreases n
  {
    if n == 0 then (data, address)
    else
      var (d, a) := ProgramBytes(data, address, program, n - 1);
      (d[a % |data| := program[(n - 1) % PROGRAM_BYTES]], NextInPage(a))
  }

  function PageStart(address: nat, size: nat): (o: nat)
    requires CardSize(size)
    ensures o + PAGE_SIZE <= size
  {
    PageBase(address % size)
  }

  function BlockStart(address: nat, size: nat): (o: nat)
    requires CardSize(size)
    ensures o + BLOCK_SIZE <= size
  {
    var o := address % size;
    o - o % BLOCK_SIZE
  }

  function Repeat(b: Byte, n: nat): (s: seq<Byte>)
    ensures |s| == n && forall i :: 0 <= i < n ==> s[i] == b
  {
    seq(n, _ => b)
  }

  /** Raising or dropping the chip select; dropping it carries out an erase or a program command. */
  function Select(c: Card, selected: bool): Card
    requires Shaped(c)
  {
    if selected then c.(position := 0, dmaWrite := false)
    else if !c.present then c
    else if c.command == ERASE && c.position > 2 then
      var start := BlockStart(c.address, |c.data|);
      Complete(Persist(c.(data := Overwrite(c.data, start, Repeat(0xFF, BLOCK_SIZE))), start, BLOCK_SIZE))
    else if c.command == PROGRAM && c.position >= 5 then
      if c.dmaWrite then Complete(c)
      else
        var (data, address) := ProgramBytes(c.data, c.address, c.program, c.position - 5);
        var c1 := c.(data := data, address := address);
        Complete(Persist(c1, PageStart(address, |data|), PAGE_SIZE))
    else c
  }

  /** The address after the byte at position pos of an addressed command. */
  function AddressAfter(command: Byte, address: nat, pos: nat, byte: Byte): nat {
    if pos == 1 then byte * 0x2_0000
    else if pos == 2 then Or(address, byte * 0x200)
    else if command == ERASE then address
    else if pos == 3 then Or(address, byte % 4 * 0x80)
    else if pos == 4 then Or(address, byte % 128)
    else address
  }

  /** A byte after the code of a command that carries an address: first the address, then data either way. */
  function Addressed(c: Card, pos: nat, byte: Byte): (Card, Byte)
    requires Shaped(c)
  {
    var c1 := c.(address := AddressAfter(c.command, c.address, pos, byte));
    if c.command == READ && pos >= 9 then (c1.(address := NextInPage(c1.address)), c1.data[Offset(c1, c1.address)])
    else if c.command == PROGRAM && pos >= 5 then (c1.(program := c.program[(pos - 5) % PROGRAM_BYTES := byte]), 0xFF)
    else (c1, 0xFF)
  }

  /** One byte of the protocol in each direction. */
  function Transfer(c: Card, byte: Byte): (Card, Byte)
    requires Shaped(c)
  {
    if !c.present then (c, 0)
    else
      var pos := c.position;
      var c1 := c.(position := (pos + 1) % COUNTERS);
      if pos == 0 then
        (if byte == CLEAR_STATUS then c1.(command := byte, status := 0x41, interruptPending := false)
         else c1.(command := byte), 0xFF)
      else if c.command == 0 then
        (c1, if pos == 1 then 0x80 else SizeByte(|c.data| / 0x2_0000, (pos - 2) % 4))
      else if c.command == GET_STATUS then (c1, c.status)
      else if c.command == GET_ID then (c1, if pos == 1 || pos % 2 == 0 then 0xC2 else 0x21)
      else if c.command == SET_INTERRUPT then
        (if pos == 1 then c1.(interruptEnabled := byte != 0) else c1, 0xFF)
      else if c.command in {READ, ERASE, PROGRAM} then Addressed(c1, pos, byte)
      else (c1, 0xFF)
  }

  /** Byte k, most significant first, of the card size in megabits. */
  function SizeByte(megabits: nat, k: nat): Byte
    requires k < 4
  {
    megabits / [0x100_0000, 0x1_0000, 0x100, 1][k] % 256
  }

  function DmaRead(c: Card, size: nat): Option<seq<Byte>>
    requires Shaped(c)
  {
    var start := Offset(c, c.address);
    if c.command != READ || c.position < 9 || size > |c.data| - start then None
    else Some(c.data[start..start + size])
  }

  function DmaWrite(c: Card, bytes: seq<Byte>): (Card, bool)
    requires Shaped(c)
  {
    var start := Offset(c, c.address);
    if c.command != PROGRAM || c.position < 5 || |bytes| > |c.data| - start then (c, false)
    else (Persist(c.(data := Overwrite(c.data, start, bytes)), start, |bytes|).(dmaWrite := true), true)
  }

  // ---------------------------------------------------------------- checkpoints

  /** What a checkpoint saves, with the write generation it was taken at. */
  datatype Checkpoint = Checkpoint(generation: nat, data: seq<Byte>, program: seq<Byte>, position: nat, address: nat,
                                   command: Byte, status: Byte, present: bool, interruptEnabled: bool,
                                   interruptPending: bool, dmaWrite: bool)

  function Capture(c: Card): Option<Checkpoint> {
    if c.dirtyEnd != 0 then None
    else Some(Checkpoint(c.persistedGeneration, c.data, c.program, c.position, c.address, c.command, c.status,
                         c.present, c.interruptEnabled, c.interruptPending, c.dmaWrite))
  }

  /** The card with the saved fields. */
  function Rewound(c: Card, k: Checkpoint): Card {
    c.(data := k.data, program := k.program, position := k.position, address := k.address,
       command := k.command, status := k.status, present := k.present, interruptEnabled := k.interruptEnabled,
       interruptPending := k.interruptPending, dmaWrite := k.dmaWrite)
  }

  /** Restores the saved fields unless a write was recorded since the capture. */
  function Restore(c: Card, k: Checkpoint): (Card, bool) {
    if k.generation != c.persistedGeneration then (c, false) else (Rewound(c, k), true)
  }

  // ---------------------------------------------------------------- durability

  /** Card and file agree outside the dirty interval, which is empty unless writes are batched. */
  ghost predicate Coherent(c: Card) {
    && Shaped(c)
    && (forall i :: 0 <= i < |c.data| && !(c.dirtyStart <= i < c.dirtyEnd) ==> c.data[i] == c.file[i])
    && (!c.batchWrites ==> c.dirtyEnd == 0)
    && c.idleObservedGeneration <= c.pendingWriteGeneration
  }

  lemma {:induction false} CoherentIsShaped(c: Card)
    requires Coherent(c)
    ensures Shaped(c)
  {
  }

  /** Recording a write restores agreement after the bytes at offset.. were changed. */
  lemma {:induction false} PersistKeepsCoherent(c: Card, data: seq<Byte>, offset: nat, length: nat)
    requires Coherent(c) && |data| == |c.data| && offset + length <= |data|
    requires forall i :: 0 <= i < |data| && !(offset <= i < offset + length) ==> data[i] == c.data[i]
    ensures var c' := Persist(c.(data := data), offset, length);
            && Coherent(c') && c'.persistedGeneration == c.persistedGeneration + 1
            && (c.batchWrites ==> c'.file == c.file && c'.durableWrites == c.durableWrites
                                  && c'.idleObservedGeneration < c'.pendingWriteGeneration)
  {
    hide CardSize;
    if c.batchWrites {
      GatheringKeepsCoherent(c, data, offset, length);
    } else {
      WritingKeepsCoherent(c, data, offset, length);
    }
  }

  lemma {:induction false} GatheringKeepsCoherent(c: Card, data: seq<Byte>, offset: nat, length: nat)
    requires Coherent(c) && |data| == |c.data| && offset + length <= |data| && c.batchWrites
    requires forall i :: 0 <= i < |data| && !(offset <= i < offset + length) ==> data[i] == c.data[i]
    ensures Coherent(Persist(c.(data := data), offset, length))
  {
    hide CardSize, PersistRange;
  }

  lemma {:induction false} WritingKeepsCoherent(c: Card, data: seq<Byte>, offset: nat, length: nat)
    requires Coherent(c) && |data| == |c.data| && offset + length <= |data| && !c.batchWrites
    requires forall i :: 0 <= i < |data| && !(offset <= i < offset + length) ==> data[i] == c.data[i]
    ensures Coherent(Persist(c.(data := data), offset, length))
  {
    hide CardSize;
  }

  lemma {:induction false} FlushKeepsCoherent(c: Card)
    requires Coherent(c)
    ensures Coherent(Flush(c)) && Flush(c).dirtyEnd == 0 && Flush(c).file == Flush(c).data == c.data
  {
    var c' := Flush(c);
    assert c'.file == c'.data;
  }

  /** Masking by the card size keeps the place in the page: it only masks the page. */
  lemma {:induction false} MaskingKeepsThePage(a: nat, size: nat)
    requires CardSize(size)
    ensures PageBase(a % size) == PageBase(a) % size
    ensures a % size == PageBase(a) % size + (a - PageBase(a))
  {
    hide PageBase;
    var page, m := a / 512, size / 512;
    PageBaseIsAMultiple(a);
    MaskedPage(page, a - PageBase(a), m);
    MaskedPage(page, 0, m);
    PageBaseOf(page % m, a - PageBase(a));
  }

  lemma {:induction false} PageBaseIsAMultiple(a: nat)
    ensures PageBase(a) == 512 * (a / 512)
  {
  }

  lemma {:induction false} PageBaseOf(page: nat, w: nat)
    requires w < 512
    ensures PageBase(512 * page + w) == 512 * page
  {
  }

  lemma {:induction false} MaskedPage(page: nat, w: nat, m: nat)
    requires w < 512 && m > 0
    ensures (512 * page + w) % (512 * m) == 512 * (page % m) + w
  {
    var q, r := page / m, page % m;
    assert page == q * m + r;
    assert q * (512 * m) == 512 * (q * m);
    DivModUnique(512 * page + w, 512 * m, q, 512 * r + w);
  }

  lemma {:induction false} ProgramStaysInPage(data: seq<Byte>, address: nat, program: seq<Byte>, n: nat, i: nat)
    requires CardSize(|data|) && |program| == PROGRAM_BYTES && i < |data|
    requires var start := PageBase(address) % |data|; !(start <= i < start + PAGE_SIZE)
    ensures ProgramBytes(data, address, program, n).0[i] == data[i]
    decreases n
  {
    hide PageBase, NextInPage, CardSize;
    if n > 0 {
      ProgramStaysInPage(data, address, program, n - 1, i);
      MaskingKeepsThePage(ProgramBytes(data, address, program, n - 1).1, |data|);
    }
  }

  // ---------------------------------------------------------------- runs

  datatype Operation =
    | SelectOp(selected: bool)
    | TransferOp(byte: Byte)
    | DmaReadOp(size: nat)
    | DmaWriteOp(bytes: seq<Byte>)
    | FlushOp
    | PollOp
    | ModeOp(batch: bool)
    | CaptureOp
    | RestoreOp(which: nat)

  /** A card and the checkpoints captured from it so far. */
  datatype System = System(card: Card, saved: seq<Checkpoint>)

  function Step(s: System, op: Operation): System
    requires Shaped(s.card)
  {
    var c := s.card;
    match op
    case SelectOp(selected) => s.(card := Select(c, selected))
    case TransferOp(byte) => s.(card := Transfer(c, byte).0)
    case DmaReadOp(size) => s
    case DmaWriteOp(bytes) => s.(card := DmaWrite(c, bytes).0)
    case FlushOp => s.(card := Flush(c))
    case PollOp => s.(card := FlushIfIdle(c))
    case ModeOp(batch) => s.(card := SetBatchWrites(c, batch))
    case CaptureOp => if Capture(c).Some? then s.(saved := s.saved + [Capture(c).value]) else s
    case RestoreOp(which) => if which < |s.saved| then s.(card := Restore(c, s.saved[which]).0) else s
  }

  /** A checkpoint that would still restore holds exactly what card and file hold. */
  ghost predicate CheckpointFaithful(c: Card, k: Checkpoint) {
    && |k.program| == PROGRAM_BYTES && k.generation <= c.persistedGeneration
    && (k.generation == c.persistedGeneration ==> k.data == c.data == c.file && c.dirtyEnd == 0)
  }

  ghost predicate Good(s: System) {
    Coherent(s.card) && forall k :: k in s.saved ==> CheckpointFaithful(s.card, k)
  }

  /** A step that records no write leaves the bytes alone and starts no dirty interval. */
  ghost predicate Quiet(c: Card, c': Card) {
    && c'.persistedGeneration == c.persistedGeneration && c'.data == c.data
    && (c.dirtyEnd == 0 ==> c'.dirtyEnd == 0 && c'.file == c.file)
    && (Settled(c) ==> Settled(c'))
  }

  /** The last poll saw every write recorded so far. */
  ghost predicate Settled(c: Card) {
    c.dirtyEnd == 0 || c.idleObservedGeneration == c.pendingWriteGeneration
  }

  /** A step that records a write; in batch mode it leaves the host file alone. */
  ghost predicate Recorded(c: Card, c': Card) {
    && c'.persistedGeneration == c.persistedGeneration + 1 && c'.batchWrites == c.batchWrites
    && (c.batchWrites ==> c'.file == c.file && c'.durableWrites == c.durableWrites
                          && c'.idleObservedGeneration < c'.pendingWriteGeneration)
  }

  ghost predicate Effect(c: Card, c': Card) {
    Coherent(c') && (Quiet(c, c') || Recorded(c, c'))
  }

  lemma {:induction false} RecordingIsAnEffect(c: Card, c1: Card, offset: nat, length: nat, c': Card)
    requires Coherent(c) && |c1.data| == |c.data| && offset + length <= |c.data|
    requires forall i :: 0 <= i < |c.data| && !(offset <= i < offset + length) ==> c1.data[i] == c.data[i]
    requires c1.(data := c.data, address := c.address) == c
    requires c' == Persist(c1, offset, length).(status := c'.status, interruptPending := c'.interruptPending,
                                                dmaWrite := c'.dmaWrite)
    ensures Effect(c, c')
  {
    hide Coherent, CardSize;
    CoherentIsShaped(c);
    var before := c.(address := c1.address);
    ProtocolFieldsKeepCoherent(c, before);
    PersistKeepsCoherent(before, c1.data, offset, length);
    ProtocolFieldsKeepCoherent(Persist(c1, offset, length), c');
  }

  lemma {:induction false} ProtocolFieldsKeepCoherent(c: Card, c': Card)
    requires Coherent(c)
    requires c' == c.(address := c'.address, status := c'.status, interruptPending := c'.interruptPending,
                      dmaWrite := c'.dmaWrite)
    ensures Coherent(c')
  {
    hide CardSize;
  }

  lemma {:induction false} EraseIsAnEffect(c: Card)
    requires Coherent(c) && c.command == ERASE && c.position > 2 && c.present
    ensures Effect(c, Select(c, false))
  {
    var start := BlockStart(c.address, |c.data|);
    var c1 := c.(data := Overwrite(c.data, start, Repeat(0xFF, BLOCK_SIZE)));
    hide Coherent;
    RecordingIsAnEffect(c, c1, start, BLOCK_SIZE, Select(c, false));
  }

  lemma {:induction false} ProgramIsAnEffect(c: Card)
    requires Coherent(c) && c.command == PROGRAM && c.position >= 5 && c.present && !c.dmaWrite
    ensures Effect(c, Select(c, false))
  {
    hide Coherent, ProgramBytes, Effect, Persist;
    CoherentIsShaped(c);
    var (data, address) := ProgramBytes(c.data, c.address, c.program, c.position - 5);
    var c1 := c.(data := data, address := address);
    var start := PageStart(address, |data|);
    MaskingKeepsThePage(address, |data|);
    forall i: nat | i < |data| && !(start <= i < start + PAGE_SIZE) ensures data[i] == c.data[i] {
      ProgramStaysInPage(c.data, c.address, c.program, c.position - 5, i);
    }
    RecordingIsAnEffect(c, c1, start, PAGE_SIZE, Select(c, false));
  }

  lemma {:induction false} AddressedMovesOn(c: Card, pos: nat, byte: Byte)
    requires Shaped(c)
    ensures var c' := Addressed(c, pos, byte).0;
            c' == c.(address := c'.address, program := c'.program) && |c'.program| == PROGRAM_BYTES
  {
    hide NextInPage, AddressAfter, Offset, CardSize;
  }

  /** A protocol byte moves on position, command, address, buffer and signals, and nothing else. */
  lemma {:induction false} TransferMovesOn(c: Card, byte: Byte)
    requires Shaped(c)
    ensures var c' := Transfer(c, byte).0;
            && c' == c.(position := c'.position, command := c'.command, status := c'.status, program := c'.program,
                        interruptPending := c'.interruptPending, interruptEnabled := c'.interruptEnabled,
                        address := c'.address)
            && |c'.program| == PROGRAM_BYTES
  {
    hide Addressed, SizeByte, CardSize;
    AddressedMovesOn(c.(position := (c.position + 1) % COUNTERS), c.position, byte);
  }

  lemma {:induction false} TransferIsQuiet(c: Card, byte: Byte)
    requires Coherent(c)
    ensures Effect(c, Transfer(c, byte).0)
  {
    hide Transfer;
    TransferMovesOn(c, byte);
  }

  lemma {:induction false} FlushIsAnEffect(c: Card, batch: bool)
    requires Coherent(c)
    ensures Effect(c, Flush(c)) && Effect(c, FlushIfIdle(c)) && Effect(c, SetBatchWrites(c, batch))
  {
    FlushKeepsCoherent(c);
  }

  lemma {:induction false} RestoreIsAnEffect(c: Card, k: Checkpoint)
    requires Coherent(c) && CheckpointFaithful(c, k)
    ensures Effect(c, Restore(c, k).0)
  {
  }

  lemma {:induction false} StepIsAnEffect(s: System, op: Operation)
    requires Good(s)
    ensures Effect(s.card, Step(s, op).card)
  {
    hide Effect, Coherent, CheckpointFaithful, Persist, ProgramBytes, CompletedStatus, Transfer;
    hide Flush, FlushIfIdle, SetBatchWrites, Restore, Capture;
    var c := s.card;
    CoherentIsShaped(c);
    match op
    case SelectOp(selected) =>
      if !selected && c.present && c.command == ERASE && c.position > 2 {
        EraseIsAnEffect(c);
      } else if !selected && c.present && c.command == PROGRAM && c.position >= 5 && !c.dmaWrite {
        ProgramIsAnEffect(c);
      } else {
        var c' := Select(c, selected);
        OnlyProtocolFieldsIsAnEffect(c, c');
      }
    case TransferOp(byte) => TransferIsQuiet(c, byte);
    case DmaReadOp(size) => OnlyProtocolFieldsIsAnEffect(c, c);
    case DmaWriteOp(bytes) =>
      if DmaWrite(c, bytes).1 {
        var start := Offset(c, c.address);
        RecordingIsAnEffect(c, c.(data := Overwrite(c.data, start, bytes)), start, |bytes|, DmaWrite(c, bytes).0);
      } else {
        OnlyProtocolFieldsIsAnEffect(c, c);
      }
    case FlushOp => FlushIsAnEffect(c, c.batchWrites);
    case PollOp => FlushIsAnEffect(c, c.batchWrites);
    case ModeOp(batch) => FlushIsAnEffect(c, batch);
    case CaptureOp => OnlyProtocolFieldsIsAnEffect(c, c);
    case RestoreOp(which) =>
      if which < |s.saved| {
        assert s.saved[which] in s.saved;
        RestoreIsAnEffect(c, s.saved[which]);
      } else {
        OnlyProtocolFieldsIsAnEffect(c, c);
      }
  }

  lemma {:induction false} OnlyProtocolFieldsIsAnEffect(c: Card, c': Card)
    requires Coherent(c)
    requires c' == c.(position := c'.position, status := c'.status, interruptPending := c'.interruptPending,
                      dmaWrite := c'.dmaWrite)
    ensures Effect(c, c')
  {
  }

  /** What any one step does to a good system. */
  lemma {:induction false} StepKeepsGood(s: System, op: Operation)
    requires Good(s)
    ensures Good(Step(s, op))
  {
    hide Select, Transfer, DmaWrite, Flush, FlushIfIdle, SetBatchWrites, Persist;
    StepIsAnEffect(s, op);
    if op.CaptureOp? && s.card.dirtyEnd == 0 {
      assert s.card.data == s.card.file;
    }
  }

  ghost function Run(s: System, ops: seq<Operation>): System
    requires Good(s)
    ensures Good(Run(s, ops))
    decreases |ops|
  {
    if ops == [] then s
    else
      var before := Run(s, ops[..|ops| - 1]);
      StepKeepsGood(before, ops[|ops| - 1]);
      Step(before, ops[|ops| - 1])
  }

  /** A card just opened or formatted: the image is in the file and no checkpoint exists. */
  ghost predicate Opened(s: System) {
    && Shaped(s.card) && s.card.data == s.card.file && s.card.dirtyEnd == 0 && !s.card.batchWrites
    && s.card.idleObservedGeneration == s.card.pendingWriteGeneration && s.saved == []
  }

  // ---------------------------------------------------------------- main results

  /** Over every run the card and the host file agree outside the dirty interval. */
  lemma {:induction false} FileFollowsCard(s: System, ops: seq<Operation>, i: nat)
    requires Opened(s) && i < |s.card.data|
    ensures Good(s)
    ensures var c := Run(s, ops).card;
            && |c.data| == |c.file| == |s.card.data|
            && (c.data[i] != c.file[i] ==> c.batchWrites && c.dirtyStart <= i < c.dirtyEnd)
  {
    RunKeepsSize(s, ops);
  }

  lemma {:induction false} RunKeepsSize(s: System, ops: seq<Operation>)
    requires Good(s)
    ensures |Run(s, ops).card.data| == |s.card.data|
    ensures Run(s, ops).card.persistedGeneration >= s.card.persistedGeneration
    decreases |ops|
  {
    hide Step;
    if ops != [] {
      RunKeepsSize(s, ops[..|ops| - 1]);
      StepIsAnEffect(Run(s, ops[..|ops| - 1]), ops[|ops| - 1]);
      StepKeepsSize(Run(s, ops[..|ops| - 1]), ops[|ops| - 1]);
    }
  }

  lemma {:induction false} StepKeepsSize(s: System, op: Operation)
    requires Good(s)
    ensures |Step(s, op).card.data| == |s.card.data|
  {
    hide NextInPage, AddressAfter, SizeByte;
    if op.RestoreOp? && op.which < |s.saved| {
      assert s.saved[op.which] in s.saved;
    } else if op.SelectOp? {
    } else {
    }
  }

  /** A flush leaves card and file equal. */
  lemma {:induction false} FlushMakesDurable(s: System, ops: seq<Operation>)
    requires Good(s)
    ensures var c := Run(s, ops).card; Flush(c).file == Flush(c).data == c.data && Flush(c).dirtyEnd == 0
  {
    FlushKeepsCoherent(Run(s, ops).card);
  }

  /** In batch mode neither the step that records a write nor a poll straight after it touches the file. */
  lemma {:induction false} PollAfterWriteDoesNotCommit(s: System, ops: seq<Operation>, op: Operation)
    requires Good(s)
    requires var c := Run(s, ops).card;
             c.batchWrites && Step(Run(s, ops), op).card.persistedGeneration > c.persistedGeneration
    ensures var c := Run(s, ops).card;
            var c' := Step(Run(s, ops), op).card;
            Shaped(c') && FlushIfIdle(c').file == c.file && FlushIfIdle(c').durableWrites == c.durableWrites
  {
    hide Step;
    StepIsAnEffect(Run(s, ops), op);
  }

  /** Two polls with no recorded write between them leave nothing dirty, whatever else happened between. */
  lemma {:induction false} TwoQuietPollsCommit(s: System, ops: seq<Operation>)
    requires Good(s)
    ensures Good(Step(s, PollOp))
    ensures var s1 := Step(s, PollOp);
            var c := Run(s1, ops).card;
            c.persistedGeneration == s1.card.persistedGeneration ==>
              var c' := FlushIfIdle(c); c'.dirtyEnd == 0 && c'.file == c'.data == s.card.data
  {
    StepKeepsGood(s, PollOp);
    StepIsAnEffect(s, PollOp);
    var s1 := Step(s, PollOp);
    assert Settled(s1.card);
    var c := Run(s1, ops).card;
    if c.persistedGeneration == s1.card.persistedGeneration {
      QuietRunStaysSettled(s1, ops);
      FlushKeepsCoherent(c);
      assert FlushIfIdle(c).dirtyEnd == 0;
      FlushIsAnEffect(c, c.batchWrites);
    }
  }

  lemma {:induction false} QuietRunStaysSettled(s: System, ops: seq<Operation>)
    requires Good(s) && Settled(s.card)
    requires Run(s, ops).card.persistedGeneration == s.card.persistedGeneration
    ensures Settled(Run(s, ops).card) && Run(s, ops).card.data == s.card.data
    decreases |ops|
  {
    hide Step;
    if ops != [] {
      var before := Run(s, ops[..|ops| - 1]);
      StepIsAnEffect(before, ops[|ops| - 1]);
      RunKeepsSize(s, ops[..|ops| - 1]);
      QuietRunStaysSettled(s, ops[..|ops| - 1]);
    }
  }

  /** A restore that succeeds leaves card and file equal and the file as it was: it undoes no save. */
  lemma {:induction false} RestoreUndoesNoSave(s: System, ops: seq<Operation>, which: nat)
    requires Opened(s)
    ensures Good(s)
    ensures var now := Run(s, ops);
            which < |now.saved| && Restore(now.card, now.saved[which]).1 ==>
              var c := Restore(now.card, now.saved[which]).0;
              c.data == c.file == now.card.file == now.card.data && c.dirtyEnd == 0
  {
    var now := Run(s, ops);
    if which < |now.saved| {
      assert now.saved[which] in now.saved;
    }
  }

  /** Step i of a run records a write. */
  ghost predicate RecordedAt(s: System, ops: seq<Operation>, i: nat)
    requires Good(s) && i < |ops|
  {
    Recorded(Run(s, ops[..i]).card, Run(s, ops[..i + 1]).card)
  }

  /** The write generation stands still over a run exactly if no step of it records a write. */
  lemma {:induction false} GenerationStandsStillExactly(s: System, ops: seq<Operation>)
    requires Good(s)
    ensures Run(s, ops).card.persistedGeneration == s.card.persistedGeneration <==>
            forall i :: 0 <= i < |ops| ==> !RecordedAt(s, ops, i)
    decreases |ops|
  {
    hide Good, Coherent, Step;
    if ops != [] {
      var n := |ops| - 1;
      var init := ops[..n];
      GenerationStandsStillExactly(s, init);
      RunKeepsSize(s, init);
      StepIsAnEffect(Run(s, init), ops[n]);
      assert ops[..n + 1] == ops;
      forall i | 0 <= i < n ensures RecordedAt(s, ops, i) <==> RecordedAt(s, init, i) {
        assert ops[..i] == init[..i] && ops[..i + 1] == init[..i + 1];
      }
      assert RecordedAt(s, ops, n) <==> Recorded(Run(s, init).card, Run(s, ops).card);
    }
  }

  /** Restoring succeeds exactly if no step since the capture recorded a write, and then changes no byte of the card. */
  lemma {:induction false} RestoreSucceedsIffNoWrite(s: System, ops: seq<Operation>, k: Checkpoint)
    requires Good(s) && Capture(s.card) == Some(k)
    ensures Restore(Run(s, ops).card, k).1 <==> forall i :: 0 <= i < |ops| ==> !RecordedAt(s, ops, i)
    ensures Restore(Run(s, ops).card, k).1 ==> Restore(Run(s, ops).card, k).0.data == Run(s, ops).card.data
  {
    hide RecordedAt;
    GenerationStandsStillExactly(s, ops);
    if Restore(Run(s, ops).card, k).1 {
      QuietRunStaysSettled(s, ops);
    }
  }

  /** A capture step keeps one more checkpoint, of the card as it is, exactly if nothing is dirty. */
  lemma {:induction false} CaptureKeepsCheckpoint(s: System)
    requires Shaped(s.card)
    ensures var saved := Step(s, CaptureOp).saved;
            if s.card.dirtyEnd != 0 then saved == s.saved
            else |saved| == |s.saved| + 1 && saved[..|s.saved|] == s.saved && Capture(s.card) == Some(saved[|s.saved|])
    ensures Step(s, CaptureOp).card == s.card
  {
  }

  /** A restore that succeeds brings the whole protocol state back to what it was at the capture. */
  lemma {:induction false} RestoreBringsBack(c: Card, now: Card, k: Checkpoint)
    requires Capture(c) == Some(k)
    ensures var (r, ok) := Restore(now, k);
            && (ok <==> now.persistedGeneration == c.persistedGeneration)
            && (!ok ==> r == now)
            && (ok ==> && r.data == c.data && r.program == c.program && r.position == c.position
                       && r.address == c.address && r.command == c.command && r.status == c.status
                       && r.present == c.present && r.interruptEnabled == c.interruptEnabled
                       && r.interruptPending == c.interruptPending && r.dmaWrite == c.dmaWrite
                       && r.file == now.file && r.batchWrites == now.batchWrites)
  {
  }
}
