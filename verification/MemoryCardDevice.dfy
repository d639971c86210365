/**
 The memory card as the object that owns the image.

 The EXI bus selects it and exchanges bytes, the DMA engine moves blocks, and the game loop polls it
 once an update. Every method updates the fields in place, keeps card and file coherent and every
 checkpoint faithful, and says what it does to the stored bytes. Its step is the one MemoryCard takes,
 so the results about runs there are results about this object.
 */
module MemoryCardDevice {
  import opened Wrappers
  import opened MemoryCard
  import opened Arithmetic
  import opened Bits

  class GameCubeMemoryCard {
    var data: seq<Byte>
    var file: seq<Byte>
    var persistedGeneration: nat
    var durableWrites: nat
    var pendingWriteGeneration: nat
    var idleObservedGeneration: nat
    var dirtyStart: nat
    var dirtyEnd: nat
    var batchWrites: bool
    var program: seq<Byte>
    var position: nat
    var address: nat
    var command: Byte
    var status: Byte
    var present: bool
    var interruptEnabled: bool
    var interruptPending: bool
    var dmaWrite: bool
    ghost var saved: seq<Checkpoint>

    /** Card and file agree outside the dirty interval, and no captured checkpoint would undo a save. */
    ghost predicate Valid()
      reads this
    {
      Good(System(Snapshot(), saved))
    }

    ghost function Snapshot(): Card
      reads this
    {
      Card(data, file, persistedGeneration, durableWrites, pendingWriteGeneration, idleObservedGeneration,
           dirtyStart, dirtyEnd, batchWrites, program, position, address, command, status, present,
           interruptEnabled, interruptPending, dmaWrite)
    }

    /** Opens an existing image, whose bytes were just read. */
    constructor (image: seq<Byte>)
      requires CardSize(|image|)
      ensures Valid() && Opened(System(Snapshot(), saved)) && data == file == image && present
    {
      data, file := image, image;
      persistedGeneration, durableWrites, pendingWriteGeneration, idleObservedGeneration := 0, 0, 0, 0;
      dirtyStart, dirtyEnd, batchWrites := 0, 0, false;
      program := Repeat(0, PROGRAM_BYTES);
      position, address, command, status := 0, 0, 0, 0x41;
      present, interruptEnabled, interruptPending, dmaWrite := true, false, false, false;
      saved := [];
    }

    method PersistRange(offset: nat, length: nat)
      requires offset + length <= |data| == |file|
      modifies this`file, this`durableWrites
      ensures Snapshot() == MemoryCard.PersistRange(old(Snapshot()), offset, length)
    {
      file := Overwrite(file, offset, data[offset..offset + length]);
      durableWrites := durableWrites + 1;
    }

    method Persist(offset: nat, length: nat)
      requires offset + length <= |data| == |file|
      modifies this
      ensures saved == old(saved) && Snapshot() == MemoryCard.Persist(old(Snapshot()), offset, length)
    {
      persistedGeneration := persistedGeneration + 1;
      if batchWrites {
        pendingWriteGeneration := pendingWriteGeneration + 1;
        dirtyStart := if dirtyEnd != 0 then Min(dirtyStart, offset) else offset;
        dirtyEnd := Max(dirtyEnd, offset + length);
        return;
      }
      PersistRange(offset, length);
    }

    /** Leaves nothing dirty: the file is the card, whose bytes do not change. */
    method FlushPendingWrites()
      requires Valid()
      modifies this
      ensures Valid() && saved == old(saved) && Snapshot() == Flush(old(Snapshot()))
      ensures file == data == old(data) && dirtyEnd == 0
    {
      StepKeepsGood(System(Snapshot(), saved), FlushOp);
      FlushKeepsCoherent(Snapshot());
      hide Good, Coherent;
      if dirtyEnd == 0 { return; }
      PersistRange(dirtyStart, dirtyEnd - dirtyStart);
      dirtyEnd := 0;
      idleObservedGeneration := pendingWriteGeneration;
    }

    /** Commits everything if the last poll saw every write, and otherwise leaves the file alone until the next poll. */
    method FlushPendingWritesIfIdle()
      requires Valid()
      modifies this
      ensures Valid() && saved == old(saved) && Snapshot() == FlushIfIdle(old(Snapshot()))
      ensures data == old(data) && Settled(Snapshot())
      ensures if old(Settled(Snapshot())) then file == data && dirtyEnd == 0
              else file == old(file) && durableWrites == old(durableWrites)
    {
      StepKeepsGood(System(Snapshot(), saved), PollOp);
      FlushKeepsCoherent(Snapshot());
      if dirtyEnd == 0 {
        idleObservedGeneration := pendingWriteGeneration;
        return;
      }
      if idleObservedGeneration != pendingWriteGeneration {
        idleObservedGeneration := pendingWriteGeneration;
        return;
      }
      FlushPendingWrites();
    }

    /** A mode switch is a flush: the new mode starts with nothing dirty. */
    method SetBatchWrites(enabled: bool)
      requires Valid()
      modifies this
      ensures Valid() && saved == old(saved) && Snapshot() == MemoryCard.SetBatchWrites(old(Snapshot()), enabled)
      ensures file == data == old(data) && dirtyEnd == 0 && batchWrites == enabled
    {
      StepKeepsGood(System(Snapshot(), saved), ModeOp(enabled));
      hide Good, Coherent;
      FlushPendingWrites();
      batchWrites := enabled;
      idleObservedGeneration := pendingWriteGeneration;
    }

    method CompleteCommand()
      modifies this`status, this`interruptPending
      ensures Snapshot() == Complete(old(Snapshot()))
    {
      status := CompletedStatus(status);
      interruptPending := true;
    }

    /** The byte loop of a program command that carried its bytes over the bus. */
    method ProgramLoop()
      requires Shaped(Snapshot()) && position >= 5
      modifies this`data, this`address
      ensures Snapshot() == old(Snapshot()).(data := data, address := address)
      ensures (data, address) == ProgramBytes(old(data), old(address), program, position - 5)
    {
      var i := 0;
      while i < position - 5
        invariant 0 <= i <= position - 5
        invariant |data| == |old(data)|
        invariant (data, address) == ProgramBytes(old(data), old(address), program, i)
      {
        data := data[address % |data| := program[i % PROGRAM_BYTES]];
        address := NextInPage(address);
        i := i + 1;
      }
    }

    /** Raising or dropping the select: a command carried out is recorded, anything else leaves card and file alone. */
    method Select(selected: bool)
      requires Valid()
      modifies this
      ensures Valid() && saved == old(saved) && Snapshot() == MemoryCard.Select(old(Snapshot()), selected)
      ensures Effect(old(Snapshot()), Snapshot())
    {
      StepKeepsGood(System(Snapshot(), saved), SelectOp(selected));
      StepIsAnEffect(System(Snapshot(), saved), SelectOp(selected));
      SelectFields(selected);
    }

    method SelectFields(selected: bool)
      requires Shaped(Snapshot())
      modifies this
      ensures saved == old(saved) && Snapshot() == MemoryCard.Select(old(Snapshot()), selected)
    {
      hide Complete, PageStart, BlockStart, ProgramBytes, MemoryCard.Persist, Repeat, Overwrite;
      if selected {
        position := 0;
        dmaWrite := false;
        return;
      }
      if !present { return; }
      if command == ERASE && position > 2 {
        var start := BlockStart(address, |data|);
        data := Overwrite(data, start, Repeat(0xFF, BLOCK_SIZE));
        Persist(start, BLOCK_SIZE);
        CompleteCommand();
      } else if command == PROGRAM && position >= 5 {
        if !dmaWrite {
          ProgramLoop();
          var start := PageStart(address, |data|);
          Persist(start, PAGE_SIZE);
        }
        CompleteCommand();
      }
    }

    /**
     A byte of the protocol only moves the protocol on: card, file and dirty interval stay, and reading replies
     with the card's byte.
     */
    method Transfer(byte: Byte) returns (reply: Byte)
      requires Valid()
      modifies this
      ensures Valid() && saved == old(saved) && (Snapshot(), reply) == MemoryCard.Transfer(old(Snapshot()), byte)
      ensures data == old(data) && file == old(file) && dirtyStart == old(dirtyStart) && dirtyEnd == old(dirtyEnd)
      ensures persistedGeneration == old(persistedGeneration) && durableWrites == old(durableWrites)
      ensures old(present && command == READ && position >= 9) ==>
                reply == data[old(address) % |data|] && PageBase(address) == PageBase(old(address))
      ensures old(present && command == PROGRAM && position >= 5) ==>
                program == old(program)[(old(position) - 5) % PROGRAM_BYTES := byte]
    {
      hide Good, MemoryCard.Transfer;
      TransferMeans(Snapshot(), saved, byte);
      reply := TransferFields(byte);
    }

    method TransferFields(byte: Byte) returns (reply: Byte)
      requires Shaped(Snapshot())
      modifies this
      ensures saved == old(saved) && (Snapshot(), reply) == MemoryCard.Transfer(old(Snapshot()), byte)
    {
      hide SizeByte, Addressed;
      if !present { return 0; }
      var pos := position;
      position := (position + 1) % COUNTERS;
      if pos == 0 {
        command := byte;
        if command == CLEAR_STATUS {
          status := 0x41;
          interruptPending := false;
        }
        return 0xFF;
      }
      if command == 0 {
        return if pos == 1 then 0x80 else SizeByte(|data| / 0x2_0000, (pos - 2) % 4);
      } else if command == GET_STATUS {
        return status;
      } else if command == GET_ID {
        return if pos == 1 || pos % 2 == 0 then 0xC2 else 0x21;
      } else if command == SET_INTERRUPT {
        if pos == 1 { interruptEnabled := byte != 0; }
        return 0xFF;
      } else if command == READ || command == ERASE || command == PROGRAM {
        reply := AddressedFields(pos, byte);
        return;
      }
      return 0xFF;
    }

    /** A byte of a command that carries an address. */
    method AddressedFields(pos: nat, byte: Byte) returns (reply: Byte)
      requires Shaped(Snapshot()) && pos > 0
      modifies this`address, this`program
      ensures (Snapshot(), reply) == Addressed(old(Snapshot()), pos, byte)
    {
      hide NextInPage, AddressAfter;
      AddressByte(pos, byte);
      if command == READ && pos >= 9 {
        reply := data[address % |data|];
        address := NextInPage(address);
        return;
      }
      if command == PROGRAM && pos >= 5 {
        program := program[(pos - 5) % PROGRAM_BYTES := byte];
      }
      return 0xFF;
    }

    /** One byte of the address of a command. */
    method AddressByte(pos: nat, byte: Byte)
      requires pos > 0
      modifies this`address
      ensures address == AddressAfter(command, old(address), pos, byte)
    {
      hide Or;
      if pos == 1 { address := byte * 0x2_0000; }
      if pos == 2 { address := Or(address, byte * 0x200); }
      if command != ERASE {
        if pos == 3 { address := Or(address, byte % 4 * 0x80); }
        if pos == 4 { address := Or(address, byte % 128); }
      }
    }

    /** The size bytes from the selected offset on, or nothing when they would leave the card. */
    method DmaRead(size: nat) returns (bytes: Option<seq<Byte>>)
      requires Valid()
      ensures bytes == MemoryCard.DmaRead(Snapshot(), size)
      ensures bytes.Some? <==> command == READ && position >= 9 && address % |data| + size <= |data|
      ensures bytes.Some? ==>
                |bytes.value| == size && forall i :: 0 <= i < size ==> bytes.value[i] == data[address % |data| + i]
    {
      if command != READ || position < 9 { return None; }
      var start := address % |data|;
      if size > |data| - start { return None; }
      return Some(data[start..start + size]);
    }

    /** Stores and records the bytes at the selected offset and no others, or refuses and changes nothing. */
    method DmaWrite(bytes: seq<Byte>) returns (accepted: bool)
      requires Valid()
      modifies this
      ensures Valid() && saved == old(saved) && (Snapshot(), accepted) == MemoryCard.DmaWrite(old(Snapshot()), bytes)
      ensures !accepted ==> Snapshot() == old(Snapshot())
      ensures accepted ==> Recorded(old(Snapshot()), Snapshot()) && |data| == |old(data)|
      ensures accepted ==>
                var start := old(address) % |data|;
                forall i :: 0 <= i < |data| ==>
                  data[i] == if start <= i < start + |bytes| then bytes[i - start] else old(data)[i]
    {
      hide Good, Effect, Recorded, Coherent;
      DmaWriteMeans(Snapshot(), saved, bytes);
      accepted := DmaWriteFields(bytes);
    }

    method DmaWriteFields(bytes: seq<Byte>) returns (accepted: bool)
      requires Shaped(Snapshot())
      modifies this
      ensures saved == old(saved) && (Snapshot(), accepted) == MemoryCard.DmaWrite(old(Snapshot()), bytes)
    {
      if command != PROGRAM || position < 5 { return false; }
      var start := address % |data|;
      if |bytes| > |data| - start { return false; }
      data := Overwrite(data, start, bytes);
      Persist(start, |bytes|);
      dmaWrite := true;
      return true;
    }

    /** A checkpoint holds what is in the file too, so there is none while anything is dirty. */
    method CaptureState() returns (checkpoint: Option<Checkpoint>)
      requires Valid()
      modifies this`saved
      ensures Valid() && checkpoint == Capture(Snapshot())
      ensures checkpoint.Some? <==> dirtyEnd == 0
      ensures checkpoint.Some? ==> checkpoint.value.data == data == file
      ensures saved == if checkpoint.Some? then old(saved) + [checkpoint.value] else old(saved)
    {
      StepKeepsGood(System(Snapshot(), saved), CaptureOp);
      if dirtyEnd != 0 { return None; }
      checkpoint := Some(Checkpoint(persistedGeneration, data, program, position, address, command, status, present,
                                    interruptEnabled, interruptPending, dmaWrite));
      assert data == file;
      saved := saved + [checkpoint.value];
    }

    /** Restores exactly if no write was recorded since; a checkpoint of this card then changes no stored byte. */
    method RestoreState(k: Checkpoint) returns (restored: bool)
      requires Valid()
      modifies this
      ensures restored <==> k.generation == old(persistedGeneration)
      ensures saved == old(saved) && Snapshot() == Restore(old(Snapshot()), k).0
      ensures k in saved ==> Valid()
      ensures k in saved && restored ==> data == file == old(file) == old(data) && dirtyEnd == 0
    {
      RestoreMeans(Snapshot(), saved, k);
      hide Good, Coherent, Rewound;
      if k.generation != persistedGeneration { return false; }
      Rewind(k);
      return true;
    }

    method Rewind(k: Checkpoint)
      modifies this
      ensures saved == old(saved) && Snapshot() == Rewound(old(Snapshot()), k)
    {
      RestoreBytes(k);
      RestoreCommand(k);
      RestoreSignals(k);
    }

    method RestoreBytes(k: Checkpoint)
      modifies this`data, this`program, this`position, this`address
      ensures Snapshot() == old(Snapshot()).(data := k.data, program := k.program, position := k.position,
                                             address := k.address)
    {
      data, program, position, address := k.data, k.program, k.position, k.address;
    }

    method RestoreCommand(k: Checkpoint)
      modifies this`command, this`status, this`present
      ensures Snapshot() == old(Snapshot()).(command := k.command, status := k.status, present := k.present)
    {
      command, status, present := k.command, k.status, k.present;
    }

    method RestoreSignals(k: Checkpoint)
      modifies this`interruptEnabled, this`interruptPending, this`dmaWrite
      ensures Snapshot() == old(Snapshot()).(interruptEnabled := k.interruptEnabled,
                                             interruptPending := k.interruptPending, dmaWrite := k.dmaWrite)
    {
      interruptEnabled, interruptPending, dmaWrite := k.interruptEnabled, k.interruptPending, k.dmaWrite;
    }
  }

  lemma {:induction false} RestoreMeans(c: Card, saved: seq<Checkpoint>, k: Checkpoint)
    requires Good(System(c, saved))
    ensures var (c', restored) := Restore(c, k);
            k in saved ==>
              Good(System(c', saved)) && (restored ==> c'.data == c'.file == c.file == c.data && c'.dirtyEnd == 0)
  {
    if k in saved {
      var which :| 0 <= which < |saved| && saved[which] == k;
      StepKeepsGood(System(c, saved), RestoreOp(which));
    }
  }

  lemma {:induction false} DmaWriteMeans(c: Card, saved: seq<Checkpoint>, bytes: seq<Byte>)
    requires Good(System(c, saved))
    ensures Shaped(c)
    ensures var (c', accepted) := DmaWrite(c, bytes);
            var start := c.address % |c.data|;
            && Good(System(c', saved)) && |c'.data| == |c.data|
            && (!accepted ==> c' == c)
            && (accepted ==> Recorded(c, c'))
            && (accepted ==> forall i :: 0 <= i < |c.data| ==>
                  c'.data[i] == if start <= i < start + |bytes| then bytes[i - start] else c.data[i])
  {
    hide Coherent, CheckpointFaithful, DmaWrite, Shaped;
    var s := System(c, saved);
    StepKeepsGood(s, DmaWriteOp(bytes));
    StepIsAnEffect(s, DmaWriteOp(bytes));
    CoherentIsShaped(c);
    DmaWriteLays(c, bytes);
    assert Step(s, DmaWriteOp(bytes)).saved == saved;
  }

  lemma {:induction false} DmaWriteLays(c: Card, bytes: seq<Byte>)
    requires Shaped(c)
    ensures var (c', accepted) := DmaWrite(c, bytes);
            var start := c.address % |c.data|;
            && |c'.data| == |c.data|
            && (!accepted ==> c' == c)
            && (accepted ==> c'.persistedGeneration == c.persistedGeneration + 1)
            && (accepted ==> forall i :: 0 <= i < |c.data| ==>
                  c'.data[i] == if start <= i < start + |bytes| then bytes[i - start] else c.data[i])
  {
  }

  lemma {:induction false} TransferMeans(c: Card, saved: seq<Checkpoint>, byte: Byte)
    requires Good(System(c, saved))
    ensures Shaped(c)
    ensures var (c', reply) := Transfer(c, byte);
            && Good(System(c', saved))
            && c'.data == c.data && c'.file == c.file && c'.dirtyStart == c.dirtyStart && c'.dirtyEnd == c.dirtyEnd
            && c'.persistedGeneration == c.persistedGeneration && c'.durableWrites == c.durableWrites
            && (c.present && c.command == READ && c.position >= 9 ==>
                  reply == c.data[c.address % |c.data|] && PageBase(c'.address) == PageBase(c.address))
            && (c.present && c.command == PROGRAM && c.position >= 5 ==>
                  c'.program == c.program[(c.position - 5) % PROGRAM_BYTES := byte])
  {
    StepKeepsGood(System(c, saved), TransferOp(byte));
    CoherentIsShaped(c);
    hide Good, Coherent, Transfer, PageBase, CardSize;
    TransferMovesOn(c, byte);
    if c.present {
      TransferCarries(c, byte);
    }
  }

  lemma {:induction false} TransferCarries(c: Card, byte: Byte)
    requires Shaped(c) && c.present
    ensures var (c', reply) := Transfer(c, byte);
            && (c.command == READ && c.position >= 9 ==>
                  reply == c.data[c.address % |c.data|] && PageBase(c'.address) == PageBase(c.address))
            && (c.command == PROGRAM && c.position >= 5 ==>
                  c'.program == c.program[(c.position - 5) % PROGRAM_BYTES := byte])
  {
    hide PageBase, CardSize;
  }
}
