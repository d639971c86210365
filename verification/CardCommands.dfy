/**
 The card's other commands over the byte protocol: erasing a block, and the short commands that ask for
 its size, its status or its identity, clear the status or set the interrupt.

 Bytes on the bus are written out here, so the results do not lean on the names the model gives them.
 */
module CardCommands {
  import opened MemoryCard
  import opened FlashProgram
  import opened Bits

  /** A command with the bytes after it, from raising the chip select to dropping it. */
  ghost function Command(c: Card, bytes: seq<Byte>): (r: Card)
    requires Shaped(c)
    ensures Shaped(r)
  {
    SelectKeepsShape(c, true);
    var c1 := Send(Select(c, true), bytes).0;
    SelectKeepsShape(c1, false);
    Select(c1, false)
  }

  // ---------------------------------------------------------------- erasing

  /** Bytes after the block number do nothing to an erase. */
  lemma {:induction false} EraseTakesTwoBytes(c: Card, more: seq<Byte>)
    requires Shaped(c) && c.present && c.command == 0xF1 && c.position >= 3 && c.position + |more| < 0x1_0000_0000
    ensures Send(c, more).0 == c.(position := c.position + |more|)
    decreases |more|
  {
    hide Transfer, CardSize;
    if more != [] {
      var n := |more| - 1;
      EraseTakesTwoBytes(c, more[..n]);
      LateEraseByte(Send(c, more[..n]).0, more[n]);
    }
  }

  lemma {:induction false} LateEraseByte(c: Card, byte: Byte)
    requires Shaped(c) && c.present && c.command == 0xF1 && 3 <= c.position < 0xFFFF_FFFF
    ensures Transfer(c, byte).0 == c.(position := c.position + 1)
  {
    hide CardSize, Or, NextInPage, SizeByte;
  }

  lemma {:induction false} EarlyEraseByte(c: Card, byte: Byte)
    requires Shaped(c) && c.present && c.command == 0xF1 && 1 <= c.position <= 2
    ensures Transfer(c, byte).0
            == c.(position := c.position + 1,
                  address := if c.position == 1 then byte * 0x2_0000 else Or(c.address, byte * 0x200))
  {
    hide CardSize, Or, NextInPage, SizeByte;
  }

  lemma {:induction false} BlockBytesAdd(b1: nat, b2: nat)
    requires b2 < 256
    ensures Or(b1 * 0x2_0000, b2 * 0x200) == b1 * 0x2_0000 + b2 * 0x200
  {
    assert Pow2(9) == 512;
    assert Pow2(17) == 0x2_0000 by { assert Pow2(11) == 2048; }
    OrOfDisjointIsSum(b1, b2 * 0x200, 17);
  }

  /** An erase command with its two address bytes. */
  lemma {:induction false} EraseSetsAddress(c: Card, b1: Byte, b2: Byte)
    requires Shaped(c) && c.present
    ensures Shaped(Select(c, true))
    ensures Send(Select(c, true), [0xF1, b1, b2]).0
            == c.(position := 3, command := 0xF1, address := b1 * 0x2_0000 + b2 * 0x200, dmaWrite := false)
  {
    hide Or, Transfer, Send, CardSize;
    var c0 := Select(c, true);
    var all: seq<Byte> := [0xF1, b1, b2];
    assert all[..1] == [] + [0xF1] && all[..2] == all[..1] + [b1] && all == all[..2] + [b2];
    SendNothing(c0);
    var c1 := c0.(position := 1, command := 0xF1);
    SendOneMore(c0, [], 0xF1);
    CommandCode(c0, 0xF1);
    var c2 := c1.(position := 2, address := b1 * 0x2_0000);
    SendOneMore(c0, all[..1], b1);
    EarlyEraseByte(c1, b1);
    SendOneMore(c0, all[..2], b2);
    EarlyEraseByte(c2, b2);
    BlockBytesAdd(b1, b2);
  }

  /** The command bits of a status: bit 7, busy, is cleared, bits 6 and 0, unlocked and ready, are set. */
  ghost predicate Completed(before: Byte, after: Byte) {
    forall k :: 0 <= k < 8 ==> (Bit(after, k) <==> k != 7 && (k == 6 || k == 0 || Bit(before, k)))
  }

  lemma {:induction false} CompleteCompletes(c: Card)
    ensures Completed(c.status, Complete(c).status)
  {
    var idle := ClearBit(c.status, 7);
    forall k | 0 <= k < 8 ensures Bit(Complete(c).status, k) <==> k != 7 && (k == 6 || k == 0 || Bit(c.status, k)) {
      ClearBitClearsOne(c.status, 7, k);
      SetBitSetsOne(idle, 6, k);
      SetBitSetsOne(SetBit(idle, 6), 0, k);
    }
  }

  /** The block of the card that the two address bytes name is wiped. */
  lemma {:induction false} DropErases(c: Card, i: nat)
    requires Shaped(c) && c.present && c.command == 0xF1 && c.position >= 3 && i < |c.data|
    ensures var c' := Select(c, false);
            && |c'.data| == |c.data| && c'.interruptPending && Completed(c.status, c'.status)
            && c'.data[i] == if i / 0x2000 == c.address % |c.data| / 0x2000 then 0xFF else c.data[i]
  {
    hide Completed, CompletedStatus;
    CompleteCompletes(c);
    var start := BlockStart(c.address, |c.data|);
    assert start <= i < start + 0x2000 <==> i / 0x2000 == c.address % |c.data| / 0x2000;
  }

  /**
   Erasing over the bus. The code and two address bytes, with any bytes after them, turn the one 8 KiB block
   that the bytes name, modulo the size of the card, into 0xFF bytes, leave every other byte alone, and end
   with the interrupt raised. With fewer bytes nothing is erased.
   */
  lemma {:induction false} EraseWipesOneBlock(c: Card, b1: Byte, b2: Byte, more: seq<Byte>)
    requires Shaped(c) && c.present && |more| + 3 < 0x1_0000_0000
    ensures var c' := Command(c, [0xF1, b1, b2] + more);
            && |c'.data| == |c.data| && c'.interruptPending && Completed(c.status, c'.status)
            && forall i :: 0 <= i < |c.data| ==>
                 c'.data[i] == if i / 0x2000 == (b1 * 0x2_0000 + b2 * 0x200) % |c.data| / 0x2000 then 0xFF
                               else c.data[i]
  {
    hide Select, Send, CardSize, Completed;
    SelectKeepsShape(c, true);
    EraseSetsAddress(c, b1, b2);
    var c1 := Send(Select(c, true), [0xF1, b1, b2]).0;
    EraseTakesTwoBytes(c1, more);
    SendTwice(Select(c, true), [0xF1, b1, b2], more);
    CardIsNotEmpty(c);
    DropErases(c1.(position := c1.position + |more|), 0);
    forall i: nat | i < |c.data|
      ensures Command(c, [0xF1, b1, b2] + more).data[i]
              == if i / 0x2000 == (b1 * 0x2_0000 + b2 * 0x200) % |c.data| / 0x2000 then 0xFF else c.data[i]
    {
      DropErases(c1.(position := c1.position + |more|), i);
    }
  }

  lemma {:induction false} CardIsNotEmpty(c: Card)
    requires Shaped(c)
    ensures |c.data| > 0
  {
  }

  lemma {:induction false} SendTwice(c: Card, a: seq<Byte>, b: seq<Byte>)
    requires Shaped(c)
    ensures Send(c, a + b).0 == Send(Send(c, a).0, b).0
    ensures Send(c, a + b).1 == Send(c, a).1 + Send(Send(c, a).0, b).1
    decreases |b|
  {
    hide Transfer;
    if b == [] {
      assert a + b == a;
    } else {
      var n := |b| - 1;
      assert (a + b)[..|a| + n] == a + b[..n];
      SendTwice(c, a, b[..n]);
    }
  }

  lemma {:induction false} ShortEraseIsHarmless(c: Card, b1: Byte)
    requires Shaped(c) && c.present
    ensures var c' := Command(c, [0xF1, b1]);
            && c'.data == c.data && c'.file == c.file && c'.interruptPending == c.interruptPending
  {
    hide Or, Transfer, CardSize, Send;
    SelectKeepsShape(c, true);
    var c0 := Select(c, true);
    var all: seq<Byte> := [0xF1, b1];
    assert all[..1] == [] + [0xF1] && all == all[..1] + [b1];
    SendNothing(c0);
    SendOneMore(c0, [], 0xF1);
    CommandCode(c0, 0xF1);
    SendOneMore(c0, all[..1], b1);
    EarlyEraseByte(c0.(position := 1, command := 0xF1), b1);
  }

  // ---------------------------------------------------------------- the short commands

  /** The reply to byte k of a command that changes nothing but the position. */
  lemma {:induction false} Asked(c: Card, code: Byte, k: nat, byte: Byte)
    requires Shaped(c) && c.present && code in {0x00, 0x83, 0x85} && c.command == code
    requires c.position == k && 1 <= k < 0xFFFF_FFFF
    ensures Transfer(c, byte).0 == c.(position := k + 1)
    ensures code == 0x83 ==> Transfer(c, byte).1 == c.status
    ensures code == 0x85 ==> Transfer(c, byte).1 == if k == 1 || k % 2 == 0 then 0xC2 else 0x21
    ensures code == 0x00 && k == 1 ==> Transfer(c, byte).1 == 0x80
    ensures code == 0x00 && k >= 2 ==> Transfer(c, byte).1 == if k % 4 == 1 then |c.data| / 0x2_0000 else 0
  {
    hide Or, NextInPage, Addressed;
  }

  /**
   Asked for its size, status or identity, the card answers byte by byte and changes nothing: its size is a
   big-endian word of megabits, 4 to 128, repeated after the byte 0x80.
   */
  lemma {:induction false} CardAnswers(c: Card, code: Byte, bytes: seq<Byte>)
    requires Shaped(c) && c.present && code in {0x00, 0x83, 0x85} && |bytes| < 0xFFFF_FFFE
    ensures Shaped(Select(c, true))
    ensures var (c', replies) := Send(Select(c, true), [code] + bytes);
            && c' == c.(position := 1 + |bytes|, command := code, dmaWrite := false)
            && replies[0] == 0xFF
            && (forall k :: 1 <= k <= |bytes| && code == 0x83 ==> replies[k] == c.status)
            && (forall k :: 1 <= k <= |bytes| && code == 0x85 ==>
                  replies[k] == if k == 1 || k % 2 == 0 then 0xC2 else 0x21)
            && (code == 0x00 && |bytes| >= 1 ==> replies[1] == 0x80)
            && (forall k :: 2 <= k <= |bytes| && code == 0x00 ==>
                  replies[k] == if k % 4 == 1 then |c.data| / 0x2_0000 else 0)
    decreases |bytes|
  {
    hide Transfer, Send;
    SelectKeepsShape(c, true);
    var c0 := Select(c, true);
    if bytes == [] {
      assert [code] + bytes == [] + [code] == [code];
      SendNothing(c0);
      SendOneMore(c0, [], code);
      CommandCode(c0, code);
      FirstReply(c0, code);
    } else {
      var n := |bytes| - 1;
      CardAnswers(c, code, bytes[..n]);
      assert [code] + bytes == ([code] + bytes[..n]) + [bytes[n]];
      var before := Send(c0, [code] + bytes[..n]);
      SendOneMore(c0, [code] + bytes[..n], bytes[n]);
      RepliesGrow(c0, [code] + bytes[..n], bytes[n]);
      Asked(before.0, code, n + 1, bytes[n]);
    }
  }

  lemma {:induction false} FirstReply(c: Card, code: Byte)
    requires Shaped(c) && c.present && c.position == 0
    ensures Send(c, [code]).1 == [0xFF]
  {
    hide Addressed, SizeByte;
    assert [code][..0] == [];
  }

  lemma {:induction false} RepliesGrow(c: Card, bytes: seq<Byte>, byte: Byte)
    requires Shaped(c)
    ensures Send(c, bytes + [byte]).1 == Send(c, bytes).1 + [Transfer(Send(c, bytes).0, byte).1]
  {
    hide Transfer;
    assert (bytes + [byte])[..|bytes|] == bytes;
  }

  /** Clearing the status makes the card ready and unlocked and takes its interrupt back. */
  lemma {:induction false} ClearStatusIsHeard(c: Card)
    requires Shaped(c) && c.present
    ensures Command(c, [0x89]) == c.(position := 1, command := 0x89, status := 0x41, interruptPending := false,
                                     dmaWrite := false)
  {
    hide Transfer;
    SelectKeepsShape(c, true);
    assert [0x89] == [] + [0x89];
    SendNothing(Select(c, true));
    SendOneMore(Select(c, true), [], 0x89);
    ClearStatusCode(Select(c, true));
  }

  lemma {:induction false} ClearStatusCode(c: Card)
    requires Shaped(c) && c.present && c.position == 0
    ensures Transfer(c, 0x89).0 == c.(position := 1, command := 0x89, status := 0x41, interruptPending := false)
  {
    hide Addressed, SizeByte;
  }

  /** The interrupt is enabled exactly by a byte other than zero. */
  lemma {:induction false} SetInterruptIsHeard(c: Card, byte: Byte)
    requires Shaped(c) && c.present
    ensures Command(c, [0x81, byte]) == c.(position := 2, command := 0x81, interruptEnabled := byte != 0,
                                           dmaWrite := false)
  {
    hide Transfer;
    SelectKeepsShape(c, true);
    var c0 := Select(c, true);
    var all: seq<Byte> := [0x81, byte];
    assert all[..1] == [] + [0x81] && all == all[..1] + [byte];
    SendNothing(c0);
    SendOneMore(c0, [], 0x81);
    CommandCode(c0, 0x81);
    SendOneMore(c0, all[..1], byte);
    SetInterruptByte(c0.(position := 1, command := 0x81), byte);
  }

  lemma {:induction false} SetInterruptByte(c: Card, byte: Byte)
    requires Shaped(c) && c.present && c.position == 1 && c.command == 0x81
    ensures Transfer(c, byte).0 == c.(position := 2, interruptEnabled := byte != 0)
  {
    hide Addressed, SizeByte;
  }
}
