/**
 Programming flash over the byte protocol and reading it back.

 A command is its code, four address bytes, some padding for a read, and then the data bytes, which
 wrap round inside the 512-byte page of the address. The results here are about the replies on the
 bus and the stored image, for every address and every length of one program buffer.
 */
module FlashProgram {
  import opened MemoryCard
  import opened Bits

  /** The bytes of one command, in order, and the replies they drew. */
  ghost function Send(c: Card, bytes: seq<Byte>): (r: (Card, seq<Byte>))
    requires Shaped(c)
    ensures Shaped(r.0) && |r.1| == |bytes|
    decreases |bytes|
  {
    if bytes == [] then (c, [])
    else
      var (before, replies) := Send(c, bytes[..|bytes| - 1]);
      TransferKeepsShape(before, bytes[|bytes| - 1]);
      var (after, reply) := Transfer(before, bytes[|bytes| - 1]);
      (after, replies + [reply])
  }

  lemma {:induction false} TransferKeepsShape(c: Card, byte: Byte)
    requires Shaped(c)
    ensures Shaped(Transfer(c, byte).0)
  {
    hide Transfer, CardSize;
    TransferMovesOn(c, byte);
  }

  /** The flash address four command bytes spell. */
  function AddressOf(b: seq<Byte>): nat
    requires |b| == 4
  {
    Spelled(b[0], b[1], b[2], b[3])
  }

  function Spelled(b1: nat, b2: nat, b3: nat, b4: nat): nat {
    b1 * 0x2_0000 + b2 * 0x200 + b3 % 4 * 0x80 + b4 % 128
  }

  /** The address k bytes on, staying in the page. */
  function At(address: nat, k: nat): nat {
    address / 512 * 512 + (address % 512 + k) % 512
  }

  lemma {:induction false} NextAfterAt(address: nat, k: nat)
    ensures NextInPage(At(address, k)) == At(address, k + 1) && PageBase(At(address, k)) == PageBase(address)
    ensures At(address, 0) == address
  {
    var q, x := address / 512, address % 512 + k;
    PageBaseIsAMultiple(address);
    PageBaseOf(q, x % 512);
    NextOnPage(q, x % 512);
    OneOn(x);
    hide PageBase, NextInPage;
  }

  lemma {:induction false} NextOnPage(page: nat, w: nat)
    requires w < 512
    ensures NextInPage(512 * page + w) == 512 * page + (w + 1) % 512
  {
    hide NextInPage;
    PageBaseOf(page, w);
  }

  lemma {:induction false} OneOn(x: nat)
    ensures (x % 512 + 1) % 512 == (x + 1) % 512
  {
  }

  /** Where on the card the k-th byte from an address lies. */
  function Place(address: nat, k: nat, size: nat): (i: nat)
    requires CardSize(size)
    ensures i < size
  {
    At(address, k) % size
  }

  /** Bytes fall on one place of the page only a whole number of pages apart, hence of buffers. */
  lemma {:induction false} AtsMeet(address: nat, j: nat, k: nat)
    requires At(address, j) == At(address, k)
    ensures j % 128 == k % 128
  {
    var w := address % 512;
    assert (w + j) % 512 == (w + k) % 512;
    InTheBuffer(w + j);
    InTheBuffer(w + k);
    assert (w + j) % 128 == (w + k) % 128;
    hide At;
    Cancels(w, j, k);
  }

  lemma {:induction false} InTheBuffer(x: nat)
    ensures x % 512 % 128 == x % 128
  {
  }

  lemma {:induction false} Cancels(w: nat, j: nat, k: nat)
    requires (w + j) % 128 == (w + k) % 128
    ensures j % 128 == k % 128
  {
  }

  lemma {:induction false} PlacesMeet(address: nat, j: nat, k: nat, size: nat)
    requires CardSize(size) && Place(address, j, size) == Place(address, k, size)
    ensures j % 128 == k % 128
  {
    hide PageBase, At, CardSize;
    SamePlaceInPage(address, j, k, size);
    AtsMeet(address, j, k);
  }

  lemma {:induction false} SamePlaceInPage(address: nat, j: nat, k: nat, size: nat)
    requires CardSize(size) && Place(address, j, size) == Place(address, k, size)
    ensures At(address, j) == At(address, k)
  {
    hide PageBase, At, CardSize;
    NextAfterAt(address, j);
    NextAfterAt(address, k);
    MaskingKeepsThePage(At(address, j), size);
    MaskingKeepsThePage(At(address, k), size);
  }

  /** The |= steps of the address bytes never meet, so they add up. */
  lemma {:induction false} AddressBytesAdd(b1: nat, b2: nat, b3: nat, b4: nat)
    requires b2 < 256
    ensures Or(Or(Or(b1 * 0x2_0000, b2 * 0x200), b3 % 4 * 0x80), b4 % 128) == Spelled(b1, b2, b3, b4)
  {
    assert Pow2(7) == 128 && Pow2(9) == 512;
    assert Pow2(17) == 0x2_0000 by { assert Pow2(11) == 2048; }
    OrOfDisjointIsSum(b1, b2 * 0x200, 17);
    OrOfDisjointIsSum(b1 * 256 + b2, b3 % 4 * 0x80, 9);
    OrOfDisjointIsSum((b1 * 256 + b2) * 4 + b3 % 4, b4 % 128, 7);
  }

  /** Selecting the card and sending a command with its address. */
  lemma {:induction false} CommandSetsAddress(c: Card, command: Byte, b: seq<Byte>)
    requires Shaped(c) && c.present && command in {READ, PROGRAM} && |b| == 4
    ensures Shaped(Select(c, true))
    ensures Send(Select(c, true), [command] + b).0
            == c.(position := 5, command := command, address := AddressOf(b), dmaWrite := false)
  {
    hide Or, Spelled, Transfer, Send, CardSize;
    var b1: nat, b2: nat, b3: nat, b4: nat := b[0], b[1], b[2], b[3];
    var c0 := Select(c, true);
    var all := [command] + b;
    assert all[..1] == [] + [command] && all[..2] == all[..1] + [b[0]] && all[..3] == all[..2] + [b[1]];
    assert all[..4] == all[..3] + [b[2]] && all == all[..4] + [b[3]];
    SendNothing(c0);
    var c1 := c0.(position := 1, command := command);
    SendOneMore(c0, [], command);
    CommandCode(c0, command);
    var c2 := c1.(position := 2, address := b1 * 0x2_0000);
    SendOneMore(c0, all[..1], b[0]);
    AddressByteMoves(c1, b[0]);
    var c3 := c2.(position := 3, address := Or(c2.address, b2 * 0x200));
    SendOneMore(c0, all[..2], b[1]);
    AddressByteMoves(c2, b[1]);
    var c4 := c3.(position := 4, address := Or(c3.address, b3 % 4 * 0x80));
    SendOneMore(c0, all[..3], b[2]);
    AddressByteMoves(c3, b[2]);
    SendOneMore(c0, all[..4], b[3]);
    AddressByteMoves(c4, b[3]);
    AddressBytesAdd(b1, b2, b3, b4);
  }

  lemma {:induction false} SendNothing(c: Card)
    requires Shaped(c)
    ensures Send(c, []).0 == c
  {
  }

  lemma {:induction false} SendOneMore(c: Card, bytes: seq<Byte>, byte: Byte)
    requires Shaped(c)
    ensures Send(c, bytes + [byte]).0 == Transfer(Send(c, bytes).0, byte).0
  {
    hide Transfer;
    assert (bytes + [byte])[..|bytes|] == bytes;
  }

  lemma {:induction false} CommandCode(c: Card, command: Byte)
    requires Shaped(c) && c.present && c.position == 0 && command != CLEAR_STATUS
    ensures Transfer(c, command).0 == c.(position := 1, command := command)
  {
  }

  lemma {:induction false} AddressByteMoves(c: Card, byte: Byte)
    requires Shaped(c) && c.present && c.command in {READ, PROGRAM} && 1 <= c.position <= 4
    ensures Transfer(c, byte).0
        == c.(position := c.position + 1, address := AddressAfter(c.command, c.address, c.position, byte))
  {
    hide AddressAfter, CardSize;
  }

  lemma {:induction false} OnePayloadByte(c: Card, byte: Byte)
    requires Shaped(c) && c.present && c.command == PROGRAM && 5 <= c.position < COUNTERS - 1
    ensures Transfer(c, byte).0
            == c.(position := c.position + 1, program := c.program[(c.position - 5) % 128 := byte])
  {
    hide NextInPage, SizeByte;
  }

  /** Byte k of n is the last of them for its place in the 128-byte buffer. */
  predicate Last(k: nat, n: nat) { k < n <= k + 128 }

  /** The payload of a program command lands in the buffer, the last 128 bytes of it for good. */
  lemma {:induction false} PayloadFillsBuffer(c: Card, payload: seq<Byte>)
    requires Shaped(c) && c.present && c.command == PROGRAM && c.position == 5 && 5 + |payload| < COUNTERS
    ensures var c' := Send(c, payload).0;
            && c' == c.(position := 5 + |payload|, program := c'.program) && |c'.program| == 128
            && forall k :: 0 <= k < |payload| && Last(k, |payload|) ==> c'.program[k % 128] == payload[k]
    decreases |payload|
  {
    hide Transfer, CardSize;
    if payload != [] {
      var n := |payload| - 1;
      var before := Send(c, payload[..n]).0;
      PayloadFillsBuffer(c, payload[..n]);
      OnePayloadByte(before, payload[n]);
      BufferGrows(before.program, payload, n);
    }
  }

  lemma {:induction false} BufferGrows(program: seq<Byte>, payload: seq<Byte>, n: nat)
    requires |program| == 128 && |payload| == n + 1
    requires forall k :: 0 <= k < n && Last(k, n) ==> program[k % 128] == payload[k]
    ensures forall k :: 0 <= k < n + 1 && Last(k, n + 1) ==> program[n % 128 := payload[n]][k % 128] == payload[k]
  {
    forall k | 0 <= k < n + 1 && Last(k, n + 1) ensures program[n % 128 := payload[n]][k % 128] == payload[k] {
      if k < n {
        assert Last(k, n);
        LessThanABuffer(k, n);
      }
    }
  }

  lemma {:induction false} LessThanABuffer(k: nat, n: nat)
    requires k < n < k + 128
    ensures k % 128 != n % 128
  {
  }

  /** d is data with n bytes from an address on written out of the buffer, and nothing else changed. */
  ghost predicate Written(data: seq<Byte>, address: nat, program: seq<Byte>, n: nat, d: seq<Byte>) {
    && CardSize(|data|) && |d| == |data| && |program| == 128
    && (forall k: nat :: k < n ==> d[Place(address, k, |data|)] == program[k % 128])
    && (forall i :: 0 <= i < |data| && (forall k: nat :: k < n ==> Place(address, k, |data|) != i) ==>
          d[i] == data[i])
  }

  lemma {:induction false} WriteOneMore(data: seq<Byte>, address: nat, program: seq<Byte>, n: nat, d: seq<Byte>)
    requires Written(data, address, program, n, d)
    ensures Written(data, address, program, n + 1, d[Place(address, n, |data|) := program[n % 128]])
  {
    hide Place;
    var p := Place(address, n, |data|);
    var e := d[p := program[n % 128]];
    forall k: nat | k < n + 1 ensures e[Place(address, k, |data|)] == program[k % 128] {
      if Place(address, k, |data|) == p {
        PlacesMeet(address, k, n, |data|);
      }
    }
    forall i | 0 <= i < |data| && (forall k: nat :: k < n + 1 ==> Place(address, k, |data|) != i)
      ensures e[i] == data[i]
    {
      assert i != p;
    }
  }

  lemma {:induction false} ProgramOneMore(data: seq<Byte>, address: nat, program: seq<Byte>, n: nat)
    requires CardSize(|data|) && |program| == PROGRAM_BYTES
    requires ProgramBytes(data, address, program, n).1 == At(address, n)
    ensures ProgramBytes(data, address, program, n + 1)
            == (ProgramBytes(data, address, program, n).0[Place(address, n, |data|) := program[n % 128]],
                At(address, n + 1))
  {
    hide At, NextInPage;
    NextAfterAt(address, n);
  }

  /** What the program loop writes: the buffer round and round at consecutive places, nothing elsewhere. */
  lemma {:induction false} ProgramWrites(data: seq<Byte>, address: nat, program: seq<Byte>, n: nat)
    requires CardSize(|data|) && |program| == PROGRAM_BYTES
    ensures ProgramBytes(data, address, program, n).1 == At(address, n)
    ensures Written(data, address, program, n, ProgramBytes(data, address, program, n).0)
    decreases n
  {
    if n == 0 {
      NextAfterAt(address, 0);
    } else {
      hide *;
      ProgramWrites(data, address, program, n - 1);
      ProgramOneMore(data, address, program, n - 1);
      WriteOneMore(data, address, program, n - 1, ProgramBytes(data, address, program, n - 1).0);
    }
  }

  /** A whole program command over the bus. */
  ghost function Program(c: Card, b: seq<Byte>, payload: seq<Byte>): (r: Card)
    requires Shaped(c) && |b| == 4
    ensures Shaped(r)
  {
    SelectKeepsShape(c, true);
    var c1 := Send(Select(c, true), [0xF2] + b).0;
    var c2 := Send(c1, payload).0;
    SelectKeepsShape(c2, false);
    Select(c2, false)
  }

  /** A whole read command over the bus: four idle bytes, then one reply per byte read. */
  ghost function Read(c: Card, b: seq<Byte>, n: nat): (r: (Card, seq<Byte>))
    requires Shaped(c) && |b| == 4
    ensures Shaped(r.0) && |r.1| == n
  {
    SelectKeepsShape(c, true);
    var c1 := Send(Select(c, true), [0x52] + b).0;
    var c2 := Send(c1, [0, 0, 0, 0]).0;
    Send(c2, Repeat(0, n))
  }

  lemma {:induction false} SelectKeepsShape(c: Card, selected: bool)
    requires Shaped(c)
    ensures Shaped(Select(c, selected))
  {
    hide PageStart, BlockStart, Persist, ProgramBytes, Repeat, Overwrite;
    if !selected && c.present {
      if c.command == ERASE && c.position > 2 {
        var start := BlockStart(c.address, |c.data|);
        var c1 := c.(data := Overwrite(c.data, start, Repeat(0xFF, BLOCK_SIZE)));
        PersistKeepsShape(c1, start, BLOCK_SIZE);
      } else if c.command == PROGRAM && c.position >= 5 && !c.dmaWrite {
        var (data, address) := ProgramBytes(c.data, c.address, c.program, c.position - 5);
        PersistKeepsShape(c.(data := data, address := address), PageStart(address, |data|), PAGE_SIZE);
      }
    }
  }

  lemma {:induction false} PersistKeepsShape(c: Card, offset: nat, length: nat)
    requires Shaped(c) && offset + length <= |c.data|
    ensures Shaped(Persist(c, offset, length))
  {
  }

  lemma {:induction false} OneRead(c: Card)
    requires Shaped(c) && c.present && c.command == READ && 9 <= c.position < COUNTERS - 1
    ensures Transfer(c, 0) == (c.(position := c.position + 1, address := NextInPage(c.address)),
                               c.data[c.address % |c.data|])
  {
    hide NextInPage, SizeByte;
  }

  lemma {:induction false} ReadsFollowTheAddress(c: Card, n: nat, address: nat)
    requires Shaped(c) && c.present && c.command == READ && c.position == 9 && c.address == address && 9 + n < COUNTERS
    ensures var (c', replies) := Send(c, Repeat(0, n));
            && c' == c.(position := 9 + n, address := At(address, n))
            && forall k :: 0 <= k < n ==> replies[k] == c.data[Place(address, k, |c.data|)]
    decreases n
  {
    hide At, NextInPage, Transfer, Shaped;
    NextAfterAt(address, n);
    if n > 0 {
      ReadsFollowTheAddress(c, n - 1, address);
      OneRead(Send(c, Repeat(0, n - 1)).0);
      NextAfterAt(address, n - 1);
      assert Repeat(0, n)[..n - 1] == Repeat(0, n - 1);
    }
  }

  lemma {:induction false} IdleBytesOnlyAdvance(c: Card)
    requires Shaped(c) && c.present && c.command == READ && c.position == 5
    ensures Send(c, [0, 0, 0, 0]).0 == c.(position := 9)
  {
    hide NextInPage, SizeByte;
    var all: seq<Byte> := [0, 0, 0, 0];
    assert all[..4] == all && all[..4][..3] == all[..3] && all[..3][..2] == all[..2] && all[..2][..1] == all[..1];
    assert all[..1][..0] == [];
    assert Send(c, all[..1]).0 == c.(position := 6);
    assert Send(c, all[..2]).0 == c.(position := 7);
    assert Send(c, all[..3]).0 == c.(position := 8);
  }

  // ---------------------------------------------------------------- main results

  /**
   d is data with a payload programmed from an address on: at the k-th place lies the last payload byte for
   the same place of the 128-byte buffer, byte k itself unless the payload is longer, and nothing else changed.
   */
  ghost predicate Landed(data: seq<Byte>, address: nat, payload: seq<Byte>, d: seq<Byte>) {
    && CardSize(|data|) && |d| == |data|
    && (forall k: nat, j: nat :: k < |payload| && Last(j, |payload|) && j % 128 == k % 128 ==>
          d[Place(address, k, |data|)] == payload[j])
    && (forall i :: 0 <= i < |data| && (forall k: nat :: k < |payload| ==> Place(address, k, |data|) != i) ==>
          d[i] == data[i])
  }

  lemma {:induction false} WrittenIsLanded(data: seq<Byte>, address: nat, program: seq<Byte>, payload: seq<Byte>,
                                           d: seq<Byte>)
    requires Written(data, address, program, |payload|, d)
    requires forall k :: 0 <= k < |payload| && Last(k, |payload|) ==> program[k % 128] == payload[k]
    ensures Landed(data, address, payload, d)
  {
    hide Place;
  }

  /**
   A program command writes its payload from the address on, wrapping in the page, and nothing else. Of a
   payload longer than the buffer the last 128 bytes count.
   */
  lemma {:induction false} ProgramWritesPayload(c: Card, b: seq<Byte>, payload: seq<Byte>)
    requires Shaped(c) && c.present && |b| == 4 && 5 + |payload| < COUNTERS
    ensures var c' := Program(c, b, payload);
            && c'.present && |c'.data| == |c.data| && c'.interruptPending
            && Landed(c.data, AddressOf(b), payload, c'.data)
  {
    hide Place, At, AddressOf, Send, ProgramBytes, PageStart, Last;
    SelectKeepsShape(c, true);
    CommandSetsAddress(c, PROGRAM, b);
    var c1 := Send(Select(c, true), [PROGRAM] + b).0;
    PayloadFillsBuffer(c1, payload);
    var c2 := Send(c1, payload).0;
    ProgramWrites(c.data, AddressOf(b), c2.program, |payload|);
    assert c2.data == c.data && c2.address == AddressOf(b);
    WrittenIsLanded(c.data, AddressOf(b), c2.program, payload, ProgramBytes(c2.data, c2.address, c2.program,
                                                                            |payload|).0);
  }

  /** A read command replies with the bytes from the address on, wrapping in the page, and changes no byte. */
  lemma {:induction false} ReadReturnsBytes(c: Card, b: seq<Byte>, n: nat)
    requires Shaped(c) && c.present && |b| == 4 && 9 + n < COUNTERS
    ensures var (c', replies) := Read(c, b, n);
            && c'.data == c.data && c'.file == c.file
            && forall k :: 0 <= k < n ==> replies[k] == c.data[Place(AddressOf(b), k, |c.data|)]
  {
    hide At, AddressOf, Send, NextInPage;
    SelectKeepsShape(c, true);
    CommandSetsAddress(c, READ, b);
    var c1 := Send(Select(c, true), [READ] + b).0;
    IdleBytesOnlyAdvance(c1);
    ReadsFollowTheAddress(c1.(position := 9), n, AddressOf(b));
  }

  /** Reading at the address just programmed returns a payload of at most one buffer. */
  lemma {:induction false} ProgramThenRead(c: Card, b: seq<Byte>, payload: seq<Byte>)
    requires Shaped(c) && c.present && |b| == 4 && |payload| <= 128
    ensures Read(Program(c, b, payload), b, |payload|).1 == payload
  {
    hide At, AddressOf, Program, Read;
    ProgramWritesPayload(c, b, payload);
    ReadReturnsBytes(Program(c, b, payload), b, |payload|);
    assert forall k :: 0 <= k < |payload| ==> Last(k, |payload|);
  }
}
