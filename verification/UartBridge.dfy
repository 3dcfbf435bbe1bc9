/** The receive path of the SPI to UART bridge: bytes leave the FIFO of the chip in bursts for a software ring buffer,
    from which the consumer takes them. */
module UartBridge {
  import opened Words
  import opened RingBuffer
  import opened SevenBits
  import Baud

  const XFER_MAX_SIZE := 512
  const RX_FIFO_SIZE := 2048

  datatype Line = Line(sevenBits: bool, parity: Parity)

  /** What one byte of the line becomes in the ring buffer. */
  function Stored(line: Line, b: u8): u8 {
    if line.sevenBits then b % 0x80 else b
  }

  function StoredAll(line: Line, s: seq<u8>): (r: seq<u8>)
    ensures |r| == |s|
  {
    seq(|s|, i requires 0 <= i < |s| => Stored(line, s[i]))
  }

  predicate WrongParity(line: Line, b: u8) {
    line.sevenBits && ParityError(line.parity, b as bv8)
  }

  lemma NextStored(line: Line, s: seq<u8>, i: nat)
    requires i < |s|
    ensures StoredAll(line, s[..i + 1]) == StoredAll(line, s[..i]) + [Stored(line, s[i])]
    ensures ParityErrors(line, s[..i + 1])
         == ParityErrors(line, s[..i]) + if WrongParity(line, s[i]) then 1 else 0
  {
    assert s[..i + 1] == s[..i] + [s[i]];
    assert s[..i + 1][..i] == s[..i];
    StoredAllAppend(line, s[..i], [s[i]]);
  }

  lemma StoredAllAppend(line: Line, a: seq<u8>, b: seq<u8>)
    ensures StoredAll(line, a + b) == StoredAll(line, a) + StoredAll(line, b)
  {
    assert |StoredAll(line, a + b)| == |a| + |b|;
  }

  function ParityErrors(line: Line, s: seq<u8>): nat {
    if s == [] then 0
    else (if WrongParity(line, s[|s| - 1]) then 1 else 0) + ParityErrors(line, s[..|s| - 1])
  }

  lemma {:induction false} ParityErrorsAppend(line: Line, a: seq<u8>, b: seq<u8>)
    ensures ParityErrors(line, a + b) == ParityErrors(line, a) + ParityErrors(line, b)
  {
    if b == [] {
      assert a + b == a;
    } else {
      ParityErrorsAppend(line, a, b[..|b| - 1]);
      assert (a + b)[..|a + b| - 1] == a + b[..|b| - 1];
    }
  }

  lemma {:induction false} EightBitsUnchanged(line: Line, s: seq<u8>)
    requires !line.sevenBits
    ensures StoredAll(line, s) == s && ParityErrors(line, s) == 0
  {
    if s != [] {
      EightBitsUnchanged(line, s[..|s| - 1]);
    }
  }

  /** Nothing is lost, repeated or reordered between the line and the consumer: `sent` left the chip or is in its FIFO,
      `kept` reached the consumer or is in the ring. */
  predicate Balanced(line: Line, accepted: seq<u8>, sent: seq<u8>, kept: seq<u8>, moved: seq<u8>) {
    sent == accepted && kept == StoredAll(line, moved)
  }

  /** `n` bytes went from the FIFO of the chip to the ring buffer. */
  predicate MovedBy(line: Line, n: nat, fifo: seq<u8>, kept: seq<u8>, fifoAfter: seq<u8>, keptAfter: seq<u8>) {
    n <= |fifo| && fifoAfter == fifo[n..] && keptAfter == kept + StoredAll(line, fifo[..n])
  }

  lemma MovedNothing(line: Line, fifo: seq<u8>, kept: seq<u8>)
    ensures MovedBy(line, 0, fifo, kept, fifo, kept)
  {
  }

  lemma MovedTwice(line: Line, n: nat, m: nat, f0: seq<u8>, k0: seq<u8>, f1: seq<u8>, k1: seq<u8>,
                   f2: seq<u8>, k2: seq<u8>)
    requires MovedBy(line, n, f0, k0, f1, k1) && MovedBy(line, m, f1, k1, f2, k2)
    ensures MovedBy(line, n + m, f0, k0, f2, k2)
  {
    assert f0[..n] + f1[..m] == f0[..n + m];
    StoredAllAppend(line, f0[..n], f1[..m]);
  }

  lemma MovingKeepsBalance(line: Line, accepted: seq<u8>, delivered: seq<u8>, moved: seq<u8>, n: nat,
                           f0: seq<u8>, k0: seq<u8>, f1: seq<u8>, k1: seq<u8>)
    requires Balanced(line, accepted, moved + f0, delivered + k0, moved)
    requires MovedBy(line, n, f0, k0, f1, k1)
    ensures Balanced(line, accepted, (moved + f0[..n]) + f1, delivered + k1, moved + f0[..n])
  {
    assert (moved + f0[..n]) + f1 == moved + f0;
    StoredAllAppend(line, moved, f0[..n]);
    assert delivered + k1 == (delivered + k0) + StoredAll(line, f0[..n]);
  }

  lemma CountTwice(start: u32, a: nat, b: nat)
    ensures Counter(Counter(start, a), b) == Counter(start, a + b)
  {
  }

  function Counter(start: u32, added: nat): u32 {
    (start + added) % TWO32
  }

  /** The ghost fields hold the bytes since the last change of the baud rate: those the FIFO of the chip accepted from
      the line, those moved to the ring buffer since, and those the consumer got. */
  class Channel {
    const line: Line
    const clock: u32
    var fifo: seq<u8>
    var ring: RxRing
    var parityErrors: u32
    var baudRate: u32

    ghost var accepted: seq<u8>
    ghost var moved: seq<u8>
    ghost var delivered: seq<u8>
    ghost var errorsBefore: u32

    ghost predicate Conserved()
      requires ring.Valid()
      reads this, ring, ring.buf
    {
      && Balanced(line, accepted, moved + fifo, delivered + ring.Contents(), moved)
      && parityErrors == Counter(errorsBefore, ParityErrors(line, moved))
    }

    ghost predicate Valid()
      reads this, ring, ring.buf
    {
      && ring.Valid() && Baud.SupportedClock(clock)
      && |fifo| <= RX_FIFO_SIZE
      && Conserved()
    }

    /** `crystal` is the frequency of the crystal in Hz, 0 for the internal clock. */
    constructor (line: Line, crystal: u32, bufferSize: nat, baudRate: u32)
      requires bufferSize > 0 && Baud.SupportedCrystal(crystal)
      ensures Valid() && fresh(ring) && fresh(ring.buf)
      ensures fifo == [] && ring.Contents() == [] && parityErrors == 0
      ensures this.line == line && clock == Baud.UartClock(crystal) && ring.buf.Length == bufferSize
    {
      this.line := line;
      clock := Baud.UartClock(crystal);
      this.baudRate := baudRate;
      fifo, parityErrors := [], 0;
      accepted, moved, delivered, errorsBefore := [], [], [], 0;
      ring := new RxRing(bufferSize);
    }

    /** The line delivers a byte to the chip, which drops it when its FIFO is full. */
    method Receive(b: u8)
      requires Valid()
      modifies `fifo, `accepted
      ensures Valid()
      ensures if |old(fifo)| < RX_FIFO_SIZE
              then fifo == old(fifo) + [b] && accepted == old(accepted) + [b]
              else fifo == old(fifo) && accepted == old(accepted)
    {
      if |fifo| < RX_FIFO_SIZE {
        assert moved + (fifo + [b]) == (moved + fifo) + [b];
        fifo := fifo + [b];
        accepted := accepted + [b];
      }
    }

    /** Reads `n` bytes of the chip FIFO straight into the ring buffer, from its head on. */
    method ReadBurst(n: nat)
      requires ring.Valid() && n <= |fifo| && ring.head + n <= ring.buf.Length
      modifies `fifo, ring.buf
      ensures fifo == old(fifo)[n..]
      ensures Overwritten(old(ring.buf[..]), ring.buf[..], ring.head, old(fifo)[..n])
    {
      ghost var before := ring.buf[..];
      for i := 0 to n
        invariant Overwritten(before, ring.buf[..], ring.head, fifo[..i])
        modifies ring.buf
      {
        ring.buf[ring.head + i] := fifo[i];
      }
      fifo := fifo[n..];
    }

    /** Drops the eighth bit of `n` bytes of the ring buffer, in place, and counts the wrong parities. */
    method Decode7Bits(at: nat, n: nat)
      requires line.sevenBits && at + n <= ring.buf.Length
      modifies `parityErrors, ring.buf
      ensures Overwritten(old(ring.buf[..]), ring.buf[..], at, StoredAll(line, old(ring.buf[at..at + n])))
      ensures parityErrors == Counter(old(parityErrors), ParityErrors(line, old(ring.buf[at..at + n])))
    {
      ghost var before := ring.buf[..];
      ghost var raw := ring.buf[at..at + n];
      var errors := 0;
      for i := 0 to n
        modifies ring.buf
        invariant Overwritten(before, ring.buf[..], at, StoredAll(line, raw[..i]))
        invariant errors == ParityErrors(line, raw[..i])
      {
        ghost var now := ring.buf[..];
        assert now[at + i] == raw[i];
        var value := ring.buf[at + i] % 0x80;
        if ParityError(line.parity, ring.buf[at + i] as bv8) {
          errors := errors + 1;
        }
        ring.buf[at + i] := value;
        assert ring.buf[..] == now[at + i := value];
        NextStored(line, raw, i);
        OverwriteNext(before, now, at, StoredAll(line, raw[..i]), value);
      }
      assert raw[..n] == raw;
      parityErrors := (parityErrors + errors) % TWO32;
    }

    /** One burst, decoded when the line has 7 data bits. */
    method FetchInto(n: nat)
      requires ring.Valid() && n <= |fifo| && ring.head + n <= ring.buf.Length
      modifies `fifo, `parityErrors, ring.buf
      ensures fifo == old(fifo)[n..]
      ensures Overwritten(old(ring.buf[..]), ring.buf[..], ring.head, StoredAll(line, old(fifo)[..n]))
      ensures parityErrors == Counter(old(parityErrors), ParityErrors(line, old(fifo)[..n]))
    {
      ghost var raw := fifo[..n];
      ReadBurst(n);
      if line.sevenBits {
        assert ring.buf[ring.head..ring.head + n] == raw;
        Decode7Bits(ring.head, n);
      } else {
        EightBitsUnchanged(line, raw);
      }
    }

    method StoreChunk(chunk: nat)
      requires ring.Valid() && chunk <= |fifo|
      requires chunk <= ring.buf.Length - ring.count && ring.head + chunk <= ring.buf.Length
      modifies `fifo, `parityErrors, ring`head, ring`count, ring.buf
      ensures ring.Valid() && ring.count == old(ring.count) + chunk
      ensures MovedBy(line, chunk, old(fifo), old(ring.Contents()), fifo, ring.Contents())
      ensures parityErrors == Counter(old(parityErrors), ParityErrors(line, old(fifo)[..chunk]))
    {
      ghost var stored, before := StoredAll(line, fifo[..chunk]), ring.buf[..];
      FetchInto(chunk);
      WindowGrows(before, ring.buf[..], ring.tail, ring.count, ring.head, stored);
      ring.Commit(chunk);
    }

    method MoveChunk(chunk: nat)
      requires Valid() && chunk <= |fifo|
      requires chunk <= ring.buf.Length - ring.count && ring.head + chunk <= ring.buf.Length
      modifies `fifo, `parityErrors, `moved, ring`head, ring`count, ring.buf
      ensures Valid() && ring.count == old(ring.count) + chunk
      ensures MovedBy(line, chunk, old(fifo), old(ring.Contents()), fifo, ring.Contents())
    {
      ghost var f0, k0 := fifo, ring.Contents();
      StoreChunk(chunk);
      MovingKeepsBalance(line, accepted, delivered, moved, chunk, f0, k0, fifo, ring.Contents());
      ParityErrorsAppend(line, moved, f0[..chunk]);
      CountTwice(errorsBefore, ParityErrors(line, moved), ParityErrors(line, f0[..chunk]));
      moved := moved + f0[..chunk];
    }

    /** The next burst: at most `left` bytes, without a wrap. */
    method MoveSome(left: nat) returns (chunk: nat)
      requires Valid() && left <= |fifo|
      modifies `fifo, `parityErrors, `moved, ring`head, ring`count, ring.buf
      ensures Valid() && chunk <= left && ring.count == old(ring.count) + chunk
      ensures chunk == 0 <==> left == 0 || old(ring.count) == ring.buf.Length
      ensures MovedBy(line, chunk, old(fifo), old(ring.Contents()), fifo, ring.Contents())
    {
      var free := ring.ContiguousFree();
      chunk := Min(Min(left, free), XFER_MAX_SIZE);
      MoveChunk(chunk);
    }

    /** Moves what fits: `count` bytes, or as many as the ring buffer has room for; the rest stays in the chip. */
    method XferFifoToBuffer(count: nat) returns (total: nat)
      requires Valid() && count <= |fifo|
      modifies `fifo, `parityErrors, `moved, ring`head, ring`count, ring.buf
      ensures Valid() && total == Min(count, ring.buf.Length - old(ring.count))
      ensures MovedBy(line, total, old(fifo), old(ring.Contents()), fifo, ring.Contents())
    {
      hide Conserved, StoredAll, Window;
      total := 0;
      var left := count;
      MovedNothing(line, fifo, ring.Contents());
      ghost var f0, k0, n0 := fifo, ring.Contents(), ring.count;
      while left > 0
        invariant Valid() && total + left == count
        invariant ring.count == n0 + total
        invariant MovedBy(line, total, f0, k0, fifo, ring.Contents())
      {
        ghost var f1, k1 := fifo, ring.Contents();
        var chunk := MoveSome(left);
        if chunk == 0 {
          break;
        }
        MovedTwice(line, total, chunk, f0, k0, f1, k1, fifo, ring.Contents());
        left := left - chunk;
        total := total + chunk;
      }
    }

    /** One round of the hub for this UART. `reported` is the receive count the chip gives, 0xFFFF when it is invalid;
        more bytes may have arrived since. */
    method Poll(reported: nat)
      requires Valid() && (reported == 0xFFFF || reported <= |fifo|)
      modifies `fifo, `parityErrors, `moved, ring`head, ring`count, ring.buf
      ensures Valid()
      ensures MovedBy(line, if reported == 0xFFFF then 0 else Min(reported, ring.buf.Length - old(ring.count)),
                      old(fifo), old(ring.Contents()), fifo, ring.Contents())
    {
      if reported == 0 || reported == 0xFFFF {
        assert fifo[0..] == fifo && ring.Contents() + StoredAll(line, fifo[..0]) == ring.Contents();
        return;
      }
      var count := Min(reported, RX_FIFO_SIZE);
      var total := XferFifoToBuffer(count);
    }

    method Available() returns (n: nat)
      requires Valid()
      ensures n == |ring.Contents()|
    {
      n := ring.count;
    }

    /** Gives the oldest `length` bytes, or what there is; the status says whether that was enough. */
    method ReadArray(buffer: array<u8>, length: nat) returns (status: bool)
      requires Valid() && buffer != ring.buf && length <= buffer.Length
      modifies `delivered, ring`head, ring`tail, ring`count, buffer
      ensures Valid() && fifo == old(fifo)
      ensures status == (length <= |old(ring.Contents())|)
      ensures var n := Min(length, |old(ring.Contents())|);
              && buffer[..] == old(ring.Contents())[..n] + old(buffer[n..])
              && ring.Contents() == old(ring.Contents())[n..]
              && delivered == old(delivered) + buffer[..n]
    {
      status := true;
      var n := length;
      var available := ring.count;
      if length > available {
        n := available;
        status := false;
      }
      ghost var stored := ring.Contents();
      var popped := ring.PopBulk(buffer, n);
      assert delivered + stored == (delivered + stored[..n]) + stored[n..];
      delivered := delivered + stored[..n];
    }

    method DropReceived()
      requires Valid()
      modifies `fifo, `accepted, `moved, `delivered, `errorsBefore, ring`head, ring`tail, ring`count
      ensures Valid() && fifo == [] && ring.Contents() == []
    {
      fifo := [];
      ring.Clear();
      accepted, moved, delivered, errorsBefore := [], [], [], parityErrors;
    }

    /** Changes the speed at run time. What was received at the old one is dropped, unless the call is refused (out of
        range, or the bytes still to send did not leave) or asks for the present speed. */
    method ChangeBaudRate(wanted: u32, flushed: bool) returns (ok: bool, latch: Option<u16>)
      requires Valid()
      modifies `fifo, `baudRate, `accepted, `moved, `delivered, `errorsBefore, ring`head, ring`tail, ring`count
      ensures Valid()
      ensures ok == (Baud.BaudMin(clock) <= wanted <= Baud.BaudMax(clock) && (wanted == old(baudRate) || flushed))
      ensures latch.Some? == (ok && wanted != old(baudRate))
      ensures latch.Some? ==> fifo == [] && ring.Contents() == []
      ensures latch.Some? ==> baudRate == wanted > 0 && latch.value == Baud.Rounded(clock, wanted)
      ensures latch.None? ==> fifo == old(fifo) && ring.Contents() == old(ring.Contents())
      ensures latch.None? ==> baudRate == old(baudRate) && accepted == old(accepted) && delivered == old(delivered)
    {
      if wanted < Baud.BaudMin(clock) || wanted > Baud.BaudMax(clock) {
        return false, None;
      }
      if wanted == baudRate {
        return true, None;
      }
      if !flushed {
        return false, None;
      }
      var used, low, high := Baud.SetBaudrate(clock, wanted);
      baudRate := wanted;
      DropReceived();
      return true, Some((low as int) + 0x100 * (high as int));
    }
  }

  /** After any interleaving of receptions, polls and reads (which all keep `Valid`): the bytes delivered, then those in
      the ring, then those still in the chip, are the bytes the chip accepted from the line. */
  lemma NothingLost(c: Channel)
    requires c.Valid()
    ensures c.delivered + c.ring.Contents() + StoredAll(c.line, c.fifo) == StoredAll(c.line, c.accepted)
    ensures !c.line.sevenBits ==> c.delivered + c.ring.Contents() + c.fifo == c.accepted
    ensures c.fifo == [] && c.ring.Contents() == [] ==> c.delivered == StoredAll(c.line, c.accepted)
  {
    StoredAllAppend(c.line, c.moved, c.fifo);
    if !c.line.sevenBits {
      EightBitsUnchanged(c.line, c.moved);
    }
  }

  /** The numbers on the line are the encodings of these bytes. */
  predicate SentAs(line: Line, sent: seq<bv8>, wire: seq<u8>) {
    |wire| == |sent| && forall i | 0 <= i < |sent| :: wire[i] == Encoded(line.parity, sent[i]) as int
  }

  function LowSeven(sent: seq<bv8>): seq<u8> {
    seq(|sent|, i requires 0 <= i < |sent| => (sent[i] as int) % 0x80)
  }

  lemma SameByte(b: bv8)
    ensures (b as int) as bv8 == b
  {
  }

  lemma EncodedByte(line: Line, b: bv8)
    requires line.sevenBits
    ensures Stored(line, Encoded(line.parity, b) as int) == (b as int) % 0x80
    ensures !WrongParity(line, Encoded(line.parity, b) as int)
  {
    hide Encoded, Decoded, ParityError;
    var e := Encoded(line.parity, b);
    SevenBitsRoundTrip(line.parity, b);
    DecodedIsRemainder(e);
    DecodedIsRemainder(b);
    DecodedIs(b);
    SameByte(e);
  }

  lemma DecodedIs(b: bv8)
    ensures Decoded(b) == b & 0x7F
  {
  }

  lemma {:induction false} EncodedArrives(line: Line, sent: seq<bv8>, wire: seq<u8>)
    requires line.sevenBits && SentAs(line, sent, wire)
    ensures StoredAll(line, wire) == LowSeven(sent) && ParityErrors(line, wire) == 0
  {
    hide Encoded, Stored, WrongParity;
    if wire != [] {
      var n := |wire| - 1;
      EncodedByte(line, sent[n]);
      EncodedArrives(line, sent[..n], wire[..n]);
      assert wire == wire[..n] + [wire[n]];
      StoredAllAppend(line, wire[..n], [wire[n]]);
    }
  }

  /** End to end on a line with seven data bits: when the line carried what `Encode7Bits` makes of some bytes, then
      after any receptions, polls and reads what was delivered, what is in the ring and what the chip still holds
      are together the low seven bits of these bytes, in order, and no parity error was counted. */
  lemma SevenBitsEndToEnd(c: Channel, sent: seq<bv8>)
    requires c.Valid() && c.line.sevenBits && SentAs(c.line, sent, c.accepted)
    ensures c.delivered + c.ring.Contents() + StoredAll(c.line, c.fifo) == LowSeven(sent)
    ensures c.fifo == [] && c.ring.Contents() == [] ==> c.delivered == LowSeven(sent)
    ensures c.parityErrors == c.errorsBefore
  {
    hide Encoded, Stored, WrongParity;
    NothingLost(c);
    EncodedArrives(c.line, sent, c.accepted);
    ParityErrorsAppend(c.line, c.moved, c.fifo);
  }
}
