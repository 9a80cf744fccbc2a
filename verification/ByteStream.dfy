/**
 The byte stream layer of a socket: a reader with a buffer of its own, receiving a complete
 block and sending blocks. The kernel hands out and takes data in pieces of any size.
 */
module ByteStream {
  type Byte = b: int | 0 <= b < 256

  /** `sizeof(m_buffer)` */
  const BUFFER_SIZE: nat := 65536 * 4
  /** The largest `ssize_t` and the range of `size_t` */
  const MAX_SSIZE: nat := 0x7FFF_FFFF_FFFF_FFFF
  const SIZE_RANGE: nat := 0x1_0000_0000_0000_0000

  /**
   What the network has for `recv`: a piece of data, nothing yet, a signal that interrupts it, the
   end of the stream or an error.
   */
  datatype Arrival = Data(bytes: seq<Byte>) | NothingYet | Stopped | Closed | Broken

  /** What the kernel does with data to send: it takes up to `n` bytes or refuses. */
  datatype Intake = Takes(n: nat) | Full | Interrupted | Refuses

  /** What `poll` returns: ready, a time out, an interruption by a signal, or another error. */
  datatype Polled = Ready | TimedOut | Signal | PollFails

  /** The result of `recv`, `send` and `writev`: a count, or -1 and an error number. */
  datatype Result = Count(n: nat) | WouldBlock | Interruption | Failure

  function Min(a: nat, b: nat): nat {
    if a < b then a else b
  }

  /**
   What is to come: the bytes before `recv` first stops, whether a signal stops it there, all bytes
   before the end of the stream, and whether that end is an error.
   */
  datatype Outlook = Outlook(calm: seq<Byte>, signal: bool, stream: seq<Byte>, broken: bool)

  const CLOSED: Outlook := Outlook([], false, [], false)
  const BROKEN: Outlook := Outlook([], false, [], true)

  function Ahead(bytes: seq<Byte>, o: Outlook): Outlook {
    o.(calm := bytes + o.calm, stream := bytes + o.stream)
  }

  /** Without any more arrivals the stream is closed. */
  function OutlookOf(incoming: seq<Arrival>): Outlook {
    if incoming == [] then CLOSED
    else
      match incoming[0]
      case Data(bytes) => Ahead(bytes, OutlookOf(incoming[1..]))
      case NothingYet => OutlookOf(incoming[1..])
      case Stopped => OutlookOf(incoming[1..]).(calm := [], signal := true)
      case Closed => CLOSED
      case Broken => BROKEN
  }

  lemma AheadTwice(a: seq<Byte>, b: seq<Byte>, o: Outlook)
    ensures Ahead(a, Ahead(b, o)) == Ahead(a + b, o)
  {
    assert a + (b + o.calm) == (a + b) + o.calm && a + (b + o.stream) == (a + b) + o.stream;
  }

  lemma AheadNothing(o: Outlook)
    ensures Ahead([], o) == o
  {
    assert [] + o.calm == o.calm && [] + o.stream == o.stream;
  }

  /** Only a signal keeps `recv` from the whole stream. */
  lemma {:induction false} CalmUnlessSignal(incoming: seq<Arrival>)
    ensures OutlookOf(incoming).signal || OutlookOf(incoming).calm == OutlookOf(incoming).stream
  {
    if incoming != [] {
      CalmUnlessSignal(incoming[1..]);
    }
  }

  /** Data that arrives in two pieces, with a wait between them, is the same to come. */
  lemma {:induction false} PiecesDoNotMatter(before: seq<Arrival>, bytes: seq<Byte>, k: nat, after: seq<Arrival>)
    requires k <= |bytes|
    ensures OutlookOf(before + [Data(bytes[..k]), NothingYet, Data(bytes[k..])] + after)
         == OutlookOf(before + [Data(bytes)] + after)
  {
    hide Ahead;
    var whole, pieces := before + [Data(bytes)] + after, before + [Data(bytes[..k]), NothingYet, Data(bytes[k..])]
        + after;
    if before == [] {
      assert whole[1..] == after && pieces[1..] == [NothingYet, Data(bytes[k..])] + after;
      assert pieces[1..][1..] == [Data(bytes[k..])] + after && pieces[1..][1..][1..] == after;
      AheadTwice(bytes[..k], bytes[k..], OutlookOf(after));
      assert bytes[..k] + bytes[k..] == bytes;
      assert OutlookOf(pieces[1..]) == OutlookOf(pieces[1..][1..]) == Ahead(bytes[k..], OutlookOf(after));
    } else {
      PiecesDoNotMatter(before[1..], bytes, k, after);
      assert whole[1..] == before[1..] + [Data(bytes)] + after;
      assert pieces[1..] == before[1..] + [Data(bytes[..k]), NothingYet, Data(bytes[k..])] + after;
    }
  }

  /** What a result of `recv` says of what was to come and what is to come now */
  ghost predicate Hands(before: Outlook, r: Result, bytes: seq<Byte>, after: Outlook) {
    match r
    case Count(n) => |bytes| == n && before == Ahead(bytes, after)
    case WouldBlock => bytes == [] && before == after
    case Failure => bytes == [] && before == after == BROKEN
    case Interruption =>
      bytes == [] && before.calm == [] && before.signal && before.stream == after.stream
          && before.broken == after.broken
  }

  /** Waiting always ends with the descriptor being ready. */
  predicate Patient(polls: seq<Polled>) {
    forall n :: 0 <= n < |polls| ==> polls[n] == Ready || polls[n] == Signal
  }

  /** The kernel takes some bytes, sooner or later, whenever it is asked to. */
  predicate Healthy(outgoing: seq<Intake>) {
    forall n :: 0 <= n < |outgoing| ==> outgoing[n] != Refuses && outgoing[n] != Takes(0)
  }

  /** A connected descriptor and the kernel behind it */
  class Descriptor {
    var incoming: seq<Arrival>
    var outgoing: seq<Intake>
    var polls: seq<Polled>
    /** The bytes that `recv` handed out, and those that `send` and `writev` took */
    ghost var received: seq<Byte>
    var wire: seq<Byte>

    /** `::recv` into an array */
    method Recv(buf: array<Byte>) returns (r: Result)
      requires buf.Length > 0
      modifies this`incoming, this`received, buf
      ensures Received(r) <= buf.Length && received == old(received) + buf[..Received(r)]
      ensures Hands(OutlookOf(old(incoming)), r, buf[..Received(r)], OutlookOf(incoming))
      ensures r == Count(0) ==> OutlookOf(incoming) == CLOSED
      ensures r == WouldBlock ==> |incoming| < |old(incoming)|
    {
      while incoming != [] && incoming[0] == Data([])
        invariant OutlookOf(incoming) == OutlookOf(old(incoming))
        invariant |incoming| <= |old(incoming)| && received == old(received)
      {
        AheadNothing(OutlookOf(incoming[1..]));
        incoming := incoming[1..];
      }
      assert buf[..0] == [];
      if incoming == [] || incoming[0] == Closed {
        AheadNothing(CLOSED);
        r := Count(0);
      } else if incoming[0] == Broken {
        r := Failure;
      } else if incoming[0] == NothingYet {
        incoming := incoming[1..];
        r := WouldBlock;
      } else if incoming[0] == Stopped {
        incoming := incoming[1..];
        r := Interruption;
      } else {
        var bytes, rest := incoming[0].bytes, incoming[1..];
        var n := Min(|bytes|, buf.Length);
        forall i | 0 <= i < n {
          buf[i] := bytes[i];
        }
        assert buf[..n] == bytes[..n] && bytes == bytes[..n] + bytes[n..];
        AheadTwice(bytes[..n], bytes[n..], OutlookOf(rest));
        received := received + bytes[..n];
        incoming := [Data(bytes[n..])] + rest;
        assert incoming[1..] == rest;
        r := Count(n);
      }
    }

    /** `poll` until it is not interrupted; without any more results the descriptor is ready. */
    method Wait() returns (ready: bool)
      modifies this`polls
      ensures Patient(old(polls)) ==> ready && Patient(polls)
    {
      while polls != [] && polls[0] == Signal
        invariant Patient(old(polls)) ==> Patient(polls)
      {
        polls := polls[1..];
      }
      ready := polls == [] || polls[0] == Ready;
      if polls != [] {
        polls := polls[1..];
      }
    }

    /** The kernel takes a part of the given bytes; without any more instructions it takes all. */
    method Take(data: seq<Byte>) returns (r: Result)
      modifies this`outgoing, this`wire
      ensures match r
              case Count(n) => n <= |data| && wire == old(wire) + data[..n]
              case _ => wire == old(wire)
      ensures if old(outgoing) == [] then r == Count(|data|) && outgoing == []
              else outgoing == old(outgoing)[1..] && r == TakeResult(old(outgoing)[0], |data|)
    {
      if outgoing == [] {
        wire := wire + data;
        r := Count(|data|);
      } else {
        r := TakeResult(outgoing[0], |data|);
        if r.Count? {
          wire := wire + data[..r.n];
        }
        outgoing := outgoing[1..];
      }
    }

    method Writev(iovs: seq<seq<Byte>>) returns (r: Result)
      modifies this`outgoing, this`wire
      ensures r == WritevResult(old(outgoing), |Concat(iovs)|)
      ensures wire == if r.Count? then old(wire) + Concat(iovs)[..r.n] else old(wire)
      ensures r.Count? ==> r.n <= |Concat(iovs)|
      ensures Healthy(old(outgoing)) ==> Healthy(outgoing)
    {
      if |Concat(iovs)| > MAX_SSIZE {
        return Failure;
      }
      r := Take(Concat(iovs));
    }
  }

  /** `writev` is not made for more than an `ssize_t` can count. */
  function WritevResult(outgoing: seq<Intake>, size: nat): Result {
    if size > MAX_SSIZE then Failure
    else if outgoing == [] then Count(size)
    else TakeResult(outgoing[0], size)
  }

  function TakeResult(intake: Intake, size: nat): Result {
    match intake
    case Takes(n) => Count(Min(n, size))
    case Full => WouldBlock
    case Interrupted => Interruption
    case Refuses => Failure
  }

  class BufferedReader {
    const buffer: array<Byte>
    var fillLevel: nat
    var alreadyRead: nat
    /** What the callers got so far */
    ghost var delivered: seq<Byte>

    ghost predicate Valid(fd: Descriptor)
      reads this, buffer, fd`incoming, fd`received
    {
      && buffer.Length == BUFFER_SIZE && alreadyRead <= fillLevel <= buffer.Length
      && delivered + buffer[alreadyRead..fillLevel] == fd.received
    }

    /** What is still to be delivered */
    ghost function Remaining(fd: Descriptor): Outlook
      requires Valid(fd)
      reads this, buffer, fd`incoming, fd`received
    {
      Ahead(buffer[alreadyRead..fillLevel], OutlookOf(fd.incoming))
    }

    constructor (fd: Descriptor)
      requires fd.received == []
      ensures Valid(fd) && fresh(buffer) && delivered == [] && Remaining(fd) == OutlookOf(fd.incoming)
    {
      AheadNothing(OutlookOf(fd.incoming));
      buffer := new Byte[BUFFER_SIZE];
      fillLevel := 0;
      alreadyRead := 0;
      delivered := [];
    }

    /** `memcpy` of unread bytes from the buffer into the caller's block */
    method Deliver(fd: Descriptor, buf: array<Byte>, at: nat, n: nat)
      requires Valid(fd) && alreadyRead + n <= fillLevel && at + n <= buf.Length && buf != buffer
      modifies buf, this`alreadyRead, this`delivered
      ensures Valid(fd)
      ensures delivered == old(delivered) + buf[at..at + n]
      ensures Hands(old(Remaining(fd)), Count(n), buf[at..at + n], Remaining(fd))
      ensures buf[..at] == old(buf[..at]) && buf[at + n..] == old(buf[at + n..])
    {
      hide OutlookOf, Ahead;
      ghost var unread, coming := buffer[alreadyRead..fillLevel], OutlookOf(fd.incoming);
      forall i | 0 <= i < n {
        buf[at + i] := buffer[alreadyRead + i];
      }
      assert buf[at..at + n] == unread[..n];
      delivered := delivered + buf[at..at + n];
      alreadyRead := alreadyRead + n;
      assert buffer[alreadyRead..fillLevel] == unread[n..];
      assert unread == unread[..n] + unread[n..];
      AheadTwice(unread[..n], unread[n..], coming);
    }

    /** Asks the kernel for as much as fits into the empty buffer. */
    method Refill(fd: Descriptor) returns (r: Result)
      requires Valid(fd) && alreadyRead == fillLevel
      modifies this`fillLevel, this`alreadyRead, buffer, fd`incoming, fd`received
      ensures Valid(fd)
      ensures if r.Count? && r.n > 0 then alreadyRead == 0 && fillLevel == r.n && Remaining(fd) == old(Remaining(fd))
              else alreadyRead == fillLevel && Hands(old(Remaining(fd)), r, [], Remaining(fd))
      ensures r == Count(0) ==> Remaining(fd) == CLOSED
      ensures r == WouldBlock ==> |fd.incoming| < |old(fd.incoming)|
    {
      hide OutlookOf, Ahead;
      assert buffer[alreadyRead..fillLevel] == [];
      AheadNothing(OutlookOf(fd.incoming));
      r := fd.Recv(buffer);
      if r.Count? && r.n > 0 {
        fillLevel := r.n;
        alreadyRead := 0;
        assert buffer[alreadyRead..fillLevel] == buffer[..r.n];
      } else {
        assert buffer[alreadyRead..fillLevel] == [] && buffer[..0] == [];
        AheadNothing(OutlookOf(fd.incoming));
      }
    }

    /** `recv` when the buffer is empty */
    method RecvFresh(fd: Descriptor, buf: array<Byte>, at: nat, desiredLen: nat) returns (r: Result)
      requires Valid(fd) && alreadyRead == fillLevel && at + desiredLen <= buf.Length && buf != buffer
      modifies this`fillLevel, this`alreadyRead, this`delivered, buffer, buf, fd`incoming, fd`received
      ensures Valid(fd) && Received(r) <= desiredLen
      ensures delivered == old(delivered) + buf[at..at + Received(r)]
      ensures Hands(old(Remaining(fd)), r, buf[at..at + Received(r)], Remaining(fd))
      ensures buf[..at] == old(buf[..at]) && buf[at + Received(r)..] == old(buf[at + Received(r)..])
      ensures r == Count(0) && desiredLen > 0 ==> Remaining(fd) == CLOSED
      ensures r == WouldBlock ==> |fd.incoming| < |old(fd.incoming)|
    {
      hide OutlookOf, Ahead;
      r := Refill(fd);
      assert buf[at..at] == [];
      if r.Count? && r.n > 0 {
        var n := Min(fillLevel, desiredLen);
        Deliver(fd, buf, at, n);
        r := Count(n);
      }
    }

    /** Behaves like `::recv`: delivers the next bytes of the stream, as many as there are at hand. */
    method Recv(fd: Descriptor, buf: array<Byte>, at: nat, desiredLen: nat) returns (r: Result)
      requires Valid(fd) && at + desiredLen <= buf.Length && buf != buffer
      modifies this`fillLevel, this`alreadyRead, this`delivered, buffer, buf, fd`incoming, fd`received
      ensures Valid(fd) && Received(r) <= desiredLen
      ensures delivered == old(delivered) + buf[at..at + Received(r)]
      ensures Hands(old(Remaining(fd)), r, buf[at..at + Received(r)], Remaining(fd))
      ensures buf[..at] == old(buf[..at]) && buf[at + Received(r)..] == old(buf[at + Received(r)..])
      ensures r == Count(0) && desiredLen > 0 ==> Remaining(fd) == CLOSED
      ensures r == WouldBlock ==> |fd.incoming| < |old(fd.incoming)|
    {
      hide OutlookOf, Ahead;
      var bytesLeft := UnreadCount(fd);
      if bytesLeft >= desiredLen {
        Deliver(fd, buf, at, desiredLen);
        r := Count(desiredLen);
      } else if bytesLeft > 0 {
        Deliver(fd, buf, at, bytesLeft);
        r := Count(bytesLeft);
      } else {
        r := RecvFresh(fd, buf, at, desiredLen);
      }
    }

    method UnreadCount(fd: Descriptor) returns (bytesLeft: nat)
      requires Valid(fd)
      ensures alreadyRead + bytesLeft == fillLevel
    {
      bytesLeft := fillLevel - alreadyRead;
    }
  }

  /** How many bytes a result stands for */
  function Received(r: Result): nat {
    if r.Count? then r.n else 0
  }

  /** All bytes of some blocks, in order */
  function Concat(blocks: seq<seq<Byte>>): seq<Byte> {
    if blocks == [] then [] else Concat(blocks[..|blocks| - 1]) + blocks[|blocks| - 1]
  }

  /** The six empty entries that the vector for `writev` starts with */
  const RESERVED: seq<seq<Byte>> := [[], [], [], [], [], []]

  lemma {:induction false} ConcatPrefix(blocks: seq<seq<Byte>>, i: nat)
    requires i < |blocks|
    ensures Concat(blocks[..i + 1]) == Concat(blocks[..i]) + blocks[i]
    ensures |Concat(blocks[..i + 1])| <= |Concat(blocks)|
    ensures Concat(blocks)[|Concat(blocks[..i])|..|Concat(blocks[..i + 1])|] == blocks[i]
    decreases |blocks|
  {
    assert blocks[..i + 1][..i] == blocks[..i];
    if i + 1 == |blocks| {
      assert blocks[..i + 1] == blocks;
    } else {
      var before := blocks[..|blocks| - 1];
      assert before[..i] == blocks[..i] && before[..i + 1] == blocks[..i + 1];
      ConcatPrefix(before, i);
      assert Concat(blocks) == Concat(before) + blocks[|blocks| - 1];
    }
  }

  lemma {:induction false} EmptyEntriesAddNothing(blocks: seq<seq<Byte>>)
    ensures Concat(RESERVED + blocks) == Concat(blocks)
  {
    if blocks == [] {
      assert RESERVED + blocks == RESERVED;
      AllEmpty(RESERVED);
    } else {
      EmptyEntriesAddNothing(blocks[..|blocks| - 1]);
      assert (RESERVED + blocks)[..|RESERVED + blocks| - 1] == RESERVED + blocks[..|blocks| - 1];
    }
  }

  lemma {:induction false} AllEmpty(blocks: seq<seq<Byte>>)
    requires forall i :: 0 <= i < |blocks| ==> blocks[i] == []
    ensures Concat(blocks) == []
  {
    if blocks != [] {
      AllEmpty(blocks[..|blocks| - 1]);
    }
  }

  /** Conversion of a `size_t` to `ssize_t` */
  function ToSigned(x: nat): int {
    if x > MAX_SSIZE then x - SIZE_RANGE else x
  }

  /**
   What `receiveComplete` returns for `size` bytes of what is to come, if it waits as long as it
   takes: it gives up at a signal as at an error.
   */
  function CompleteResult(size: nat, o: Outlook): int {
    if |o.calm| >= size then size
    else if o.signal || o.broken then -1
    else |o.calm|
  }

  /** The three outcomes */
  lemma ResultInCases(size: nat, bytes: seq<Byte>, incoming: seq<Arrival>)
    ensures var coming := Ahead(bytes, OutlookOf(incoming));
            var r := CompleteResult(size, coming);
            && (|coming.calm| >= size ==> r == size)
            && (|coming.calm| < size && !coming.signal && !coming.broken ==> r == |coming.stream|)
            && (|coming.calm| < size && (coming.signal || coming.broken) ==> r == -1)
  {
    CalmUnlessSignal(incoming);
  }

  /** A block that the stream holds is not received exactly if a signal comes before its last byte. */
  lemma GivesUpIff(size: nat, incoming: seq<Arrival>)
    requires |OutlookOf(incoming).stream| >= size
    ensures CompleteResult(size, OutlookOf(incoming)) == -1 <==>
              OutlookOf(incoming).signal && |OutlookOf(incoming).calm| < size
  {
    CalmUnlessSignal(incoming);
  }

  /** Four bytes are there, but the first `recv` is interrupted. */
  lemma SignalDefeatsReceive()
    ensures OutlookOf([Stopped, Data([1, 2, 3, 4])]).stream == [1, 2, 3, 4]
    ensures CompleteResult(4, OutlookOf([Stopped, Data([1, 2, 3, 4])])) == -1
  {
    var later: seq<Arrival> := [Data([1, 2, 3, 4])];
    assert later[1..] == [] && OutlookOf(later[1..]) == CLOSED;
    assert OutlookOf(later) == Ahead([1, 2, 3, 4], CLOSED);
    assert ([Stopped] + later)[1..] == later && [Stopped] + later == [Stopped, Data([1, 2, 3, 4])];
  }

  /** What one more `recv` means for a block of which `taken` is there: it goes on, or the result is known. */
  lemma CompleteStep(size: nat, start: Outlook, taken: seq<Byte>, before: Outlook, r: Result, bytes: seq<Byte>,
                     after: Outlook)
    requires start == Ahead(taken, before) && |taken| < size
    requires if r == Failure then bytes == [] && after == before else Hands(before, r, bytes, after)
    requires r == Count(0) ==> after == CLOSED
    ensures r.Count? || r.WouldBlock? ==> start == Ahead(taken + bytes, after)
    ensures start.stream == taken + bytes + after.stream && start.broken == after.broken
    ensures r == Count(0) ==> CompleteResult(size, start) == |taken|
    ensures r == Interruption || (r == Failure && after == BROKEN) ==> CompleteResult(size, start) == -1
  {
    AheadTwice(taken, bytes, after);
    AheadNothing(after);
    assert r.WouldBlock? || r.Failure? || r.Interruption? || r == Count(0) ==> taken + bytes == taken;
  }

  lemma CompleteEnds(size: nat, start: Outlook, taken: seq<Byte>, rest: Outlook)
    requires start == Ahead(taken, rest) && |taken| == size
    ensures CompleteResult(size, start) == size && start.stream == taken + rest.stream && start.broken == rest.broken
  {
  }

  class SocketNonblocking {
    const fd: Descriptor
    const bufferedReader: BufferedReader

    constructor (fd: Descriptor)
      requires fd.received == []
      ensures this.fd == fd && fresh(bufferedReader) && fresh(bufferedReader.buffer)
      ensures bufferedReader.Valid(fd) && bufferedReader.Remaining(fd) == OutlookOf(fd.incoming)
    {
      this.fd := fd;
      bufferedReader := new BufferedReader(fd);
    }

    /** One `recv` for the rest of a block, of which `pos` bytes are there already */
    method ReceiveMore(block: array<Byte>, pos: nat, sizeLeft: nat) returns (r: Result)
      requires bufferedReader.Valid(fd) && pos + sizeLeft <= block.Length && block != bufferedReader.buffer
               && sizeLeft > 0
      modifies bufferedReader, bufferedReader.buffer, block, fd`incoming, fd`received
      ensures bufferedReader.Valid(fd) && Received(r) <= sizeLeft
      ensures Hands(old(bufferedReader.Remaining(fd)), r, block[pos..pos + Received(r)], bufferedReader.Remaining(fd))
      ensures block[..pos] == old(block[..pos])
      ensures r == Count(0) ==> bufferedReader.Remaining(fd) == CLOSED
      ensures r == WouldBlock ==> |fd.incoming| < |old(fd.incoming)|
    {
      r := bufferedReader.Recv(fd, block, pos, sizeLeft);
    }

    /** The same, waiting for the socket if nothing is there yet; `Failure` also says that waiting failed. */
    method ReceiveOrWait(block: array<Byte>, pos: nat, sizeLeft: nat) returns (r: Result)
      requires bufferedReader.Valid(fd) && pos + sizeLeft <= block.Length && block != bufferedReader.buffer
               && sizeLeft > 0
      modifies bufferedReader, bufferedReader.buffer, block, fd`incoming, fd`received, fd`polls
      ensures bufferedReader.Valid(fd) && Received(r) <= sizeLeft
      ensures block[..pos] == old(block[..pos])
      ensures if r == Failure then bufferedReader.Remaining(fd) == old(bufferedReader.Remaining(fd))
              else Hands(old(bufferedReader.Remaining(fd)), r, block[pos..pos + Received(r)],
                         bufferedReader.Remaining(fd))
      ensures r == Failure && Patient(old(fd.polls)) ==> bufferedReader.Remaining(fd) == BROKEN
      ensures r == Count(0) ==> bufferedReader.Remaining(fd) == CLOSED
      ensures r == WouldBlock ==> |fd.incoming| < |old(fd.incoming)|
      ensures Patient(old(fd.polls)) ==> Patient(fd.polls)
    {
      hide OutlookOf, Ahead, Patient;
      r := ReceiveMore(block, pos, sizeLeft);
      if r.WouldBlock? {
        var ready := fd.Wait();
        if !ready {
          r := Failure;
        }
      }
    }

    /**
     Receives a block of `size` bytes, waiting for them. However the stream arrives in pieces, the
     block gets its next bytes; with patience the result depends on what is to come alone.
     */
    method ReceiveComplete(block: array<Byte>, size: nat) returns (r: int, ghost taken: nat)
      requires bufferedReader.Valid(fd) && size <= block.Length && block != bufferedReader.buffer
      modifies bufferedReader, bufferedReader.buffer, block, fd`incoming, fd`received, fd`polls
      ensures bufferedReader.Valid(fd) && taken <= size
      ensures old(bufferedReader.Remaining(fd)).stream == block[..taken] + bufferedReader.Remaining(fd).stream
      ensures old(bufferedReader.Remaining(fd)).broken == bufferedReader.Remaining(fd).broken
      ensures r == taken || r == -1
      ensures Patient(old(fd.polls)) ==> r == CompleteResult(size, old(bufferedReader.Remaining(fd)))
      ensures var coming := old(bufferedReader.Remaining(fd));
              Patient(old(fd.polls)) ==>
                && (|coming.calm| >= size ==> r == size)
                && (|coming.calm| < size && !coming.signal && !coming.broken ==> r == |coming.stream|)
                && (|coming.calm| < size && (coming.signal || coming.broken) ==> r == -1)
    {
      hide OutlookOf, CompleteResult, Patient, Ahead, Hands;
      ResultInCases(size, bufferedReader.buffer[bufferedReader.alreadyRead..bufferedReader.fillLevel], fd.incoming);
      var pos: nat := 0;
      var sizeLeft: nat := size;
      ghost var start, patient := bufferedReader.Remaining(fd), Patient(fd.polls);
      assert block[..0] == [];
      AheadNothing(start);
      while sizeLeft > 0
        invariant pos + sizeLeft == size
        invariant bufferedReader.Valid(fd)
        invariant start == Ahead(block[..pos], bufferedReader.Remaining(fd))
        invariant patient ==> Patient(fd.polls)
        decreases sizeLeft, |fd.incoming|
      {
        ghost var before, coming := block[..pos], bufferedReader.Remaining(fd);
        var retVal := ReceiveOrWait(block, pos, sizeLeft);
        ghost var bytes := block[pos..pos + Received(retVal)];
        assert block[..pos + Received(retVal)] == before + bytes;
        CompleteStep(size, start, before, coming, retVal, bytes, bufferedReader.Remaining(fd));
        if retVal.Count? && retVal.n > 0 {
          sizeLeft := sizeLeft - retVal.n;
          pos := pos + retVal.n;
        } else if retVal.Count? {
          return size - sizeLeft, pos;
        } else if retVal.Failure? || retVal.Interruption? {
          return -1, pos;
        }
      }
      CompleteEnds(size, start, block[..size], bufferedReader.Remaining(fd));
      return size, size;
    }

    /** Sends a block; a part of it that the kernel does not take at once is tried again. */
    method SendBlock(data: seq<Byte>) returns (r: int, ghost taken: nat)
      modifies fd`outgoing, fd`polls, fd`wire
      ensures taken <= |data| && fd.wire == old(fd.wire) + data[..taken]
      ensures r == if taken == |data| then |data| else -1
      ensures Healthy(old(fd.outgoing)) && Patient(old(fd.polls)) ==>
                taken == |data| && Healthy(fd.outgoing) && Patient(fd.polls)
    {
      var pos: nat, bytesLeft: nat := 0, |data|;
      r := |data|;
      assert data[..0] == [];
      while bytesLeft > 0
        invariant pos <= |data|
        invariant pos + bytesLeft == |data| || (bytesLeft == 0 && pos < |data|)
        invariant r == if pos + bytesLeft == |data| then |data| else -1
        invariant fd.wire == old(fd.wire) + data[..pos]
        invariant Healthy(old(fd.outgoing)) && Patient(old(fd.polls)) ==>
                    pos + bytesLeft == |data| && Healthy(fd.outgoing) && Patient(fd.polls)
        decreases bytesLeft, |fd.outgoing|
      {
        var numBytes := fd.Take(data[pos..]);
        if numBytes.Count? && numBytes.n > 0 {
          assert data[..pos] + data[pos..][..numBytes.n] == data[..pos + numBytes.n];
          pos := pos + numBytes.n;
          bytesLeft := bytesLeft - numBytes.n;
        } else if numBytes.Count? {
          bytesLeft := 0;
          r := -1;
        } else if numBytes.WouldBlock? {
          var ready := fd.Wait();
          if !ready {
            bytesLeft := 0;
            r := -1;
          }
        } else if numBytes != Interruption {
          bytesLeft := 0;
          r := -1;
        }
      }
      return r, pos;
    }

    /** The vector for `writev`, and the length of all blocks */
    static method Gather(blocks: seq<seq<Byte>>) returns (iovs: seq<seq<Byte>>, completeLength: nat)
      ensures Concat(iovs) == Concat(blocks) && completeLength == |Concat(blocks)|
    {
      iovs := RESERVED;
      completeLength := 0;
      NoBlocks(blocks);
      for i := 0 to |blocks|
        invariant iovs == RESERVED + blocks[..i]
        invariant completeLength == |Concat(blocks[..i])|
      {
        ConcatPrefix(blocks, i);
        assert blocks[..i + 1] == blocks[..i] + [blocks[i]];
        iovs := iovs + [blocks[i]];
        completeLength := completeLength + |blocks[i]|;
      }
      assert blocks[..|blocks|] == blocks;
      EmptyEntriesAddNothing(blocks);
    }

    /**
     Sends all blocks: at once as far as the kernel takes them, the rest block by block. A count
     is returned only if everything was sent. If the first attempt would block or is interrupted,
     nothing is sent: -1 as an unsigned count is above every sum of block sizes.
     */
    method SendBlocks(blocks: seq<seq<Byte>>) returns (r: int, ghost taken: nat)
      modifies fd`outgoing, fd`polls, fd`wire
      ensures var all := Concat(blocks);
              && taken <= |all| && fd.wire == old(fd.wire) + all[..taken]
              && (r > 0 ==> r == taken == |all|)
              && (r == 0 ==> taken == 0)
              && (r < 0 ==> r == -1 && (taken < |all| || all == []))
      ensures var first := WritevResult(old(fd.outgoing), |Concat(blocks)|);
              && (first.WouldBlock? || first.Interruption? || first.Failure? ==> r == -1 && taken == 0)
              && (first == Count(0) <==> r == 0)
              && (Healthy(old(fd.outgoing)) && Patient(old(fd.polls)) && first.Count? && Concat(blocks) != [] ==>
                  r == |Concat(blocks)|)
    {
      var iovs, completeLength := Gather(blocks);
      HealthyTakesSome(fd.outgoing, completeLength);
      assert Concat(blocks)[..0] == [];
      var retVal := fd.Writev(iovs);
      if retVal == Count(0) {
        return 0, 0;
      } else if retVal == Failure {
        return -1, 0;
      }
      var bytesWritten := if retVal.Count? then retVal.n else SIZE_RANGE - 1;
      if bytesWritten == completeLength {
        return ToSigned(bytesWritten), bytesWritten;
      }
      r, taken := SendRemaining(iovs, bytesWritten);
    }

    /** Walks over the blocks and sends what is beyond the bytes that are written already. */
    method SendRemaining(iovs: seq<seq<Byte>>, alreadyWritten: nat) returns (r: int, ghost taken: nat)
      modifies fd`outgoing, fd`polls, fd`wire
      ensures var all := Concat(iovs);
              if alreadyWritten > |all| then
                r == ToSigned(alreadyWritten) && taken == 0 && fd.wire == old(fd.wire)
              else
                && alreadyWritten <= taken <= |all| && fd.wire == old(fd.wire) + all[alreadyWritten..taken]
                && r == if taken == |all| then ToSigned(taken) else -1
      ensures Healthy(old(fd.outgoing)) && Patient(old(fd.polls)) && alreadyWritten <= |Concat(iovs)| ==>
                taken == |Concat(iovs)|
    {
      hide Concat, Healthy, Patient, ToSigned;
      ghost var all := Concat(iovs);
      var bytesWritten := alreadyWritten;
      var blockSum := 0;
      NoBlocks(iovs);
      for index := 0 to |iovs|
        invariant blockSum == |Concat(iovs[..index])| && blockSum <= bytesWritten
        invariant if alreadyWritten > |all| then bytesWritten == alreadyWritten && fd.wire == old(fd.wire)
                  else
                    && alreadyWritten <= bytesWritten <= |all|
                    && fd.wire == old(fd.wire) + all[alreadyWritten..bytesWritten]
        invariant Healthy(old(fd.outgoing)) && Patient(old(fd.polls)) ==> Healthy(fd.outgoing) && Patient(fd.polls)
      {
        ConcatPrefix(iovs, index);
        blockSum := blockSum + |iovs[index]|;
        if bytesWritten < blockSum {
          var bytesRemaining := blockSum - bytesWritten;
          var start := |iovs[index]| - bytesRemaining;
          var data := iovs[index][start..];
          assert data == all[bytesWritten..blockSum];
          ghost var sent;
          r, sent := SendBlock(data);
          assert all[alreadyWritten..bytesWritten] + data[..sent] == all[alreadyWritten..bytesWritten + sent];
          if r > 0 {
            bytesWritten := bytesWritten + r;
          } else {
            return -1, bytesWritten + sent;
          }
        }
      }
      assert iovs[..|iovs|] == iovs;
      return ToSigned(bytesWritten), if alreadyWritten > |all| then 0 else bytesWritten;
    }
  }

  lemma HealthyTakesSome(outgoing: seq<Intake>, size: nat)
    ensures var first := WritevResult(outgoing, size);
            size > 0 && Healthy(outgoing) && first.Count? ==> first.n > 0
  {
  }

  lemma NoBlocks(blocks: seq<seq<Byte>>)
    ensures Concat(blocks[..0]) == []
  {
  }
}
