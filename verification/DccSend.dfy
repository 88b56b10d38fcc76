/** File transfers (`CDCCSock`): a sender that keeps a window of data ahead of what the other side
    has acknowledged with 32-bit counters, and a receiver that acknowledges every read. */
module DccSend {

  import opened Common
  import opened Octets

  const UINT32 := 0x1_0000_0000
  const WINDOW := 65536
  const PACKET := 4096
  const MAX_BUFFERED := 1024 * 1024

  /** What the file system answers to the k-th `read` of a socket: an error if negative, otherwise
      how much it is willing to give. */
  type Disk = nat -> int

  datatype File = NoFile | File(contents: seq<Byte>, pos: nat)

  /** `output` is everything the socket was told to write, `flushed` how much of it has left its
      write buffer. */
  datatype Sock = Sock(send: bool, file: File, sendBuf: seq<Byte>, bytesSoFar: nat, fileSize: nat,
                       output: seq<Byte>, flushed: nat, readCount: nat, closed: bool)
  {
    predicate Valid() {
      flushed <= |output|
    }
  }

  /** How much one `read` of a packet returns: nothing at the end of the file, something before. */
  function Got(f: File, want: int): (n: nat)
    requires f.File?
    ensures n <= PACKET && f.pos + n <= Max(f.pos, |f.contents|)
    ensures n == 0 <==> f.pos >= |f.contents|
  {
    if f.pos >= |f.contents| then 0 else Max(1, Min(want, Min(PACKET, |f.contents| - f.pos)))
  }

  function Next(f: File, n: nat): (r: seq<Byte>)
    requires f.File? && f.pos + n <= Max(f.pos, |f.contents|)
    ensures |r| == n
  {
    if n == 0 then [] else f.contents[f.pos..f.pos + n]
  }

  function Zeros(n: nat): seq<Byte> {
    seq(n, _ => 0)
  }

  /** Writing at the position of the file. */
  function Store(f: File, data: seq<Byte>): File
    requires f.File?
  {
    var c, end := f.contents, f.pos + |data|;
    var front := if f.pos <= |c| then c[..f.pos] else c + Zeros(f.pos - |c|);
    File(front + data + (if end <= |c| then c[end..] else []), end)
  }

  // ----- the handlers as functions ---------------------------------------------------------

  function AfterSend(s: Sock, disk: Disk): (r: Sock)
    requires s.Valid()
    ensures r.Valid()
  {
    if s.file.NoFile? then s.(closed := true)
    else if |s.output| - s.flushed > MAX_BUFFERED then s
    else
      var want := disk(s.readCount);
      if want < 0 then s.(closed := true, readCount := s.readCount + 1)
      else
        var n := Got(s.file, want);
        s.(output := s.output + Next(s.file, n), file := s.file.(pos := s.file.pos + n),
           bytesSoFar := s.bytesSoFar + n, readCount := s.readCount + 1)
  }

  /** Network byte order. */
  function Word(b: seq<Byte>): (n: nat)
    requires |b| == 4
    ensures n < UINT32
  {
    ((b[0] as int * 256 + b[1] as int) * 256 + b[2] as int) * 256 + b[3] as int
  }

  function Bytes(n: nat): (b: seq<Byte>)
    ensures |b| == 4
  {
    [n / 256 / 256 / 256 % 256, n / 256 / 256 % 256, n / 256 % 256, n % 256]
  }

  lemma WordOfBytes(n: nat)
    ensures Word(Bytes(n)) == n % UINT32
  {
    var a, b, c := n / 256, n / 256 / 256, n / 256 / 256 / 256;
    assert n == UINT32 * (c / 256) + Word(Bytes(n)) by {
      assert n == 256 * a + n % 256 && a == 256 * b + a % 256;
      assert b == 256 * c + b % 256 && c == 256 * (c / 256) + c % 256;
    }
    RemainderIs(n, c / 256, Word(Bytes(n)));
  }

  lemma RemainderIs(n: nat, q: nat, r: nat)
    requires n == UINT32 * q + r && r < UINT32
    ensures n % UINT32 == r
  {
  }

  /** The test made for each acknowledgement, in 32-bit arithmetic. */
  predicate WindowOpen(ack: nat, bytesSoFar: nat) {
    (ack + WINDOW) % UINT32 >= bytesSoFar
  }

  function HandleAck(s: Sock, ack: nat, disk: Disk): (r: Sock)
    requires s.Valid()
    ensures r.Valid()
  {
    if WindowOpen(ack, s.bytesSoFar) then AfterSend(s, disk) else s
  }

  /** The loop over the acknowledgements that are complete. */
  function HandleAcks(s: Sock, disk: Disk): (r: Sock)
    requires s.Valid()
    ensures r.Valid()
    decreases |s.sendBuf|
  {
    if |s.sendBuf| < 4 then s
    else
      var next := HandleAck(s, Word(s.sendBuf[..4]), disk);
      HandleAcks(next.(sendBuf := next.sendBuf[4..]), disk)
  }

  function AfterRead(s: Sock, data: seq<Byte>, disk: Disk): (r: Sock)
    requires s.Valid()
    ensures r.Valid()
  {
    if s.file.NoFile? then s.(closed := true)
    else if s.send then HandleAcks(s.(sendBuf := s.sendBuf + data), disk)
    else
      var total := s.bytesSoFar + |data|;
      s.(file := Store(s.file, data), bytesSoFar := total, output := s.output + Bytes(total % UINT32),
         closed := s.closed || total >= s.fileSize)
  }

  // ----- the socket ------------------------------------------------------------------------

  class CDCCSock {
    const send: bool
    const disk: Disk
    var file: File
    var sendBuf: seq<Byte>
    var bytesSoFar: nat
    var fileSize: nat
    var output: seq<Byte>
    var flushed: nat
    var readCount: nat
    var closed: bool

    ghost predicate Valid()
      reads this
    {
      flushed <= |output|
    }

    ghost function Value(): (s: Sock)
      requires Valid()
      reads this
      ensures s.Valid()
    {
      Sock(send, file, sendBuf, bytesSoFar, fileSize, output, flushed, readCount, closed)
    }

    constructor (send: bool, file: File, fileSize: nat, offset: nat, disk: Disk)
      ensures Valid() && this.disk == disk
      ensures Value() == Sock(send, file, [], offset, fileSize, [], 0, 0, false)
    {
      this.send, this.disk, this.file, this.fileSize := send, disk, file, fileSize;
      sendBuf, bytesSoFar, output, flushed, readCount, closed := [], offset, [], 0, 0, false;
    }

    method SendPacket()
      requires Valid()
      modifies this
      ensures Valid() && Value() == AfterSend(old(Value()), disk)
    {
      if file.NoFile? {
        closed := true;
        return;
      }
      if |output| - flushed > MAX_BUFFERED {
        return;
      }
      var want := disk(readCount);
      readCount := readCount + 1;
      if want < 0 {
        closed := true;
        return;
      }
      var n := Got(file, want);
      if n > 0 {
        output := output + Next(file, n);
        file := file.(pos := file.pos + n);
        bytesSoFar := bytesSoFar + n;
      } else {
        assert output + Next(file, n) == output;
      }
    }

    /** The loop of `ReadData`. */
    method TakeAcks()
      requires Valid()
      modifies this
      ensures Valid() && Value() == HandleAcks(old(Value()), disk)
    {
      ghost var start := Value();
      while |sendBuf| >= 4
        invariant Valid()
        invariant HandleAcks(Value(), disk) == HandleAcks(start, disk)
        decreases |sendBuf|
      {
        ghost var before := Value();
        var ack := Word(sendBuf[..4]);
        if (ack + WINDOW) % UINT32 >= bytesSoFar {
          SendPacket();
        }
        assert Value() == HandleAck(before, ack, disk);
        sendBuf := sendBuf[4..];
      }
    }

    method ReadData(data: seq<Byte>)
      requires Valid()
      modifies this
      ensures Valid() && Value() == AfterRead(old(Value()), data, disk)
    {
      if file.NoFile? {
        closed := true;
        return;
      }
      if send {
        sendBuf := sendBuf + data;
        TakeAcks();
      } else {
        file := Store(file, data);
        bytesSoFar := bytesSoFar + |data|;
        output := output + Bytes(bytesSoFar % UINT32);
        if bytesSoFar >= fileSize {
          closed := true;
        }
      }
    }

    method Connected()
      requires Valid()
      modifies this
      ensures Valid()
      ensures Value() == if send then AfterSend(old(Value()), disk) else old(Value())
    {
      if send {
        SendPacket();
      }
    }

    /** A DCC RESUME moves the file and the counter together. `works` is the answer of `lseek`. */
    method Seek(pos: nat, works: bool) returns (ok: bool)
      requires Valid()
      modifies this
      ensures Valid()
      ensures ok == (old(file).File? && works)
      ensures Value() == if ok then old(Value()).(file := old(file).(pos := pos), bytesSoFar := pos)
                         else old(Value())
    {
      ok := false;
      if file.File? && works {
        file := file.(pos := pos);
        bytesSoFar := pos;
        ok := true;
      }
    }
  }

  // ----- acknowledgements and fragments ----------------------------------------------------

  lemma {:induction false} HandleAcksSplit(s: Sock, more: seq<Byte>, disk: Disk)
    requires s.Valid()
    ensures var mid := HandleAcks(s, disk);
            HandleAcks(s.(sendBuf := s.sendBuf + more), disk)
              == HandleAcks(mid.(sendBuf := mid.sendBuf + more), disk)
    decreases |s.sendBuf|
  {
    if |s.sendBuf| >= 4 {
      var all := s.sendBuf + more;
      assert all[..4] == s.sendBuf[..4] && all[4..] == s.sendBuf[4..] + more;
      var next := HandleAck(s, Word(s.sendBuf[..4]), disk);
      assert HandleAck(s.(sendBuf := all), Word(all[..4]), disk) == next.(sendBuf := all);
      HandleAcksSplit(next.(sendBuf := next.sendBuf[4..]), more, disk);
    }
  }

  lemma {:induction false} HandleAcksKeeps(s: Sock, disk: Disk)
    requires s.Valid() && s.file.File?
    ensures var r := HandleAcks(s, disk);
            && r.file.File? && r.file.contents == s.file.contents && r.send == s.send
            && r.flushed == s.flushed && |r.sendBuf| < 4
    decreases |s.sendBuf|
  {
    if |s.sendBuf| >= 4 {
      var next := HandleAck(s, Word(s.sendBuf[..4]), disk);
      HandleAcksKeeps(next.(sendBuf := next.sendBuf[4..]), disk);
    }
  }

  /** Only a failed read closes a sender, and it stays closed. */
  lemma {:induction false} HandleAcksCloses(s: Sock, disk: Disk)
    requires s.Valid() && s.file.File?
    ensures s.closed ==> HandleAcks(s, disk).closed
    ensures !s.closed && (forall k :: disk(k) >= 0) ==> !HandleAcks(s, disk).closed
    decreases |s.sendBuf|
  {
    if |s.sendBuf| >= 4 {
      var next := HandleAck(s, Word(s.sendBuf[..4]), disk);
      HandleAcksCloses(next.(sendBuf := next.sendBuf[4..]), disk);
    }
  }

  /** A sender does the same whether acknowledgement bytes arrive in one read or in two. */
  lemma FragmentsAgree(s: Sock, a: seq<Byte>, b: seq<Byte>, disk: Disk)
    requires s.Valid() && s.send
    ensures AfterRead(s, a + b, disk) == AfterRead(AfterRead(s, a, disk), b, disk)
  {
    if s.file.File? {
      var first := s.(sendBuf := s.sendBuf + a);
      assert s.sendBuf + (a + b) == first.sendBuf + b;
      HandleAcksSplit(first, b, disk);
      HandleAcksKeeps(first, disk);
    }
  }

  // ----- one sender, any run ---------------------------------------------------------------

  /** What was written is the file from where the transfer started to the counter. */
  predicate Sending(s: Sock, start: nat) {
    && s.Valid() && s.send && s.file.File?
    && s.file.pos == s.bytesSoFar && start <= s.bytesSoFar <= Max(start, |s.file.contents|)
    && s.output == if s.bytesSoFar == start then [] else s.file.contents[start..s.bytesSoFar]
  }

  lemma SendPacketSends(s: Sock, start: nat, disk: Disk)
    requires Sending(s, start)
    ensures Sending(AfterSend(s, disk), start)
    ensures AfterSend(s, disk).bytesSoFar <= s.bytesSoFar + PACKET
  {
    if |s.output| - s.flushed <= MAX_BUFFERED && disk(s.readCount) >= 0 {
      SliceGrows(s.file, start, Got(s.file, disk(s.readCount)));
    }
  }

  lemma SliceGrows(f: File, start: nat, n: nat)
    requires f.File? && start <= f.pos <= Max(start, |f.contents|)
    requires f.pos + n <= Max(f.pos, |f.contents|)
    ensures (if f.pos == start then [] else f.contents[start..f.pos]) + Next(f, n)
         == if f.pos + n == start then [] else f.contents[start..f.pos + n]
  {
  }

  /** No acknowledgement in a stream of bytes is higher than hi. */
  predicate AcksAtMost(stream: seq<Byte>, hi: nat) {
    |stream| < 4 || (Word(stream[..4]) <= hi && AcksAtMost(stream[4..], hi))
  }

  /** No more than a window and a packet beyond the highest acknowledgement. */
  predicate InWindow(bytesSoFar: nat, start: nat, hi: nat) {
    bytesSoFar <= Max(start, hi + WINDOW) + PACKET
  }

  lemma HandleAckSends(s: Sock, ack: nat, start: nat, hi: nat, disk: Disk)
    requires Sending(s, start) && InWindow(s.bytesSoFar, start, hi) && ack <= hi
    ensures var r := HandleAck(s, ack, disk); Sending(r, start) && InWindow(r.bytesSoFar, start, hi)
  {
    if WindowOpen(ack, s.bytesSoFar) {
      SendPacketSends(s, start, disk);
      SumWraps(ack);
    }
  }

  lemma SumWraps(ack: nat)
    ensures (ack + WINDOW) % UINT32 <= ack + WINDOW
  {
  }

  lemma {:induction false} AcksSend(s: Sock, start: nat, hi: nat, disk: Disk)
    requires Sending(s, start) && InWindow(s.bytesSoFar, start, hi) && AcksAtMost(s.sendBuf, hi)
    ensures var r := HandleAcks(s, disk); Sending(r, start) && InWindow(r.bytesSoFar, start, hi)
    decreases |s.sendBuf|
  {
    if |s.sendBuf| >= 4 {
      var ack := Word(s.sendBuf[..4]);
      HandleAckSends(s, ack, start, hi, disk);
      var next := HandleAck(s, ack, disk);
      AcksSend(next.(sendBuf := next.sendBuf[4..]), start, hi, disk);
    }
  }

  datatype Event = Arrived(data: seq<Byte>) | Flushed(n: nat)

  function Flush(s: Sock, n: nat): Sock {
    s.(flushed := Min(s.flushed + n, |s.output|))
  }

  function Run(s: Sock, events: seq<Event>, disk: Disk): (r: Sock)
    requires s.Valid()
    ensures r.Valid()
    decreases |events|
  {
    if events == [] then s
    else match events[0]
      case Arrived(data) => Run(AfterRead(s, data, disk), events[1..], disk)
      case Flushed(n) => Run(Flush(s, n), events[1..], disk)
  }

  /** Everything that arrives in a run. */
  function Stream(events: seq<Event>): seq<Byte> {
    if events == [] then []
    else (if events[0].Arrived? then events[0].data else []) + Stream(events[1..])
  }

  lemma {:induction false} AcksPrefix(a: seq<Byte>, b: seq<Byte>, hi: nat)
    requires AcksAtMost(a + b, hi)
    ensures AcksAtMost(a, hi)
    decreases |a|
  {
    if |a| >= 4 {
      assert (a + b)[..4] == a[..4] && (a + b)[4..] == a[4..] + b;
      AcksPrefix(a[4..], b, hi);
    }
  }

  /** What is left in the buffer, followed by more, ends what was there before. */
  lemma {:induction false} AcksLater(s: Sock, more: seq<Byte>, hi: nat, disk: Disk)
    requires s.Valid() && AcksAtMost(s.sendBuf + more, hi)
    ensures AcksAtMost(HandleAcks(s, disk).sendBuf + more, hi)
    decreases |s.sendBuf|
  {
    if |s.sendBuf| >= 4 {
      var all := s.sendBuf + more;
      assert all[4..] == s.sendBuf[4..] + more;
      var next := HandleAck(s, Word(s.sendBuf[..4]), disk);
      AcksLater(next.(sendBuf := next.sendBuf[4..]), more, hi, disk);
    }
  }

  /** Over any run: what was written is the slice of the file that the counter says, and the
      counter stays within the window of the highest acknowledgement `hi`, although the sum with
      the window may wrap. */
  lemma {:induction false} RunSends(s: Sock, start: nat, hi: nat, events: seq<Event>, disk: Disk)
    requires Sending(s, start) && InWindow(s.bytesSoFar, start, hi)
    requires AcksAtMost(s.sendBuf + Stream(events), hi)
    ensures var r := Run(s, events, disk); Sending(r, start) && InWindow(r.bytesSoFar, start, hi)
    decreases |events|
  {
    if events != [] {
      var rest := Stream(events[1..]);
      if events[0].Arrived? {
        var fed := s.(sendBuf := s.sendBuf + events[0].data);
        assert s.sendBuf + Stream(events) == fed.sendBuf + rest;
        AcksPrefix(fed.sendBuf, rest, hi);
        AcksSend(fed, start, hi, disk);
        AcksLater(fed, rest, hi, disk);
        RunSends(AfterRead(s, events[0].data, disk), start, hi, events[1..], disk);
      } else {
        assert s.sendBuf + Stream(events) == s.sendBuf + rest;
        RunSends(Flush(s, events[0].n), start, hi, events[1..], disk);
      }
    }
  }

  /** For an acknowledgement of data that was really sent, the test differs from the intended
      comparison exactly in the last 64 KiB below 4 GiB. */
  lemma WindowOpenIff(ack: nat, bytesSoFar: nat)
    requires ack <= bytesSoFar < UINT32
    ensures WindowOpen(ack, bytesSoFar) <==> bytesSoFar <= ack + WINDOW && ack < UINT32 - WINDOW
  {
    if ack < UINT32 - WINDOW {
      assert (ack + WINDOW) % UINT32 == ack + WINDOW;
    } else {
      assert (ack + WINDOW) % UINT32 == ack + WINDOW - UINT32;
    }
  }
}
