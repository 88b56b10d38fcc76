/** Two sockets of the dcc module sending a file to each other: the sender's data and the
    receiver's acknowledgements travel in order, in pieces of any size. */
module DccTransfer {
  import opened Common
  import opened Octets
  import opened DccSend

  /** `toRx` and `toTx` count the bytes that have arrived at either side. */
  datatype Net = Net(tx: Sock, rx: Sock, toRx: nat, toTx: nat, connected: bool) {
    predicate Valid() {
      && tx.Valid() && rx.Valid() && !rx.send && rx.file.File?
      && toRx <= tx.flushed && toTx <= |rx.output|
    }
  }

  /** What is sent: a file, from an offset that is zero unless the transfer was resumed. */
  datatype Job = Job(contents: seq<Byte>, start: nat) {
    /** The sender refuses larger files, and nobody resumes beyond the end. */
    predicate Valid() {
      start <= |contents| < UINT32
    }
  }

  /** The sender stands at the offset, the receiver has everything before it. */
  function Start(job: Job): Net
    requires job.Valid()
  {
    Net(Sock(true, File(job.contents, job.start), [], job.start, |job.contents|, [], 0, 0, false),
        Sock(false, File(job.contents[..job.start], job.start), [], job.start, |job.contents|, [], 0, 0, false),
        0, 0, false)
  }

  /** `DataArrives` delivers up to n bytes in one read; acknowledgements arrive a byte at a time,
      which is no restriction (`AcksArriveTogether`). */
  datatype Event = Connect | Leaves(n: nat) | DataArrives(n: nat) | AckArrives

  /** The next m bytes that left the sender reach the receiver. */
  function Deliver(s: Net, m: nat, disk: Disk): (r: Net)
    requires s.Valid() && s.toRx + m <= s.tx.flushed
    ensures r.Valid()
  {
    s.(rx := AfterRead(s.rx, s.tx.output[s.toRx..s.toRx + m], disk), toRx := s.toRx + m)
  }

  function Step(s: Net, e: Event, disk: Disk): (r: Net)
    requires s.Valid()
    ensures r.Valid()
  {
    match e
    case Connect =>
      if s.connected then s else s.(tx := AfterSend(s.tx, disk), connected := true)
    case Leaves(n) => s.(tx := Flush(s.tx, n))
    case DataArrives(n) =>
      var m := Min(n, s.tx.flushed - s.toRx);
      if s.rx.closed || m == 0 then s
      else Deliver(s, m, disk)
    case AckArrives =>
      if s.tx.closed || s.toTx == |s.rx.output| then s
      else
        var after := AfterRead(s.tx, [s.rx.output[s.toTx]], disk);
        HandleAcksFlushed(s.tx, [s.rx.output[s.toTx]], disk);
        s.(tx := after, toTx := s.toTx + 1)
  }

  lemma HandleAcksFlushed(s: Sock, data: seq<Byte>, disk: Disk)
    requires s.Valid()
    ensures AfterRead(s, data, disk).flushed == s.flushed
  {
    if s.file.File? {
      HandleAcksKeeps(s.(sendBuf := s.sendBuf + data), disk);
    }
  }

  function Run(s: Net, events: seq<Event>, disk: Disk): (r: Net)
    requires s.Valid()
    ensures r.Valid()
    decreases |events|
  {
    if events == [] then s else Run(Step(s, events[0], disk), events[1..], disk)
  }

  // ----- the invariant ---------------------------------------------------------------------

  /** The k-th acknowledgement the receiver wrote. */
  function Ack(output: seq<Byte>, k: nat): nat
    requires 4 * k + 4 <= |output|
  {
    Word(output[4 * k..4 * k + 4])
  }

  /** Acknowledgements are whole and never exceed the receiver's total; the last one is that number. */
  ghost predicate Honest(output: seq<Byte>, start: nat, total: nat) {
    && |output| % 4 == 0
    && (output == [] <==> total == start)
    && (output != [] ==> Ack(output, |output| / 4 - 1) == total)
    && forall k: nat :: 4 * k + 4 <= |output| ==> Ack(output, k) <= total
  }

  predicate Received(rx: Sock, job: Job, n: nat) {
    && !rx.send && n <= |job.contents| && rx.file == File(job.contents[..n], n) && rx.bytesSoFar == n
    && rx.fileSize == |job.contents| && (rx.closed ==> n == |job.contents|)
  }

  predicate Sender(tx: Sock, job: Job) {
    job.Valid() && Sending(tx, job.start) && tx.file.contents == job.contents
  }

  /** The bytes of an incomplete acknowledgement wait in the sender's buffer. */
  predicate Waiting(tx: Sock, output: seq<Byte>, n: nat) {
    |tx.sendBuf| == n % 4 && |tx.sendBuf| <= n <= |output| && tx.sendBuf == output[n - |tx.sendBuf|..n]
  }

  /** The receiver's total. */
  function Total(s: Net, job: Job): nat {
    job.start + s.toRx
  }

  /** The receiver holds a prefix of the file, the sender is at most a window and a packet ahead. */
  ghost predicate Inv(s: Net, job: Job) {
    && s.Valid()
    && Sender(s.tx, job) && Received(s.rx, job, Total(s, job))
    && s.tx.bytesSoFar <= Total(s, job) + WINDOW + PACKET
    && Honest(s.rx.output, job.start, Total(s, job))
    && Waiting(s.tx, s.rx.output, s.toTx)
  }

  predicate Quiet(s: Net) {
    s.connected && s.toRx == |s.tx.output| && s.toTx == |s.rx.output|
  }

  /** Everything sent, the last read failed, or the counter is where 32 bits do not suffice. */
  predicate Settled(s: Net, job: Job) {
    s.tx.bytesSoFar == |job.contents| || s.tx.closed || s.tx.bytesSoFar >= UINT32 - WINDOW
  }

  lemma StartInv(job: Job)
    requires job.Valid()
    ensures Inv(Start(job), job)
  {
  }

  // Data arriving at the receiver.

  lemma HonestGrows(output: seq<Byte>, bytes: seq<Byte>, start: nat, total: nat, more: nat)
    requires Honest(output, start, total) && more > 0 && |bytes| == 4 && Word(bytes) == total + more
    requires start <= total
    ensures Honest(output + bytes, start, total + more)
  {
    var all := output + bytes;
    forall k: nat | 4 * k + 4 <= |all|
      ensures Ack(all, k) == if 4 * k + 4 <= |output| then Ack(output, k) else total + more
    {
      if 4 * k + 4 <= |output| {
        assert all[4 * k..4 * k + 4] == output[4 * k..4 * k + 4];
      } else {
        LastWord(output, bytes, k);
      }
    }
  }

  lemma LastWord(output: seq<Byte>, bytes: seq<Byte>, k: nat)
    requires |output| % 4 == 0 && |bytes| == 4 && |output| < 4 * k + 4 <= |output| + 4
    ensures (output + bytes)[4 * k..4 * k + 4] == bytes
  {
    assert 4 * k == |output|;
  }

  lemma StorePrefix(contents: seq<Byte>, data: seq<Byte>, at: nat)
    requires at + |data| <= |contents| && data == contents[at..at + |data|]
    ensures Store(File(contents[..at], at), data) == File(contents[..at + |data|], at + |data|)
  {
    assert contents[..at][..at] == contents[..at];
    assert contents[..at] + data == contents[..at + |data|];
  }

  /** What the sender wrote is the file from the offset to the counter. */
  lemma SentSlice(tx: Sock, job: Job)
    requires Sender(tx, job)
    ensures tx.bytesSoFar <= |job.contents| && tx.output == job.contents[job.start..tx.bytesSoFar]
  {
  }

  lemma SentPart(tx: Sock, job: Job, at: nat, m: nat)
    requires Sender(tx, job) && at + m <= |tx.output|
    ensures job.start + at + m <= |job.contents|
    ensures tx.output[at..at + m] == job.contents[job.start + at..job.start + at + m]
  {
    SentSlice(tx, job);
    PartOfSlice(job.contents, job.start, tx.bytesSoFar, at, m);
  }

  lemma PartOfSlice(s: seq<Byte>, from: nat, to: nat, at: nat, m: nat)
    requires from <= to <= |s| && at + m <= to - from
    ensures s[from..to][at..at + m] == s[from + at..from + at + m]
  {
    var slice, part := s[from..to], s[from + at..from + at + m];
    forall i | 0 <= i < m ensures part[i] == slice[at..at + m][i] {
    }
  }

  /** What n more bytes of the file, the first at a position, make of the receiver. */
  predicate HasRead(rx: Sock, r: Sock, job: Job, at: nat, n: nat) {
    && Received(r, job, at + n) && r.output == rx.output + Bytes((at + n) % UINT32)
    && (r.closed <==> rx.closed || at + n >= |job.contents|)
  }

  lemma ReceiverReads(rx: Sock, job: Job, data: seq<Byte>, at: nat, disk: Disk)
    requires rx.Valid() && Received(rx, job, at) && at + |data| <= |job.contents|
    requires data == job.contents[at..at + |data|]
    ensures HasRead(rx, AfterRead(rx, data, disk), job, at, |data|)
  {
    StorePrefix(job.contents, data, at);
  }

  lemma SentData(s: Net, m: nat, job: Job) returns (data: seq<Byte>)
    requires s.Valid() && Sender(s.tx, job) && s.toRx + m <= s.tx.flushed
    ensures data == s.tx.output[s.toRx..s.toRx + m] && |data| == m
    ensures Total(s, job) + m <= |job.contents| && data == job.contents[Total(s, job)..Total(s, job) + m]
  {
    data := s.tx.output[s.toRx..s.toRx + m];
    SentPart(s.tx, job, s.toRx, m);
  }

  lemma DeliverReads(s: Net, m: nat, job: Job, disk: Disk)
    requires s.Valid() && Sender(s.tx, job) && Received(s.rx, job, Total(s, job)) && s.toRx + m <= s.tx.flushed
    ensures Total(s, job) + m <= |job.contents|
    ensures HasRead(s.rx, Deliver(s, m, disk).rx, job, Total(s, job), m)
  {
    var data := SentData(s, m, job);
    ReceiverReads(s.rx, job, data, Total(s, job), disk);
  }

  /** So many more bytes have arrived, and their acknowledgement has not. */
  ghost predicate Arrived(s: Net, r: Net, m: nat, job: Job) {
    && Inv(r, job) && !Quiet(r)
    && r.tx == s.tx && r.toRx == s.toRx + m && r.toTx == s.toTx && r.connected == s.connected
    && |r.rx.output| == |s.rx.output| + 4
    && (r.rx.closed <==> s.rx.closed || Total(r, job) >= |job.contents|)
  }

  lemma StaysHonest(rx: Sock, r: Sock, job: Job, at: nat, n: nat)
    requires HasRead(rx, r, job, at, n) && Honest(rx.output, job.start, at)
    requires n > 0 && job.start <= at && at + n < UINT32
    ensures Honest(r.output, job.start, at + n)
  {
    WordOfBytes((at + n) % UINT32);
    HonestGrows(rx.output, Bytes((at + n) % UINT32), job.start, at, n);
  }

  lemma HasArrived(s: Net, r: Net, m: nat, job: Job)
    requires Inv(s, job) && m > 0 && s.toRx + m <= s.tx.flushed
    requires r == s.(rx := r.rx, toRx := s.toRx + m) && r.rx.Valid()
    requires HasRead(s.rx, r.rx, job, Total(s, job), m) && Honest(r.rx.output, job.start, Total(r, job))
    ensures Arrived(s, r, m, job)
  {
    StillWaiting(s.tx, s.rx.output, r.rx.output, s.toTx);
  }

  lemma DeliverInv(s: Net, m: nat, job: Job, disk: Disk)
    requires Inv(s, job) && 0 < m <= s.tx.flushed - s.toRx
    ensures Arrived(s, Deliver(s, m, disk), m, job)
  {
    var r := Deliver(s, m, disk);
    DeliverReads(s, m, job, disk);
    StaysHonest(s.rx, r.rx, job, Total(s, job), m);
    HasArrived(s, r, m, job);
  }

  lemma DataArrivesInv(s: Net, n: nat, job: Job, disk: Disk)
    requires Inv(s, job)
    ensures Inv(Step(s, DataArrives(n), disk), job)
    ensures var r := Step(s, DataArrives(n), disk); r != s ==> !Quiet(r)
  {
    var m := Min(n, s.tx.flushed - s.toRx);
    if !s.rx.closed && m > 0 {
      DeliverInv(s, m, job, disk);
    }
  }

  lemma StillWaiting(tx: Sock, output: seq<Byte>, longer: seq<Byte>, n: nat)
    requires Waiting(tx, output, n) && output <= longer
    ensures Waiting(tx, longer, n)
  {
  }

  // The sender's side.

  /** A packet sent by an acknowledgement, or by the connection being made. While data beyond the
      last arrival is at most a window, the write buffer is never too full to go on. */
  lemma SendInWindow(s: Net, job: Job, disk: Disk)
    requires Inv(s, job) && s.tx.bytesSoFar <= Total(s, job) + WINDOW
    ensures var tx := AfterSend(s.tx, disk);
            && Sender(tx, job) && tx.bytesSoFar <= Total(s, job) + WINDOW + PACKET
            && (tx.bytesSoFar == s.tx.bytesSoFar ==> tx.bytesSoFar == |job.contents| || tx.closed)
            && tx.flushed == s.tx.flushed && tx.sendBuf == s.tx.sendBuf
            && tx.readCount == s.tx.readCount + 1
  {
    SendPacketSends(s.tx, job.start, disk);
    SentSlice(s.tx, job);
    assert |s.tx.output| - s.tx.flushed <= MAX_BUFFERED;
  }

  lemma ConnectInv(s: Net, job: Job, disk: Disk)
    requires Inv(s, job) && !s.connected && s.tx.bytesSoFar == job.start
    ensures var r := Step(s, Connect, disk);
            Inv(r, job) && (Quiet(r) ==> Settled(r, job)) && r.tx.readCount == s.tx.readCount + 1
  {
    SendInWindow(s, job, disk);
  }

  lemma PartialAck(s: Net, job: Job, disk: Disk)
    requires Inv(s, job) && !s.tx.closed && s.toTx < |s.rx.output| && s.toTx % 4 != 3
    ensures var r := Step(s, AckArrives, disk); Inv(r, job) && !Quiet(r)
  {
    var fed := s.tx.(sendBuf := s.tx.sendBuf + [s.rx.output[s.toTx]]);
    NotYet(s.tx, s.rx.output, s.toTx);
    FewBytes(s.tx, s.rx.output[s.toTx], disk);
    SenderInv(s, fed, job);
    NotAtEnd(s.rx.output, job.start, Total(s, job), s.toTx);
  }

  lemma FewBytes(tx: Sock, b: Byte, disk: Disk)
    requires tx.Valid() && tx.send && tx.file.File? && |tx.sendBuf| < 3
    ensures AfterRead(tx, [b], disk) == tx.(sendBuf := tx.sendBuf + [b])
  {
  }

  /** Acknowledgements are whole, so a part of one is never all there is. */
  lemma NotAtEnd(output: seq<Byte>, start: nat, total: nat, n: nat)
    requires Honest(output, start, total) && n < |output| && n % 4 != 3
    ensures n + 1 < |output|
  {
  }

  lemma NotYet(tx: Sock, output: seq<Byte>, n: nat)
    requires Waiting(tx, output, n) && n % 4 != 3 && n < |output|
    ensures Waiting(tx.(sendBuf := tx.sendBuf + [output[n]]), output, n + 1)
    ensures |tx.sendBuf + [output[n]]| < 4 && (n + 1) % 4 != 0
  {
  }

  lemma FlushedInv(s: Net, tx: Sock, job: Job)
    requires Inv(s, job) && tx == s.tx.(flushed := tx.flushed) && s.tx.flushed <= tx.flushed <= |tx.output|
    ensures Inv(s.(tx := tx), job)
  {
  }

  /** The invariant after another acknowledgement byte. */
  lemma SenderInv(s: Net, tx: Sock, job: Job)
    requires Inv(s, job) && s.toTx < |s.rx.output|
    requires Sender(tx, job) && tx.bytesSoFar <= Total(s, job) + WINDOW + PACKET
    requires tx.flushed == s.tx.flushed && Waiting(tx, s.rx.output, s.toTx + 1)
    ensures Inv(s.(tx := tx, toTx := s.toTx + 1), job)
  {
  }

  lemma OneAck(tx: Sock, b: Byte, disk: Disk)
    requires tx.Valid() && tx.send && tx.file.File? && |tx.sendBuf| == 3
    ensures AfterRead(tx, [b], disk)
         == HandleAck(tx, Word(tx.sendBuf + [b]), disk).(sendBuf := [])
  {
    OneWord(tx.(sendBuf := tx.sendBuf + [b]), disk);
  }

  /** A buffer with exactly one acknowledgement in it. */
  lemma OneWord(fed: Sock, disk: Disk)
    requires fed.Valid() && fed.file.File? && |fed.sendBuf| == 4
    ensures HandleAcks(fed, disk) == HandleAck(fed, Word(fed.sendBuf), disk).(sendBuf := [])
  {
    assert fed.sendBuf[..4] == fed.sendBuf && fed.sendBuf[4..] == [];
    var next := HandleAck(fed, Word(fed.sendBuf), disk);
    assert HandleAcks(next.(sendBuf := []), disk) == next.(sendBuf := []);
  }

  /** The byte that completes an acknowledgement completes the one that was written. */
  lemma AckCompletes(tx: Sock, output: seq<Byte>, n: nat)
    requires Waiting(tx, output, n) && n % 4 == 3 && n < |output|
    ensures n + 1 == 4 * (n / 4) + 4 && Word(tx.sendBuf + [output[n]]) == Ack(output, n / 4)
  {
    assert n == 4 * (n / 4) + 3;
    assert tx.sendBuf + [output[n]] == output[n - 3..n + 1];
  }

  lemma HandleAckInv(s: Net, ack: nat, job: Job, disk: Disk)
    requires Inv(s, job) && ack <= Total(s, job)
    ensures var tx := HandleAck(s.tx, ack, disk);
            && Sender(tx, job) && tx.bytesSoFar <= Total(s, job) + WINDOW + PACKET
            && tx.flushed == s.tx.flushed
            && (tx.bytesSoFar == ack ==> Settled(s.(tx := tx), job))
  {
    SentSlice(s.tx, job);
    WindowOpenIff(ack, s.tx.bytesSoFar);
    if WindowOpen(ack, s.tx.bytesSoFar) {
      SendInWindow(s, job, disk);
    }
  }

  /** The whole acknowledgement is of data that was sent, so the test means what it should below
      the last window. */
  lemma WholeAckInv(s: Net, job: Job, disk: Disk)
    requires Inv(s, job) && s.connected
    requires !s.tx.closed && s.toTx < |s.rx.output| && s.toTx % 4 == 3
    ensures var r := Step(s, AckArrives, disk); Inv(r, job) && (Quiet(r) ==> Settled(r, job))
  {
    var ack := Ack(s.rx.output, s.toTx / 4);
    AckCompletes(s.tx, s.rx.output, s.toTx);
    OneAck(s.tx, s.rx.output[s.toTx], disk);
    HandleAckInv(s, ack, job, disk);
    AckTaken(s, Step(s, AckArrives, disk), job);
  }

  /** The last acknowledgement there is tells how much has arrived. */
  lemma AckTaken(s: Net, r: Net, job: Job)
    requires Inv(s, job) && s.toTx < |s.rx.output| && s.toTx % 4 == 3
    requires 4 * (s.toTx / 4) + 4 == s.toTx + 1
    requires r == s.(tx := r.tx, toTx := s.toTx + 1) && r.tx.sendBuf == []
    requires Sender(r.tx, job) && r.tx.bytesSoFar <= Total(s, job) + WINDOW + PACKET
    requires r.tx.flushed == s.tx.flushed
    requires r.tx.bytesSoFar == Ack(s.rx.output, s.toTx / 4) ==> Settled(r, job)
    ensures Inv(r, job) && (Quiet(r) ==> Settled(r, job))
  {
    SenderInv(s, r.tx, job);
    SentSlice(r.tx, job);
    if s.toTx + 1 == |s.rx.output| {
      assert s.toTx / 4 == |s.rx.output| / 4 - 1;
    }
  }

  /** What every reachable state satisfies. */
  ghost predicate Good(s: Net, job: Job) {
    && Inv(s, job)
    && (!s.connected ==> s.tx.bytesSoFar == job.start)
    && (Quiet(s) ==> Settled(s, job))
  }

  lemma StartGood(job: Job)
    requires job.Valid()
    ensures Good(Start(job), job)
  {
    StartInv(job);
  }

  lemma StepGood(s: Net, e: Event, job: Job, disk: Disk)
    requires Good(s, job)
    ensures Good(Step(s, e, disk), job)
  {
    match e
    case Connect =>
      if !s.connected {
        ConnectInv(s, job, disk);
      }
    case Leaves(n) => FlushedInv(s, Flush(s.tx, n), job);
    case DataArrives(n) => DataArrivesInv(s, n, job, disk);
    case AckArrives =>
      if !s.tx.closed && s.toTx < |s.rx.output| {
        if s.toTx % 4 == 3 {
          WholeAckInv(s, job, disk);
        } else {
          PartialAck(s, job, disk);
        }
      }
  }

  lemma {:induction false} RunGood(s: Net, events: seq<Event>, job: Job, disk: Disk)
    requires Good(s, job)
    ensures Good(Run(s, events, disk), job)
    decreases |events|
  {
    if events != [] {
      StepGood(s, events[0], job, disk);
      RunGood(Step(s, events[0], disk), events[1..], job, disk);
    }
  }

  // ----- where the reads leave the sender --------------------------------------------------

  /** No read fails. */
  ghost predicate Works(disk: Disk) {
    forall k :: disk(k) >= 0
  }

  /** The counter after k reads. */
  function Boundary(job: Job, disk: Disk, k: nat): (b: nat)
    requires job.Valid()
    ensures job.start <= b <= |job.contents|
  {
    if k == 0 then job.start
    else
      var before := Boundary(job, disk, k - 1);
      before + Got(File(job.contents, before), disk(k - 1))
  }

  lemma BoundaryGrows(job: Job, disk: Disk, i: nat, j: nat)
    requires job.Valid() && i <= j
    ensures Boundary(job, disk, i) <= Boundary(job, disk, j)
  {
    if i < j {
      BoundaryGrows(job, disk, i, j - 1);
    }
  }

  predicate AtBoundary(tx: Sock, job: Job, disk: Disk)
    requires job.Valid()
  {
    !tx.closed && tx.bytesSoFar == Boundary(job, disk, tx.readCount)
  }

  lemma SendAtBoundary(tx: Sock, job: Job, disk: Disk)
    requires Sender(tx, job) && AtBoundary(tx, job, disk) && Works(disk)
    ensures AtBoundary(AfterSend(tx, disk), job, disk) && Sender(AfterSend(tx, disk), job)
    ensures AfterSend(tx, disk).readCount >= tx.readCount
  {
    SendPacketSends(tx, job.start, disk);
    assert tx.file == File(job.contents, tx.bytesSoFar);
  }

  lemma {:induction false} AcksAtBoundary(tx: Sock, job: Job, disk: Disk)
    requires Sender(tx, job) && AtBoundary(tx, job, disk) && Works(disk)
    ensures AtBoundary(HandleAcks(tx, disk), job, disk) && HandleAcks(tx, disk).readCount >= tx.readCount
    decreases |tx.sendBuf|
  {
    if |tx.sendBuf| >= 4 {
      SendAtBoundary(tx, job, disk);
      var next := HandleAck(tx, Word(tx.sendBuf[..4]), disk);
      AcksAtBoundary(next.(sendBuf := next.sendBuf[4..]), job, disk);
    }
  }

  ghost predicate Steady(s: Net, job: Job, disk: Disk)
    requires job.Valid()
  {
    AtBoundary(s.tx, job, disk) && (s.connected ==> s.tx.readCount > 0)
  }

  lemma StepSteady(s: Net, e: Event, job: Job, disk: Disk)
    requires Good(s, job) && Steady(s, job, disk) && Works(disk)
    ensures Steady(Step(s, e, disk), job, disk)
  {
    if e.Connect? && !s.connected {
      SendAtBoundary(s.tx, job, disk);
      ConnectInv(s, job, disk);
    } else if e.AckArrives? && s.toTx < |s.rx.output| {
      AcksAtBoundary(s.tx.(sendBuf := s.tx.sendBuf + [s.rx.output[s.toTx]]), job, disk);
    }
  }

  lemma {:induction false} RunSteady(s: Net, events: seq<Event>, job: Job, disk: Disk)
    requires Good(s, job) && Steady(s, job, disk) && Works(disk)
    ensures Steady(Run(s, events, disk), job, disk)
    decreases |events|
  {
    if events != [] {
      StepGood(s, events[0], job, disk);
      StepSteady(s, events[0], job, disk);
      RunSteady(Step(s, events[0], disk), events[1..], job, disk);
    }
  }

  // ----- complete transfers ----------------------------------------------------------------

  /** At every moment of every run the receiver has a prefix of the file, and when nothing is left
      to arrive it has all of it, unless the counter reached the last 64 KiB below 4 GiB. */
  lemma TransferArrives(job: Job, events: seq<Event>, disk: Disk)
    requires job.Valid() && Works(disk)
    ensures var s := Run(Start(job), events, disk);
            && s.rx.file.File? && s.rx.file.contents <= job.contents
            && (Quiet(s) ==> s.rx.file.contents == job.contents || s.tx.bytesSoFar >= UINT32 - WINDOW)
  {
    StartGood(job);
    RunGood(Start(job), events, job, disk);
    RunSteady(Start(job), events, job, disk);
    SentSlice(Run(Start(job), events, disk).tx, job);
  }

  // ----- acknowledgements that arrive together ---------------------------------------------

  function Times(n: nat): (r: seq<Event>)
    ensures |r| == n && forall i :: 0 <= i < n ==> r[i] == AckArrives
  {
    seq(n, _ => AckArrives)
  }

  lemma FirstOfMany(s: Net, data: seq<Byte>, disk: Disk)
    requires s.Valid() && s.tx.send && s.tx.file.File? && s.toTx < |s.rx.output|
    requires data != [] && data[0] == s.rx.output[s.toTx] && !AfterRead(s.tx, data, disk).closed
    ensures var next := Step(s, AckArrives, disk);
            && next == s.(tx := next.tx, toTx := s.toTx + 1)
            && next.tx.send && next.tx.file.File? && |next.tx.sendBuf| < 4
            && AfterRead(next.tx, data[1..], disk) == AfterRead(s.tx, data, disk)
  {
    assert data == [data[0]] + data[1..];
    FragmentsAgree(s.tx, [data[0]], data[1..], disk);
    HandleAcksKeeps(s.tx.(sendBuf := s.tx.sendBuf + [data[0]]), disk);
    HandleAcksCloses(s.tx.(sendBuf := s.tx.sendBuf + data), disk);
  }

  /** Delivering acknowledgement bytes one by one is delivering them in one read, as long as no
      read of the file fails on the way. */
  lemma AcksArriveTogether(s: Net, n: nat, disk: Disk)
    requires s.Valid() && s.tx.send && s.tx.file.File? && s.toTx + n <= |s.rx.output|
    requires n > 0 ==> !AfterRead(s.tx, s.rx.output[s.toTx..s.toTx + n], disk).closed
    ensures Run(s, Times(n), disk)
         == if n == 0 then s
            else s.(tx := AfterRead(s.tx, s.rx.output[s.toTx..s.toTx + n], disk), toTx := s.toTx + n)
  {
    BytesArriveTogether(s, s.rx.output[s.toTx..s.toTx + n], disk);
  }

  lemma {:induction false} BytesArriveTogether(s: Net, data: seq<Byte>, disk: Disk)
    requires s.Valid() && s.tx.send && s.tx.file.File? && IsNext(s.rx.output, s.toTx, data)
    requires data != [] ==> !AfterRead(s.tx, data, disk).closed
    ensures Run(s, Times(|data|), disk)
         == if data == [] then s else s.(tx := AfterRead(s.tx, data, disk), toTx := s.toTx + |data|)
    decreases |data|
  {
    if data != [] {
      var next := Step(s, AckArrives, disk);
      NextIsLess(s.rx.output, s.toTx, data);
      FirstOfMany(s, data, disk);
      TimesFront(s, |data|, disk);
      BytesArriveTogether(next, data[1..], disk);
      if data[1..] == [] {
        NothingRead(next.tx, disk);
      }
    }
  }

  predicate IsNext(output: seq<Byte>, at: nat, data: seq<Byte>) {
    at + |data| <= |output| && data == output[at..at + |data|]
  }

  lemma NextIsLess(output: seq<Byte>, at: nat, data: seq<Byte>)
    requires IsNext(output, at, data) && data != []
    ensures data[0] == output[at] && IsNext(output, at + 1, data[1..])
  {
    assert data[1..] == output[at + 1..at + |data|];
  }

  lemma TimesFront(s: Net, n: nat, disk: Disk)
    requires s.Valid() && n > 0
    ensures Run(s, Times(n), disk) == Run(Step(s, AckArrives, disk), Times(n - 1), disk)
  {
    assert Times(n)[1..] == Times(n - 1);
  }

  lemma NothingRead(tx: Sock, disk: Disk)
    requires tx.Valid() && tx.send && tx.file.File? && |tx.sendBuf| < 4
    ensures AfterRead(tx, [], disk) == tx
  {
    assert tx.sendBuf + [] == tx.sendBuf;
  }

  // ----- the transfers that do not complete ------------------------------------------------

  /** After m packets have been acknowledged one at a time, with the next one written. */
  ghost predicate Locked(s: Net, m: nat, job: Job, disk: Disk) {
    && Inv(s, job) && s.connected && AtBoundary(s.tx, job, disk) && !s.rx.closed
    && s.tx.readCount == m + 1 && Total(s, job) == Boundary(job, disk, m)
    && s.toRx == s.tx.flushed && s.toTx == |s.rx.output|
  }

  /** One more packet has arrived, and four bytes of acknowledgement are on their way. */
  ghost predicate Answered(s: Net, m: nat, job: Job, disk: Disk) {
    && Inv(s, job) && s.connected && AtBoundary(s.tx, job, disk) && !s.rx.closed
    && s.tx.readCount == m + 1 && Total(s, job) == s.tx.bytesSoFar
    && s.toRx == s.tx.flushed && s.toTx + 4 == |s.rx.output|
  }

  /** Nothing is on its way, and part of the file is missing. */
  predicate Stuck(s: Net, job: Job) {
    Quiet(s) && s.rx.file.File? && s.rx.file.contents != job.contents
  }

  function Packet(): seq<Event> {
    [Leaves(PACKET)] + [DataArrives(PACKET)]
  }

  lemma OneEvent(s: Net, e: Event, disk: Disk)
    requires s.Valid()
    ensures Run(s, [e], disk) == Step(s, e, disk)
  {
    var events := [e];
    assert events[1..] == [];
    assert Run(s, events, disk) == Run(Step(s, e, disk), [], disk);
  }

  lemma PacketArrives(s: Net, m: nat, job: Job, disk: Disk)
    requires Locked(s, m, job, disk) && Boundary(job, disk, m + 1) < |job.contents|
    ensures Answered(Run(s, Packet(), disk), m, job, disk)
  {
    var left := Step(s, Leaves(PACKET), disk);
    PacketLeaves(s, m, job, disk);
    PacketDelivered(s, left, m, job, disk);
    RunConcat(s, [Leaves(PACKET)], [DataArrives(PACKET)], disk);
    OneEvent(s, Leaves(PACKET), disk);
    OneEvent(left, DataArrives(PACKET), disk);
  }

  lemma PacketDelivered(s: Net, left: Net, m: nat, job: Job, disk: Disk)
    requires Locked(s, m, job, disk) && Boundary(job, disk, m + 1) < |job.contents|
    requires left == s.(tx := s.tx.(flushed := |s.tx.output|)) && Inv(left, job)
    requires 0 < |s.tx.output| - s.toRx <= PACKET && job.start + |s.tx.output| == s.tx.bytesSoFar
    ensures Answered(Step(left, DataArrives(PACKET), disk), m, job, disk)
  {
    var n := |s.tx.output| - s.toRx;
    DeliverInv(left, n, job, disk);
    AllDelivered(left, n, PACKET, disk);
    NowAnswered(s, left, Deliver(left, n, disk), n, m, job, disk);
  }

  lemma AllDelivered(s: Net, m: nat, n: nat, disk: Disk)
    requires s.Valid() && !s.rx.closed && 0 < m <= n && m == s.tx.flushed - s.toRx
    ensures Step(s, DataArrives(n), disk) == Deliver(s, m, disk)
  {
  }

  lemma NowAnswered(s: Net, left: Net, r: Net, n: nat, m: nat, job: Job, disk: Disk)
    requires Locked(s, m, job, disk) && Boundary(job, disk, m + 1) < |job.contents|
    requires left == s.(tx := s.tx.(flushed := |s.tx.output|)) && n == |s.tx.output| - s.toRx
    requires Arrived(left, r, n, job) && job.start + |s.tx.output| == s.tx.bytesSoFar
    ensures Answered(r, m, job, disk)
  {
  }

  lemma PacketLeaves(s: Net, m: nat, job: Job, disk: Disk)
    requires Locked(s, m, job, disk) && Boundary(job, disk, m + 1) < |job.contents|
    ensures var r := Step(s, Leaves(PACKET), disk);
            && r == s.(tx := s.tx.(flushed := |s.tx.output|)) && Inv(r, job)
            && 0 < |s.tx.output| - s.toRx <= PACKET
            && job.start + |s.tx.output| == s.tx.bytesSoFar
  {
    SentSlice(s.tx, job);
    NextBoundary(job, disk, m);
    AllLeaves(s, PACKET, job, disk);
  }

  /** A read that does not reach the end of the file has got something, at most a packet. */
  lemma NextBoundary(job: Job, disk: Disk, m: nat)
    requires job.Valid() && Boundary(job, disk, m + 1) < |job.contents|
    ensures 0 < Boundary(job, disk, m + 1) - Boundary(job, disk, m) <= PACKET
  {
  }

  lemma AllLeaves(s: Net, n: nat, job: Job, disk: Disk)
    requires Inv(s, job) && |s.tx.output| - s.tx.flushed <= n
    ensures Step(s, Leaves(n), disk) == s.(tx := s.tx.(flushed := |s.tx.output|))
    ensures Inv(s.(tx := s.tx.(flushed := |s.tx.output|)), job)
  {
    FlushedInv(s, s.tx.(flushed := |s.tx.output|), job);
  }

  lemma AnswerArrives(s: Net, m: nat, job: Job, disk: Disk)
    requires Answered(s, m, job, disk) && Works(disk)
    ensures Run(s, Times(4), disk)
         == s.(tx := HandleAck(s.tx, Total(s, job), disk).(sendBuf := []), toTx := s.toTx + 4)
  {
    var data := s.rx.output[s.toTx..s.toTx + 4];
    LastWordIs(s.rx.output, job.start, Total(s, job), s.toTx);
    assert s.tx.sendBuf + data == data;
    FourBytes(s.tx, data, disk);
    HandleAcksCloses(s.tx.(sendBuf := data), disk);
    AcksArriveTogether(s, 4, disk);
  }

  lemma LastWordIs(output: seq<Byte>, start: nat, total: nat, n: nat)
    requires Honest(output, start, total) && |output| == n + 4
    ensures n % 4 == 0 && Word(output[n..n + 4]) == total
  {
    assert n == 4 * (n / 4) && n / 4 == |output| / 4 - 1;
  }

  lemma FourBytes(tx: Sock, data: seq<Byte>, disk: Disk)
    requires tx.Valid() && tx.send && tx.file.File? && tx.sendBuf == [] && |data| == 4
    requires tx.sendBuf + data == data
    ensures AfterRead(tx, data, disk) == HandleAck(tx, Word(data), disk).(sendBuf := [])
  {
    OneWord(tx.(sendBuf := data), disk);
    assert HandleAck(tx.(sendBuf := data), Word(data), disk).(sendBuf := [])
        == HandleAck(tx, Word(data), disk).(sendBuf := []);
  }

  function Round(): seq<Event> {
    Packet() + Times(4)
  }

  lemma {:induction false} RunConcat(s: Net, a: seq<Event>, b: seq<Event>, disk: Disk)
    requires s.Valid()
    ensures Run(s, a + b, disk) == Run(Run(s, a, disk), b, disk)
    decreases |a|
  {
    if a == [] {
      assert a + b == b;
    } else {
      assert (a + b)[1..] == a[1..] + b;
      RunConcat(Step(s, a[0], disk), a[1..], b, disk);
    }
  }

  /** A round goes on with the next packet, until the sum with the window wraps. */
  lemma RoundGoesOn(s: Net, m: nat, job: Job, disk: Disk)
    requires Locked(s, m, job, disk) && Works(disk) && Boundary(job, disk, m + 1) < |job.contents|
    ensures var r := Run(s, Round(), disk);
            if Boundary(job, disk, m + 1) < UINT32 - WINDOW then Locked(r, m + 1, job, disk)
            else Stuck(r, job)
  {
    PacketArrives(s, m, job, disk);
    RunConcat(s, Packet(), Times(4), disk);
    var mid := Run(s, Packet(), disk);
    AnswerArrives(mid, m, job, disk);
    NextPacket(mid, m, job, disk);
  }

  lemma NextPacket(s: Net, m: nat, job: Job, disk: Disk)
    requires Answered(s, m, job, disk) && Works(disk) && Boundary(job, disk, m + 1) < |job.contents|
    ensures var tx := HandleAck(s.tx, Total(s, job), disk).(sendBuf := []);
            var r := s.(tx := tx, toTx := s.toTx + 4);
            if Boundary(job, disk, m + 1) < UINT32 - WINDOW then Locked(r, m + 1, job, disk)
            else Stuck(r, job)
  {
    WindowOpenIff(Total(s, job), s.tx.bytesSoFar);
    SentSlice(s.tx, job);
    if Boundary(job, disk, m + 1) < UINT32 - WINDOW {
      SendInWindow(s, job, disk);
      SendAtBoundary(s.tx, job, disk);
    }
  }

  lemma FirstPacket(job: Job, disk: Disk)
    requires job.Valid() && Works(disk) && job.start < |job.contents|
    ensures Locked(Run(Start(job), [Connect], disk), 0, job, disk)
  {
    var s := Start(job);
    StartGood(job);
    ConnectInv(s, job, disk);
    SendAtBoundary(s.tx, job, disk);
    OneEvent(s, Connect, disk);
    FirstLocked(s, Step(s, Connect, disk), job, disk);
  }

  lemma FirstLocked(s: Net, r: Net, job: Job, disk: Disk)
    requires job.Valid() && s == Start(job) && r == s.(tx := r.tx, connected := true)
    requires Inv(r, job) && AtBoundary(r.tx, job, disk) && r.tx.readCount == 1 && r.tx.flushed == 0
    requires job.start < |job.contents|
    ensures Locked(r, 0, job, disk)
  {
  }

  lemma AnotherRound(job: Job, before: seq<Event>, m: nat, disk: Disk)
    requires job.Valid() && Works(disk) && Locked(Run(Start(job), before, disk), m, job, disk)
    requires Boundary(job, disk, m + 1) < |job.contents|
    ensures var r := Run(Start(job), before + Round(), disk);
            if Boundary(job, disk, m + 1) < UINT32 - WINDOW then Locked(r, m + 1, job, disk)
            else Stuck(r, job)
  {
    RunConcat(Start(job), before, Round(), disk);
    RoundGoesOn(Run(Start(job), before, disk), m, job, disk);
  }

  /** The reads up to the m-th end below the last 64 KiB, and before the end of the file. */
  predicate Early(job: Job, disk: Disk, m: nat)
    requires job.Valid()
  {
    && job.start < |job.contents|
    && (m > 0 ==> Boundary(job, disk, m) < Min(UINT32 - WINDOW, |job.contents|))
  }

  lemma {:induction false} LockStep(job: Job, m: nat, disk: Disk) returns (events: seq<Event>)
    requires job.Valid() && Works(disk) && Early(job, disk, m)
    ensures Locked(Run(Start(job), events, disk), m, job, disk)
  {
    if m == 0 {
      events := [Connect];
      FirstPacket(job, disk);
    } else {
      BoundaryGrows(job, disk, m - 1, m);
      var before := LockStep(job, m - 1, disk);
      events := before + Round();
      AnotherRound(job, before, m - 1, disk);
    }
  }

  ghost predicate Completes(job: Job, disk: Disk)
    requires job.Valid()
  {
    forall events :: Delivered(job, events, disk)
  }

  /** If nothing is left to arrive, everything has. */
  ghost predicate Delivered(job: Job, events: seq<Event>, disk: Disk)
    requires job.Valid()
  {
    var s := Run(Start(job), events, disk);
    Quiet(s) ==> s.rx.file.File? && s.rx.file.contents == job.contents
  }

  /** Some read ends in the last 64 KiB below 4 GiB, but not at the end of the file. */
  predicate StopsAt(job: Job, disk: Disk, k: nat)
    requires job.Valid()
  {
    k > 0 && UINT32 - WINDOW <= Boundary(job, disk, k) < |job.contents|
  }

  /** For every file the sender accepts, every offset it is resumed from and every way the file is
      read: nothing can be left on its way and the transfer incomplete, exactly when no read ends in
      the last 64 KiB below 4 GiB before the end of the file. */
  lemma CompletesIff(job: Job, disk: Disk)
    requires job.Valid() && Works(disk)
    ensures Completes(job, disk) <==> forall k :: !StopsAt(job, disk, k)
  {
    if k :| StopsAt(job, disk, k) {
      var events := Stalls(job, disk, k);
      assert !Delivered(job, events, disk);
    } else {
      forall events ensures Delivered(job, events, disk) {
        NonStopDelivered(job, events, disk);
      }
    }
  }

  lemma NonStopDelivered(job: Job, events: seq<Event>, disk: Disk)
    requires job.Valid() && Works(disk) && forall k :: !StopsAt(job, disk, k)
    ensures Delivered(job, events, disk)
  {
    TransferArrives(job, events, disk);
    StartGood(job);
    RunSteady(Start(job), events, job, disk);
    RunGood(Start(job), events, job, disk);
    var s := Run(Start(job), events, disk);
    SentSlice(s.tx, job);
    assert !StopsAt(job, disk, s.tx.readCount);
  }

  lemma {:induction false} Stalls(job: Job, disk: Disk, k: nat) returns (events: seq<Event>)
    requires job.Valid() && Works(disk) && StopsAt(job, disk, k)
    ensures !Delivered(job, events, disk)
    decreases k
  {
    if k > 1 && StopsAt(job, disk, k - 1) {
      events := Stalls(job, disk, k - 1);
    } else {
      FirstStop(job, disk, k);
      events := StallsAt(job, disk, k);
    }
  }

  lemma FirstStop(job: Job, disk: Disk, k: nat)
    requires job.Valid() && StopsAt(job, disk, k) && !(k > 1 && StopsAt(job, disk, k - 1))
    ensures Early(job, disk, k - 1)
  {
    BoundaryGrows(job, disk, k - 1, k);
  }

  lemma StallsAt(job: Job, disk: Disk, k: nat) returns (events: seq<Event>)
    requires job.Valid() && Works(disk) && StopsAt(job, disk, k) && Early(job, disk, k - 1)
    ensures !Delivered(job, events, disk)
  {
    var before := LockStep(job, k - 1, disk);
    events := before + Round();
    AnotherRound(job, before, k - 1, disk);
    NotDelivered(job, events, disk, Run(Start(job), events, disk));
  }

  lemma NotDelivered(job: Job, events: seq<Event>, disk: Disk, s: Net)
    requires job.Valid() && s == Run(Start(job), events, disk) && Stuck(s, job)
    ensures !Delivered(job, events, disk)
  {
  }

  // ----- every transfer can be brought to its end ------------------------------------------

  /** Nothing happens any more once nothing is left to arrive. */
  lemma {:induction false} QuietIsFinal(s: Net, events: seq<Event>, disk: Disk)
    requires s.Valid() && Quiet(s)
    ensures Run(s, events, disk) == s
    decreases |events|
  {
    if events != [] {
      QuietIsFinal(s, events[1..], disk);
    }
  }

  /** One more connection, byte to send, byte to deliver or acknowledgement byte to take, in this order
      of weight, is done. */
  predicate Closer(s: Net, next: Net, job: Job)
    requires Sender(s.tx, job) && Sender(next.tx, job)
  {
    if s.connected != next.connected then next.connected
    else if s.tx.bytesSoFar != next.tx.bytesSoFar then s.tx.bytesSoFar < next.tx.bytesSoFar
    else if ToArrive(s) != ToArrive(next) then ToArrive(next) < ToArrive(s)
    else ToTake(next) < ToTake(s)
  }

  function ToArrive(s: Net): int { |s.tx.output| - s.toRx }

  function ToTake(s: Net): int { |s.rx.output| - s.toTx }

  lemma DeliverAll(s: Net, job: Job, disk: Disk) returns (events: seq<Event>)
    requires Good(s, job) && ToArrive(s) > 0
    ensures Good(Run(s, events, disk), job) && Closer(s, Run(s, events, disk), job)
  {
    var n := |s.tx.output|;
    var left := Step(s, Leaves(n), disk);
    events := [Leaves(n)] + [DataArrives(n)];
    AllLeaves(s, n, job, disk);
    StepGood(s, Leaves(n), job, disk);
    DeliverRest(left, n, job, disk);
    RunConcat(s, [Leaves(n)], [DataArrives(n)], disk);
    OneEvent(s, Leaves(n), disk);
    OneEvent(left, DataArrives(n), disk);
  }

  lemma DeliverRest(s: Net, n: nat, job: Job, disk: Disk)
    requires Good(s, job) && ToArrive(s) > 0 && n == |s.tx.output| == s.tx.flushed
    ensures var r := Step(s, DataArrives(n), disk);
            Good(r, job) && r.tx == s.tx && r.connected == s.connected && ToArrive(r) == 0
  {
    var m := n - s.toRx;
    StillOpen(s, job);
    DeliverInv(s, m, job, disk);
    AllDelivered(s, m, n, disk);
    ArrivedGood(s, Deliver(s, m, disk), m, job);
  }

  /** A receiver that is still to get something has not closed. */
  lemma StillOpen(s: Net, job: Job)
    requires Inv(s, job) && ToArrive(s) > 0
    ensures !s.rx.closed
  {
    SentSlice(s.tx, job);
  }

  lemma ArrivedGood(s: Net, r: Net, m: nat, job: Job)
    requires Good(s, job) && Arrived(s, r, m, job)
    ensures Good(r, job)
  {
  }

  lemma TakeOne(s: Net, job: Job, disk: Disk)
    requires Good(s, job) && Steady(s, job, disk) && Works(disk) && s.connected && ToTake(s) > 0
    ensures Good(Step(s, AckArrives, disk), job) && Closer(s, Step(s, AckArrives, disk), job)
  {
    var next := Step(s, AckArrives, disk);
    StepGood(s, AckArrives, job, disk);
    AcksAtBoundary(s.tx.(sendBuf := s.tx.sendBuf + [s.rx.output[s.toTx]]), job, disk);
    BoundaryGrows(job, disk, s.tx.readCount, next.tx.readCount);
    SentSlice(s.tx, job);
    SentSlice(next.tx, job);
  }

  lemma Progress(s: Net, job: Job, disk: Disk) returns (events: seq<Event>)
    requires Good(s, job) && Steady(s, job, disk) && Works(disk) && !Quiet(s)
    ensures Good(Run(s, events, disk), job) && Closer(s, Run(s, events, disk), job)
  {
    if !s.connected {
      events := [Connect];
      OneEvent(s, Connect, disk);
      StepGood(s, Connect, job, disk);
    } else if ToArrive(s) > 0 {
      events := DeliverAll(s, job, disk);
    } else {
      events := [AckArrives];
      OneEvent(s, AckArrives, disk);
      TakeOne(s, job, disk);
    }
  }

  /** Whatever has happened, a transfer can go on until nothing is left to arrive. */
  lemma {:induction false} ComesToRest(s: Net, job: Job, disk: Disk) returns (events: seq<Event>)
    requires Good(s, job) && Steady(s, job, disk) && Works(disk)
    ensures Quiet(Run(s, events, disk))
    decreases if s.connected then 0 else 1, |job.contents| - s.tx.bytesSoFar, ToArrive(s), ToTake(s)
  {
    if Quiet(s) {
      events := [];
    } else {
      var first := Progress(s, job, disk);
      var next := Run(s, first, disk);
      RunSteady(s, first, job, disk);
      var more := ComesToRest(next, job, disk);
      events := first + more;
      RunConcat(s, first, more, disk);
    }
  }

  predicate Whole(s: Net, job: Job) {
    s.rx.file.File? && s.rx.file.contents == job.contents
  }

  /** After these events, the receiver can still get the whole file. */
  ghost predicate CanFinish(job: Job, before: seq<Event>, disk: Disk)
    requires job.Valid()
  {
    exists more :: Whole(Run(Start(job), before + more, disk), job)
  }

  /** Whatever has happened, the transfer can still be completed: exactly when no read ends in the
      last 64 KiB below 4 GiB before the end of the file. */
  lemma FinishesIff(job: Job, disk: Disk)
    requires job.Valid() && Works(disk)
    ensures (forall before :: CanFinish(job, before, disk)) <==> forall k :: !StopsAt(job, disk, k)
  {
    if k :| StopsAt(job, disk, k) {
      var before := Stalls(job, disk, k);
      NeverWhole(job, before, disk);
    } else {
      forall before ensures CanFinish(job, before, disk) {
        var more := Finish(job, before, disk);
      }
    }
  }

  lemma NeverWhole(job: Job, before: seq<Event>, disk: Disk)
    requires job.Valid() && !Delivered(job, before, disk)
    ensures !CanFinish(job, before, disk)
  {
    forall more ensures !Whole(Run(Start(job), before + more, disk), job) {
      RunConcat(Start(job), before, more, disk);
      QuietIsFinal(Run(Start(job), before, disk), more, disk);
    }
  }

  lemma Finish(job: Job, before: seq<Event>, disk: Disk) returns (more: seq<Event>)
    requires job.Valid() && Works(disk) && forall k :: !StopsAt(job, disk, k)
    ensures Whole(Run(Start(job), before + more, disk), job)
  {
    StartGood(job);
    RunGood(Start(job), before, job, disk);
    RunSteady(Start(job), before, job, disk);
    more := ComesToRest(Run(Start(job), before, disk), job, disk);
    RunConcat(Start(job), before, more, disk);
    NonStopDelivered(job, before + more, disk);
  }

  // ----- whole packets ---------------------------------------------------------------------

  /** A read of the file gives a whole packet, as long as there is one. */
  ghost predicate FullReads(disk: Disk) {
    forall k :: disk(k) >= PACKET
  }

  lemma {:induction false} FullBoundary(job: Job, disk: Disk, k: nat)
    requires job.Valid() && FullReads(disk)
    ensures Boundary(job, disk, k) == Min(job.start + PACKET * k, |job.contents|)
  {
    if k > 0 {
      FullBoundary(job, disk, k - 1);
    }
  }

  /** From the beginning and in whole packets, exactly the files of at most 4 GiB - 64 KiB always
      arrive. */
  lemma WholeFileCompletesIff(contents: seq<Byte>, disk: Disk)
    requires |contents| < UINT32 && FullReads(disk)
    ensures Completes(Job(contents, 0), disk) <==> |contents| <= UINT32 - WINDOW
  {
    var job := Job(contents, 0);
    var last := (UINT32 - WINDOW) / PACKET;
    CompletesIff(job, disk);
    FullBoundary(job, disk, last);
    if |contents| > UINT32 - WINDOW {
      assert StopsAt(job, disk, last);
    } else {
      forall k ensures !StopsAt(job, disk, k) {
      }
    }
  }
}
