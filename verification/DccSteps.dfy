/** What a single packet and a single read of a DCC socket do, in bytes and numbers. */
module DccSteps {
  import opened Common
  import opened Octets
  import opened DccSend

  /** Writing at a position replaces what is there, fills a gap with zeros and leaves the rest alone. */
  lemma StoreMeans(f: File, data: seq<Byte>, i: nat)
    requires f.File? && data != []
    ensures var g := Store(f, data);
            && g.pos == f.pos + |data| && |g.contents| == Max(|f.contents|, f.pos + |data|)
            && (i < |g.contents| ==>
                  g.contents[i] == if f.pos <= i < f.pos + |data| then data[i - f.pos]
                                   else if i < |f.contents| then f.contents[i] else 0)
  {
    var c, end := f.contents, f.pos + |data|;
    var front := if f.pos <= |c| then c[..f.pos] else c + Zeros(f.pos - |c|);
    var back := if end <= |c| then c[end..] else [];
    assert Store(f, data).contents == front + data + back && |front| == f.pos;
    if i < f.pos && i < |c| {
      assert front[i] == c[i];
    }
    if end <= i < |c| {
      assert (front + data + back)[i] == back[i - end];
    }
  }

  /** The four bytes of a number, the most significant first. */
  lemma BytesAre(n: nat)
    requires n < 0x1_0000_0000
    ensures var b := Bytes(n);
            b[0] as int * 0x100_0000 + b[1] as int * 0x1_0000 + b[2] as int * 0x100 + b[3] as int == n
  {
    var a, b, c := n / 256, n / 256 / 256, n / 256 / 256 / 256;
    assert n == 256 * a + n % 256 && a == 256 * b + a % 256 && b == 256 * c + b % 256;
    assert c < 256 && c % 256 == c;
  }

  lemma WordIs(b: seq<Byte>)
    requires |b| == 4
    ensures Word(b) == b[0] as int * 0x100_0000 + b[1] as int * 0x1_0000 + b[2] as int * 0x100 + b[3] as int
  {
  }

  /** Sending a packet: a closed file closes the socket, a write buffer above a MiB puts it off, a read
      that fails closes the socket; otherwise at most 4096 bytes from where the file stands are
      written, none only at its end, and file and counter move on by as many. */
  lemma SendMeans(s: Sock, disk: Disk)
    requires s.Valid()
    ensures var t := AfterSend(s, disk);
            && t.send == s.send && t.sendBuf == s.sendBuf && t.fileSize == s.fileSize && t.flushed == s.flushed
            && (s.file.NoFile? ==> t == s.(closed := true))
            && (s.file.File? && |s.output| - s.flushed > 0x10_0000 ==> t == s)
            && (s.file.File? && |s.output| - s.flushed <= 0x10_0000 && disk(s.readCount) < 0 ==>
                  t.closed && t == s.(closed := true, readCount := t.readCount))
            && (s.file.File? && |s.output| - s.flushed <= 0x10_0000 && disk(s.readCount) >= 0 ==>
                  var n := t.bytesSoFar - s.bytesSoFar;
                  && 0 <= n <= 4096 && t.closed == s.closed && (n == 0 <==> s.file.pos >= |s.file.contents|)
                  && t.file == File(s.file.contents, s.file.pos + n)
                  && (n == 0 ==> t.output == s.output)
                  && (n > 0 ==> t.output == s.output + s.file.contents[s.file.pos..s.file.pos + n]))
  {
  }

  /** A read asks for a packet: it gets as much as the file and the system give. */
  lemma GotIs(f: File, want: int)
    requires f.File? && f.pos < |f.contents| && 0 < want
    ensures want >= 4096 && |f.contents| - f.pos >= 4096 ==> Got(f, want) == 4096
    ensures want >= |f.contents| - f.pos && |f.contents| - f.pos < 4096 ==> Got(f, want) == |f.contents| - f.pos
    ensures want < 4096 && want < |f.contents| - f.pos ==> Got(f, want) == want
  {
  }

  /** Bytes that arrive: at a receiver they are stored, counted and acknowledged with the count, and
      the socket closes once the count has reached the size of the file. */
  lemma ReceiveMeans(s: Sock, data: seq<Byte>, disk: Disk)
    requires s.Valid() && !s.send
    ensures var t, total := AfterRead(s, data, disk), s.bytesSoFar + |data|;
            && (s.file.NoFile? ==> t == s.(closed := true))
            && (s.file.File? ==>
                  && t.file == Store(s.file, data) && t.bytesSoFar == total
                  && t.output == s.output + Bytes(total % 0x1_0000_0000)
                  && (t.closed <==> s.closed || total >= s.fileSize)
                  && t.sendBuf == s.sendBuf && t.flushed == s.flushed && t.readCount == s.readCount)
  {
  }

  /** At a sender they are acknowledgements of four bytes each, in order: one that is at most 64 KiB
      behind the counter, in 32-bit arithmetic, brings a packet; what is left waits. */
  lemma AcknowledgeMeans(s: Sock, data: seq<Byte>, disk: Disk)
    requires s.Valid() && s.send && s.file.File?
    ensures var all := s.sendBuf + data;
            && (|all| < 4 ==> AfterRead(s, data, disk) == s.(sendBuf := all))
            && (|all| >= 4 ==>
                  var ack := Word(all[..4]);
                  var fed := s.(sendBuf := all);
                  var t := if (ack + 65536) % 0x1_0000_0000 >= s.bytesSoFar then AfterSend(fed, disk) else fed;
                  AfterRead(s, data, disk) == AfterRead(t.(sendBuf := []), all[4..], disk))
  {
    var all := s.sendBuf + data;
    if |all| >= 4 {
      var fed := s.(sendBuf := all);
      var t := HandleAck(fed, Word(all[..4]), disk);
      assert [] + all[4..] == all[4..];
      assert t.sendBuf == all;
    }
  }
}
