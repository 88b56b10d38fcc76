/** `CFile`: a descriptor with a read buffer in front of it. */
module Files {

  datatype Found = At(index: nat) | NotFound

  /** `std::string::find`. */
  function Find(s: string, d: string): (r: Found)
    requires d != ""
    ensures r.At? ==> r.index + |d| <= |s| && s[r.index..r.index + |d|] == d
  {
    if |s| < |d| then NotFound
    else if d <= s then At(0)
    else match Find(s[1..], d)
      case At(i) =>
        assert s[1..][i..i + |d|] == s[i + 1..i + 1 + |d|];
        At(i + 1)
      case NotFound => NotFound
  }

  /** Text up to and including the first delimiter, or all of it. */
  function NextPiece(s: string, d: string): (r: string)
    requires d != ""
    ensures |r| <= |s| && (s != "" ==> r != "")
    ensures r == s[..|r|]
  {
    match Find(s, d)
    case At(i) => s[..i + |d|]
    case NotFound => s
  }

  /** The text cut after each delimiter; a last piece without one is kept. */
  function Pieces(s: string, d: string): seq<string>
    requires d != ""
    decreases |s|
  {
    if s == "" then [] else [NextPiece(s, d)] + Pieces(s[|NextPiece(s, d)|..], d)
  }

  function Concat(pieces: seq<string>): string {
    if pieces == [] then "" else pieces[0] + Concat(pieces[1..])
  }

  /** Nothing is lost or reordered by cutting. */
  lemma {:induction false} ConcatPieces(s: string, d: string)
    requires d != ""
    ensures Concat(Pieces(s, d)) == s
    decreases |s|
  {
    if s != "" {
      var n := |NextPiece(s, d)|;
      ConcatPieces(s[n..], d);
      ConcatFront(s[..n], Pieces(s[n..], d));
      Rejoin(s, n);
    }
  }

  lemma ConcatFront(piece: string, rest: seq<string>)
    ensures Concat([piece] + rest) == piece + Concat(rest)
  {
    assert ([piece] + rest)[1..] == rest;
  }

  lemma Rejoin(s: string, n: nat)
    requires n <= |s|
    ensures s[..n] + s[n..] == s
  {
  }

  /** A piece contains the delimiter exactly at its end, except that the last one may lack it. */
  lemma {:induction false} PiecesShape(s: string, d: string, i: nat)
    requires d != "" && i < |Pieces(s, d)|
    ensures var p := Pieces(s, d)[i];
            p != "" && (Find(p, d) == NotFound || Find(p, d) == At(|p| - |d|))
    ensures i < |Pieces(s, d)| - 1 ==> Find(Pieces(s, d)[i], d).At?
    decreases |s|
  {
    var rest := Pieces(s[|NextPiece(s, d)|..], d);
    assert Pieces(s, d) == [NextPiece(s, d)] + rest;
    if i > 0 {
      PiecesShape(s[|NextPiece(s, d)|..], d, i - 1);
    } else {
      FirstPieceShape(s, d);
    }
  }

  lemma FirstPieceShape(s: string, d: string)
    requires d != "" && s != ""
    ensures var p := NextPiece(s, d);
            Find(p, d) == if Find(s, d).At? then At(|p| - |d|) else NotFound
    ensures Find(s, d) == NotFound ==> Pieces(s, d) == [s]
  {
    if Find(s, d).At? {
      FindInPrefix(s, d, |NextPiece(s, d)|);
    } else {
      assert s[|s|..] == "";
    }
  }

  /** A delimiter found in a prefix is where it is found in the whole text. */
  lemma {:induction false} FindInPrefix(s: string, d: string, n: nat)
    requires d != "" && n <= |s|
    ensures Find(s[..n], d).At? ==> Find(s, d) == Find(s[..n], d)
    ensures Find(s, d).At? && Find(s, d).index + |d| <= n ==> Find(s[..n], d) == Find(s, d)
  {
    if n >= |d| {
      assert d <= s <==> d <= s[..n];
      if !(d <= s) {
        assert s[..n][1..] == s[1..][..n - 1];
        FindInPrefix(s[1..], d, n - 1);
      }
    }
  }

  lemma BufferedPiece(buffer: string, unread: string, d: string)
    requires d != "" && Find(buffer, d).At?
    ensures NextPiece(buffer + unread, d) == buffer[..Find(buffer, d).index + |d|]
  {
    var all := buffer + unread;
    assert all[..|buffer|] == buffer;
    FindInPrefix(all, d, |buffer|);
    SplitAround(buffer, unread, Find(buffer, d).index + |d|);
  }

  lemma SplitAround(s: string, rest: string, cut: nat)
    requires cut <= |s|
    ensures (s + rest)[..cut] == s[..cut]
    ensures s[..cut] + (s[cut..] + rest) == s + rest
  {
    assert s == s[..cut] + s[cut..];
  }

  /** The first n characters, zeros standing in for what is not there. */
  function Padded(s: string, n: nat): (r: string)
    ensures |r| == n
  {
    if n <= |s| then s[..n] else s + seq(n - |s|, _ => '\0')
  }

  class CFile {
    var isOpen: bool
    var content: string
    var pos: nat
    var buffer: string

    /** What `read` has not delivered yet. */
    ghost function Unread(): string
      reads this
    {
      if pos <= |content| then content[pos..] else ""
    }

    /** What has not been handed out yet. */
    ghost function Remaining(): string
      reads this
    {
      buffer + Unread()
    }

    /** What is in front of the position, where writing goes on. */
    ghost function Written(): string
      reads this
    {
      Padded(content, pos)
    }

    constructor (content: string)
      ensures isOpen && this.content == content && pos == 0 && buffer == ""
    {
      isOpen, this.content, pos, buffer := true, content, 0, "";
    }

    method Seek(offset: nat) returns (ok: bool)
      modifies this`pos, this`buffer
      ensures ok == isOpen
      ensures ok ==> pos == offset && buffer == ""
      ensures !ok ==> pos == old(pos) && buffer == old(buffer)
    {
      ok := isOpen;
      if ok {
        pos, buffer := offset, "";
      }
    }

    /** The `read` system call: an error, the end of the file, or a chunk of any size. */
    method RawRead() returns (failed: bool, chunk: string)
      modifies this`pos
      ensures old(pos) <= pos && chunk + Unread() == old(Unread()) && |chunk| <= 4096
      ensures |chunk| == pos - old(pos) && pos <= if old(pos) <= |content| then |content| else old(pos)
      ensures failed ==> chunk == ""
      ensures !failed && chunk == "" ==> Unread() == ""
    {
      failed := *;
      chunk := "";
      if !failed && pos < |content| {
        var n: nat :| 0 < n <= 4096 && pos + n <= |content|;
        chunk := content[pos..pos + n];
        pos := pos + n;
        assert chunk + content[pos..] == content[pos - n..];
      }
    }

    /** Another chunk for the buffer, if there is one. */
    method Fill() returns (failed: bool, more: bool)
      modifies this`pos, this`buffer
      ensures Remaining() == old(Remaining()) && |Unread()| <= old(|Unread()|)
      ensures more ==> !failed && |Unread()| < old(|Unread()|)
      ensures !more ==> buffer == old(buffer) && (!failed ==> Unread() == "")
    {
      ghost var was := buffer;
      var chunk;
      failed, chunk := RawRead();
      buffer := buffer + chunk;
      Joined(was, chunk, Unread());
      more := chunk != "";
      if !more {
        Alone(was);
      }
    }

    /** The front of the buffer. */
    method TakeBuffered(cut: nat) returns (data: string)
      requires 0 < cut <= |buffer|
      modifies this`buffer
      ensures data != "" && data == old(buffer[..cut])
      ensures data + Remaining() == old(Remaining())
    {
      SplitAround(buffer, Unread(), cut);
      data := buffer[..cut];
      buffer := buffer[cut..];
    }

    /** However `read` chops the file, a line is the next piece of what remains; a read error can
        only cut a line short, never lose or reorder text. */
    method ReadLine(delimiter: string) returns (got: bool, data: string, ghost failed: bool)
      requires delimiter != ""
      modifies this`pos, this`buffer
      ensures got <==> data != ""
      ensures isOpen ==> data + Remaining() == old(Remaining())
      ensures isOpen && !failed ==> got == (old(Remaining()) != "")
      ensures isOpen && !failed && got ==> data == NextPiece(old(Remaining()), delimiter)
      ensures !isOpen ==> !got && !failed && pos == old(pos) && buffer == old(buffer)
    {
      failed := false;
      data := "";
      if !isOpen {
        return false, "", false;
      }
      ghost var all := Remaining();
      var more := true;
      while more
        invariant Remaining() == all && data == "" && isOpen
        invariant !more ==> (!failed ==> Unread() == "") && Find(buffer, delimiter).NotFound?
        invariant more ==> !failed
        decreases more, |Unread()|
      {
        var find := Find(buffer, delimiter);
        if find.At? {
          BufferedPiece(buffer, Unread(), delimiter);
          data := TakeBuffered(find.index + |delimiter|);
          return true, data, failed;
        }
        failed, more := Fill();
      }
      if buffer == "" {
        return false, "", failed;
      }
      data := buffer;
      buffer := "";
      LastPiece(data, Unread(), delimiter);
      return true, data, failed;
    }

    ghost predicate AtEnd()
      reads this
    {
      pos == |content|
    }

    method Write(data: string)
      modifies this`content, this`pos
      ensures Written() == old(Written()) + data
      ensures old(AtEnd()) ==> AtEnd()
    {
      var after := pos + |data|;
      content := Padded(content, pos) + data + (if after <= |content| then content[after..] else "");
      pos := after;
    }
  }

  /** A buffer without a delimiter is the last piece if nothing follows. */
  lemma LastPiece(buffer: string, unread: string, d: string)
    requires d != "" && Find(buffer, d).NotFound?
    ensures buffer + ("" + unread) == buffer + unread
    ensures unread == "" ==> NextPiece(buffer + unread, d) == buffer
  {
    Alone(unread);
    Alone(buffer);
  }

  lemma Joined(a: string, b: string, c: string)
    ensures a + (b + c) == (a + b) + c
  {
  }

  lemma Alone(s: string)
    ensures s + "" == s && "" + s == s
  {
  }
}
