/** Bounced DCC connections (`CDCCBounce`): two sockets that hand each other what they read. */
module BounceDcc {

  import opened Octets

  /** With this much waiting in the other socket's write buffer, reading stops. */
  const MAX_BUFFER := 10 * 1024

  /** With no more than this waiting, it goes on. */
  const MIN_BUFFER := 2 * 1024

  /** `got` is everything the socket has read while it had a peer, `sent` everything that has left
      its write buffer. */
  class CDCCBounce {
    const isChat: bool
    const timeout: int
    var peer: CDCCBounce?
    var isRemote: bool
    var paused: bool
    var closed: bool
    var writeBuffer: seq<Byte>
    ghost var got: seq<Byte>
    ghost var sent: seq<Byte>

    /** The socket that listens for the local client. */
    constructor Listener(isChat: bool)
      ensures Idle() && this.isChat == isChat
    {
      this.isChat, timeout := isChat, 0;
      peer, isRemote, paused, closed, writeBuffer := null, false, false, false, [];
      got, sent := [], [];
    }

    constructor Socket(timeout: int, isChat: bool := false)
      ensures Idle() && this.isChat == isChat && this.timeout == timeout
    {
      this.isChat, this.timeout := isChat, timeout;
      peer, isRemote, paused, closed, writeBuffer := null, false, false, false, [];
      got, sent := [], [];
    }

    /** A socket that nothing has happened to. */
    ghost predicate Idle()
      reads this
    {
      peer == null && !paused && !closed && !isRemote && writeBuffer == [] && got == [] && sent == []
    }

    method Close()
      modifies `closed
      ensures closed
    {
      closed := true;
    }

    method SetPeer(other: CDCCBounce)
      modifies `peer
      ensures peer == other
    {
      peer := other;
    }

    method SetRemote(remote: bool)
      modifies `isRemote
      ensures isRemote == remote
    {
      isRemote := remote;
    }

    method Shutdown()
      modifies `peer, `closed
      ensures peer == null && closed
    {
      peer := null;
      Close();
    }

    method Write(data: seq<Byte>)
      modifies `writeBuffer
      ensures writeBuffer == old(writeBuffer) + data
    {
      writeBuffer := writeBuffer + data;
    }

    /** Some of the write buffer leaves. */
    method Drain(n: nat)
      requires n <= |writeBuffer|
      modifies `writeBuffer, `sent
      ensures sent + writeBuffer == old(sent + writeBuffer)
      ensures |writeBuffer| == |old(writeBuffer)| - n && old(sent) <= sent
    {
      sent := sent + writeBuffer[..n];
      writeBuffer := writeBuffer[n..];
    }

    method ReadData(data: seq<Byte>)
      requires peer != this
      modifies `paused, `got, peer
      ensures peer != null ==>
                && peer.peer == old(peer.peer) && peer.paused == old(peer.paused)
                && peer.closed == old(peer.closed) && peer.isRemote == old(peer.isRemote)
                && peer.got == old(peer.got) && peer.sent == old(peer.sent)
      ensures old(peer) == null ==> got == old(got) && paused == old(paused)
      ensures old(peer) != null ==>
                && got == old(got) + data
                && old(peer).writeBuffer == old(peer.writeBuffer) + data
                && paused == (old(paused) || |old(peer).writeBuffer| >= 10240)
    {
      if peer != null {
        peer.Write(data);
        got := got + data;
        if |peer.writeBuffer| >= MAX_BUFFER {
          paused := true;
        }
      }
    }

    /** Called again and again while reading is paused. */
    method ReadPaused()
      modifies `paused
      ensures paused == (old(paused) && peer != null && |peer.writeBuffer| > 2048)
    {
      if peer == null || |peer.writeBuffer| <= MIN_BUFFER {
        paused := false;
      }
    }

    /** The destructor. */
    method Destroy()
      requires peer != this
      modifies `peer, peer
      ensures peer == null
      ensures old(peer) != null ==>
                && old(peer).writeBuffer == old(peer.writeBuffer) && old(peer).got == old(peer.got)
                && old(peer).sent == old(peer.sent) && old(peer).paused == old(peer.paused)
      ensures old(peer) != null ==> old(peer).peer == null && old(peer).closed
    {
      if peer != null {
        peer.Shutdown();
        peer := null;
      }
    }

    /** The local client has connected: the listener is done, and a socket for the client and one
        for the remote side take over. The chat flag of the listener lands in the parameter before
        the one it is meant for, so both are raw sockets. */
    method GetSockObj() returns (sock: CDCCBounce, remote: CDCCBounce)
      modifies `closed
      ensures closed && fresh(sock) && fresh(remote) && sock != remote
      ensures sock.peer == remote && remote.peer == sock && remote.isRemote && !sock.isRemote
      ensures !sock.isChat && !remote.isChat && sock.timeout == remote.timeout == if isChat then 1 else 0
      ensures sock.Fresh() && remote.Fresh()
    {
      Close();
      sock := new CDCCBounce.Socket(if isChat then 1 else 0);
      remote := new CDCCBounce.Socket(if isChat then 1 else 0);
      sock.SetPeer(remote);
      remote.SetPeer(sock);
      remote.SetRemote(true);
      sock.SetRemote(false);
    }

    /** Nothing read, nothing written. */
    ghost predicate Fresh()
      reads this
    {
      !paused && !closed && writeBuffer == [] && got == [] && sent == []
    }
  }

  /** Links between live sockets go both ways, and never out of the set. */
  ghost predicate Symmetric(live: set<CDCCBounce>)
    reads live
  {
    forall s | s in live && s.peer != null :: s.peer in live && s.peer.peer == s && s.peer != s
  }

  /** A socket has passed on what it read, in order; it only goes on reading while the other side
      has less than the maximum waiting, and no more than one read goes beyond that. */
  ghost predicate Flowing(s: CDCCBounce, chunk: nat)
    reads s, s.peer
  {
    s.peer != null ==>
      && s.peer.sent + s.peer.writeBuffer == s.got
      && |s.peer.writeBuffer| < MAX_BUFFER + chunk
      && (!s.paused ==> |s.peer.writeBuffer| < MAX_BUFFER)
  }

  /** The sockets the module owns, driven by a socket library that reads at most `chunk` bytes at
      a time, and only from sockets that are neither paused nor closed. */
  class CBounceDCCMod {
    const chunk: nat
    var sockets: set<CDCCBounce>

    ghost predicate Valid()
      reads this, sockets, set s | s in sockets && s.peer != null :: s.peer
    {
      && Symmetric(sockets)
      && forall s | s in sockets :: Flowing(s, chunk)
    }

    constructor (chunk: nat)
      ensures Valid() && sockets == {} && this.chunk == chunk
    {
      this.chunk, sockets := chunk, {};
    }

    method DCCRequest(isChat: bool) returns (sock: CDCCBounce)
      requires Valid()
      modifies this
      ensures Valid() && fresh(sock) && sockets == old(sockets) + {sock} && sock.Idle()
    {
      sock := new CDCCBounce.Listener(isChat);
      sockets := sockets + {sock};
    }

    method Accept(listener: CDCCBounce) returns (sock: CDCCBounce, remote: CDCCBounce)
      requires Valid() && listener in sockets && listener.peer == null
      modifies this, listener`closed
      ensures Valid() && fresh(sock) && fresh(remote) && sockets == old(sockets) + {sock, remote}
      ensures sock.peer == remote && remote.peer == sock && listener.closed
    {
      sock, remote := listener.GetSockObj();
      sockets := sockets + {sock, remote};
    }

    method Arrive(sock: CDCCBounce, data: seq<Byte>)
      requires Valid() && sock in sockets && !sock.paused && !sock.closed && |data| <= chunk
      modifies sockets
      ensures Valid() && sockets == old(sockets)
      ensures forall s | s in sockets :: s.peer == old(s.peer) && s.sent == old(s.sent)
      ensures sock.peer != null ==> sock.got == old(sock.got) + data
    {
      sock.ReadData(data);
    }

    method Leave(sock: CDCCBounce, n: nat)
      requires Valid() && sock in sockets && n <= |sock.writeBuffer|
      modifies sockets
      ensures Valid() && sockets == old(sockets)
      ensures forall s | s in sockets :: s.peer == old(s.peer) && s.got == old(s.got)
      ensures old(sock.sent) <= sock.sent
    {
      sock.Drain(n);
    }

    method Poll(sock: CDCCBounce)
      requires Valid() && sock in sockets && sock.paused
      modifies sockets
      ensures Valid() && sockets == old(sockets)
      ensures sock.paused == (sock.peer != null && |sock.peer.writeBuffer| > MIN_BUFFER)
    {
      sock.ReadPaused();
    }

    /** The library deletes a socket. Nothing refers to it any more, and its peer is closing. */
    method Delete(sock: CDCCBounce)
      requires Valid() && sock in sockets
      modifies this, sockets
      ensures Valid() && sockets == old(sockets) - {sock}
      ensures forall s | s in sockets :: s.peer != sock
      ensures old(sock.peer) != null ==> old(sock.peer).closed && old(sock.peer).peer == null
      ensures forall s | s in sockets && s != old(sock.peer) :: s.peer == old(s.peer)
    {
      sock.Destroy();
      sockets := sockets - {sock};
    }

    /** Any run: connections are asked for and accepted, bytes come and go, sockets are polled and
        deleted, in any order. */
    method Serve(steps: nat)
      requires Valid()
      modifies this, sockets
      ensures Valid() && fresh(sockets - old(sockets))
    {
      for i := 0 to steps
        invariant Valid() && fresh(sockets - old(sockets))
      {
        if * {
          var isChat: bool := *;
          var listener := DCCRequest(isChat);
        } else if sockets != {} {
          var sock :| sock in sockets;
          var data: seq<Byte>, n: nat := *, *;
          if {
            case sock.peer == null => var a, b := Accept(sock);
            case !sock.paused && !sock.closed && |data| <= chunk => Arrive(sock, data);
            case n <= |sock.writeBuffer| => Leave(sock, n);
            case sock.paused => Poll(sock);
            case true => Delete(sock);
          }
        }
      }
    }
  }

  /** So what has left the other socket is the beginning of what was read, and what is still
      waiting is bounded. */
  lemma Relayed(m: CBounceDCCMod, s: CDCCBounce)
    requires m.Valid() && s in m.sockets && s.peer != null
    ensures s.peer in m.sockets && s.peer.peer == s
    ensures s.peer.sent <= s.got && |s.got| - |s.peer.sent| < MAX_BUFFER + m.chunk
    ensures s.sent <= s.peer.got && |s.peer.got| - |s.sent| < MAX_BUFFER + m.chunk
  {
    assert Flowing(s, m.chunk) && Flowing(s.peer, m.chunk);
  }
}
