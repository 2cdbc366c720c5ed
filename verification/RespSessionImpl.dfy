/** The session object of `example/resp/session.go`: its fields, and each lock region as a method
    proved to do what RespSession says. */
module RespSessionImpl {
  import opened Seqs
  import opened Decimal
  import opened RespWire
  import opened RespSession

  /** A `chan struct{}`: closing one twice panics, so Close demands it open. */
  class Channel {
    var closed: bool

    constructor ()
      ensures !closed
    {
      closed := false;
    }

    method Close()
      requires !closed
      modifies this
      ensures closed
    {
      closed := true;
    }
  }

  /** What a turn of a reading loop comes to: it returns, or it goes to wait for a channel (or for
      closeCh, or its context). */
  datatype Turned = Return(a: Answer) | Wait(c: Channel)

  class Session {
    var closed: bool
    var reusable: bool
    var exclusive: bool
    var busy: bool
    var readBuf: Bytes
    var readErr: Option<Failure>
    var readWait: Channel
    const closeCh: Channel
    const peerGone: Channel
    var peerOnce: bool

    /** The wake channels replaced so far, oldest first. */
    ghost var woken: seq<Channel>

    ghost predicate Valid()
      reads this, closeCh, peerGone, readWait, woken
    {
      && !readWait.closed
      && (forall c :: c in woken ==> c.closed && c != readWait)
      && (closeCh.closed <==> closed)
      && (peerGone.closed <==> peerOnce)
      && closeCh != peerGone && closeCh != readWait && peerGone != readWait
    }

    ghost function View(): Link
      reads this
    {
      Link(closed, reusable, exclusive, busy, readBuf, readErr, |woken|)
    }

    /** newSession */
    constructor ()
      ensures Valid() && View() == OPENED
      ensures fresh(readWait) && fresh(closeCh) && fresh(peerGone)
    {
      closed, reusable, exclusive, busy := false, true, false, false;
      readBuf, readErr := [], None;
      var wait := new Channel();
      var close := new Channel();
      var gone := new Channel();
      readWait, closeCh, peerGone, peerOnce := wait, close, gone, false;
      woken := [];
    }

    /** broadcastReadLocked: the channel every parked reader waits on is closed, and those to come
        wait on a fresh one. */
    method Broadcast()
      requires Valid()
      modifies this`readWait, this`woken, readWait
      ensures Valid() && View() == RespSession.Broadcast(old(View()))
      ensures woken == old(woken) + [old(readWait)] && fresh(readWait) && old(readWait).closed
    {
      readWait.Close();
      woken := woken + [readWait];
      var wait := new Channel();
      readWait := wait;
    }

    /** The lock region of one turn of readLoop. */
    method Receive(chunk: Bytes, err: Option<Failure>)
      requires Valid()
      modifies this`readBuf, this`readErr, this`reusable, this`readWait, this`woken, readWait
      ensures Valid() && View() == RespSession.Receive(old(View()), chunk, err)
      ensures old(readWait).closed
    {
      if |chunk| > 0 {
        readBuf := readBuf + chunk;
      }
      if err.Some? {
        if readErr.None? {
          readErr := err;
        }
        reusable := false;
        Broadcast();
        return;
      }
      Broadcast();
    }

    /** One turn of readValue's loop. */
    method ValueTurn() returns (r: Turned)
      requires Valid()
      modifies this`readBuf, this`reusable
      ensures Valid()
      ensures r.Return? ==> !r.a.Park? && (View(), r.a) == RespSession.ValueTurn(old(View()))
      ensures r.Wait? ==> r.c == readWait && (View(), Park(|woken|)) == RespSession.ValueTurn(old(View()))
    {
      if closed && |readBuf| == 0 {
        return Return(Failed(if readErr.None? then Eof else readErr.value));
      }
      if |readBuf| > 0 {
        var p := ParseValue(readBuf);
        if p.Ok? {
          readBuf := readBuf[p.n..];
          return Return(Got(p.v));
        }
        if !p.NeedMore? {
          reusable := false;
          return Return(Failed(BadValue));
        }
        if readErr.Some? {
          return Return(Failed(readErr.value));
        }
        if closed {
          return Return(Failed(Eof));
        }
      }
      if readErr.Some? && |readBuf| == 0 {
        return Return(Failed(readErr.value));
      }
      return Wait(readWait);
    }

    /** One turn of waitFirstByte's loop. */
    method ByteTurn() returns (r: Turned)
      requires Valid()
      ensures r.Return? ==> !r.a.Park? && r.a == RespSession.ByteTurn(View())
      ensures r.Wait? ==> r.c == readWait && Park(|woken|) == RespSession.ByteTurn(View())
    {
      if |readBuf| > 0 {
        return Return(Ready);
      }
      if readErr.Some? {
        return Return(Failed(readErr.value));
      }
      if closed {
        return Return(Failed(Eof));
      }
      return Wait(readWait);
    }

    /** Reusable */
    method Reusable() returns (yes: bool)
      ensures yes == IsReusable(View())
    {
      return reusable && !closed && !exclusive;
    }

    /** tripPeerGone: its channel is closed by the first to come, and by nobody after. */
    method TripPeerGone()
      requires Valid()
      modifies this`peerOnce, peerGone
      ensures Valid() && View() == old(View()) && peerGone.closed
    {
      if !peerOnce {
        peerOnce := true;
        peerGone.Close();
      }
    }

    /** closeSession, up to the closing of the connection, which only the first caller gets to. */
    method CloseSession() returns (first: bool)
      requires Valid()
      modifies this`closed, this`reusable, this`readWait, this`woken, this`peerOnce, readWait, closeCh, peerGone
      ensures Valid() && View() == Shut(old(View())) && first == !old(closed)
      ensures closeCh.closed && (first ==> old(readWait).closed && peerGone.closed)
    {
      if closed {
        return false;
      }
      closed := true;
      reusable := false;
      closeCh.Close();
      Broadcast();
      TripPeerGone();
      return true;
    }
  }
}
