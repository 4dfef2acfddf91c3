/**
 * From reassembled bytes to the handler's pipe: the delivery half of tcp_input,
 * tcp_process_refused_data, and tcpRecvFn with tcpConn.Receive behind them.
 *
 * The receive path is the one of TcpReceive, the connection that of TcpConn.
 * Data that the connection cannot take while it is still connecting stays in
 * `refused`; `pipe` is everything the handler has been given.
 */
module Delivery {
  import opened SeqNum
  import TcpReceive
  import TcpIn
  import TcpConn

  datatype Refused = Nothing | Kept(data: seq<byte>, fin: bool)

  function Data(r: Refused): seq<byte> {
    match r case Nothing => [] case Kept(data, _) => data
  }

  /** The err_t of a callback. */
  datatype Reply = ErrOk | ErrAbrt | ErrConn

  /** Receive takes data: the reading side is open and so is the pipe. */
  predicate Accepts(c: TcpConn.Conn) {
    TcpConn.ReadOpen(c.state) && c.reader && c.writer
  }

  /** No other goroutine steps in between. */
  predicate Quiet(gaps: TcpConn.Gaps) {
    gaps(0) == [] && gaps(1) == []
  }

  lemma {:induction false} OpenReads(c: TcpConn.Conn)
    ensures Accepts(c) ==> TcpConn.ReadOpen(c.state)
  {
  }

  /** Closed reading sides and pipes do not come back. */
  lemma {:induction false} NeverAcceptsAgain(w: TcpConn.World, w': TcpConn.World, id: TcpConn.Id)
    requires TcpConn.Onward(w, w') && id in w.conns && !Accepts(w.conns[id])
    ensures id in w'.conns && !Accepts(w'.conns[id])
  {
    assert TcpConn.OnwardAt(w, w', id);
  }

  lemma {:induction false} KeyStays(w: TcpConn.World, w': TcpConn.World, id: TcpConn.Id)
    requires TcpConn.Onward(w, w') && id in w.conns
    ensures id in w'.conns && w'.conns[id].key == w.conns[id].key
  {
    assert TcpConn.OnwardAt(w, w', id);
  }

  // --------------------------------------------- reassembly only moves forward

  lemma {:induction false} DrainAdvances(r: TcpReceive.Rx)
    ensures r.nxt <= TcpReceive.Drain(r).nxt
    decreases |r.ooseq|
  {
    if r.ooseq != [] && r.ooseq[0].pos == r.nxt { DrainAdvances(TcpReceive.TakeHead(r)); }
  }

  /** What tcp_receive hands up is what follows the bytes handed up before. */
  lemma {:induction false} ReceiveExtends(r: TcpReceive.Rx, seg: TcpReceive.Segment, memOk: bool, step: nat, stream: seq<byte>)
    requires TcpReceive.Inv(r, stream) && TcpReceive.Cut(seg, stream)
    ensures var r' := TcpReceive.Receive(r, seg, memOk, step);
      && TcpReceive.Inv(r', stream) && r.delivered <= r'.delivered && (r.gotFin ==> r'.gotFin && r'.delivered == r.delivered)
      && (seg.TcpLen() == 0 ==> r' == r)
  {
    TcpReceive.ReceiveKeepsInv(r, seg, memOk, step, stream);
    var s := TcpReceive.TrimFront(seg, r.nxt);
    DrainAdvances(r.(ooseq := TcpReceive.Absorb(TcpReceive.ClipToWindow(s, r.nxt + r.wnd), r.ooseq)));
  }

  /** Window bookkeeping touches nothing that delivery looks at. */
  lemma {:induction false} WindowStep(r: TcpReceive.Rx, e: TcpReceive.Event, step: nat, stream: seq<byte>)
    requires TcpReceive.Inv(r, stream) && !e.Arrive?
    ensures var r' := TcpReceive.Step(r, e, step);
      TcpReceive.Inv(r', stream) && r'.delivered == r.delivered && r'.gotFin == r.gotFin
  {
  }

  lemma {:induction false} DeliveredWithin(r: TcpReceive.Rx, stream: seq<byte>)
    requires TcpReceive.Inv(r, stream)
    ensures r.delivered <= stream && |r.delivered| <= |stream| && (r.gotFin ==> r.delivered == stream)
  {
  }

  // ------------------------------------------------------------- the program

  datatype Event =
    | Input(seg: TcpReceive.Segment, memOk: bool, acked: bool, sentGaps: TcpConn.Gaps, taken: nat, gaps: TcpConn.Gaps)   // tcp_input
    | Retry(taken: nat, gaps: TcpConn.Gaps)      // tcp_fasttmr, or the handler's return
    | Window(e: TcpReceive.Event)                // transmissions, queue flushes
    | Goroutine(o: TcpConn.Other)
    | Check(gaps: TcpConn.Gaps)                  // the sent and poll callbacks, Abort

  /** The handler takes up to `n` bytes at a time, and no other goroutine steps. */
  predicate UndisturbedBy(e: Event, n: nat) {
    match e
    case Input(_, _, acked, sentGaps, taken, _) => taken >= n && (acked ==> Quiet(sentGaps))
    case Retry(taken, _) => taken >= n
    case Window(_) => true
    case Goroutine(_) => false
    case Check(gaps) => Quiet(gaps)
  }

  predicate Undisturbed(events: seq<Event>, n: nat) {
    forall i :: 0 <= i < |events| ==> UndisturbedBy(events[i], n)
  }

  class Endpoint {
    const id: TcpConn.Id
    const key: TcpConn.Key
    ghost const stream: seq<byte>  // what the peer sends, all of it
    const step: nat
    var rx: TcpReceive.Rx
    ghost var trace: seq<TcpReceive.Event>   // what has happened to rx
    var refused: Refused
    var rxClosed: bool             // TF_RXCLOSED
    var world: TcpConn.World
    var pipe: seq<byte>
    var eof: bool                  // the end of the stream has been announced
    var dead: bool                 // the PCB is gone, or no longer the connection's

    /** The connection is known to the table of connections. */
    ghost predicate Known()
      reads this`world
    {
      TcpConn.Inv(world) && id in world.conns && world.conns[id].key == key
    }

    /** The handler takes data. */
    ghost predicate Open()
      requires id in world.conns
      reads this`world
    {
      Accepts(world.conns[id]) && !Connecting()
    }

    /** The receive state is what the segments of the peer's stream and the window updates have made it. */
    ghost predicate Reassembled()
      reads this`rx, this`trace
    {
      TcpReceive.Inv(rx, stream) && TcpReceive.FromSender(trace, stream) && rx == TcpReceive.Run(TcpReceive.START, trace, step)
    }

    /** The handler has not yet taken the connection on. */
    ghost predicate Connecting()
      requires id in world.conns
      reads this`world
    {
      world.conns[id].state == TcpConn.Connecting
    }

    /**
     * Nothing is repeated or skipped: the pipe and what is refused make up what
     * has been reassembled.  Once data has been thrown away (`rxClosed`), none is
     * piped any more.  The end is announced after all data, and not before it.
     */
    ghost predicate Valid()
      reads this
    {
      && Reassembled()
      && Known()
      && pipe <= rx.delivered
      && (!rxClosed && !dead ==> pipe + Data(refused) == rx.delivered)
      && (rxClosed ==> !Accepts(world.conns[id]) && refused == Nothing)
      && (eof ==> rx.gotFin && refused == Nothing && (rxClosed || pipe == rx.delivered))
      && (!dead ==> !TcpConn.Done(world.conns[id].state))
      && (!dead ==> (rx.gotFin <==> eof || (refused.Kept? && refused.fin)))
    }

    /** A connection that has just been accepted */
    constructor (id: TcpConn.Id, key: TcpConn.Key, world: TcpConn.World, step: nat, ghost stream: seq<byte>)
      requires TcpConn.Inv(world) && id !in world.conns && key !in world.table
      ensures Valid() && pipe == [] && !eof && !dead && !rxClosed && refused == Nothing
      // it opens as soon as the handler has taken it on
      ensures id in this.world.conns && Connecting() && Accepts(this.world.conns[id])
      ensures this.stream == stream && rx == TcpReceive.START && this.world == TcpConn.Open(world, id, key)
    {
      this.id, this.key, this.step, this.stream := id, key, step, stream;
      TcpConn.OpenKeepsIff(world, id, key);
      this.world := TcpConn.Open(world, id, key);
      rx, refused, rxClosed, pipe, eof, dead := TcpReceive.START, Nothing, false, [], false, false;
      trace := [];
    }

    /** One step of the receive path, recorded */
    method Advance(e: TcpReceive.Event)
      requires Reassembled() && (e.Arrive? ==> TcpReceive.Cut(e.seg, stream))
      modifies this`rx, this`trace
      ensures Reassembled() && rx == TcpReceive.Step(old(rx), e, step) && trace == old(trace) + [e]
      ensures !e.Arrive? ==> rx.delivered == old(rx).delivered && rx.gotFin == old(rx).gotFin
      ensures e.Arrive? ==> rx == TcpReceive.Receive(old(rx), e.seg, e.memOk, step) && old(rx).delivered <= rx.delivered
      ensures e.Arrive? && old(rx).gotFin ==> rx.gotFin && rx.delivered == old(rx).delivered
      ensures e.Arrive? && e.seg.TcpLen() == 0 ==> rx == old(rx)
    {
      hide TcpReceive.Inv, TcpReceive.Receive, TcpReceive.Cut, TcpReceive.Run;
      if e.Arrive? {
        ReceiveExtends(rx, e.seg, e.memOk, step, stream);
      } else {
        WindowStep(rx, e, step, stream);
      }
      TcpReceive.RunAppend(TcpReceive.START, trace, [e], step);
      TcpReceive.RunOne(rx, e, step);
      rx := TcpReceive.Step(rx, e, step);
      trace := trace + [e];
    }

    /** tcpRecvFn with data: the lookup, Receive, and the reply.  A reader that
        goes away in the middle of the write has taken `taken` bytes. */
    method RecvEvent(data: seq<byte>, taken: nat) returns (reply: Reply)
      requires Reassembled() && Known() && !TcpConn.Done(world.conns[id].state)
      requires rxClosed ==> !Accepts(world.conns[id])
      modifies this`rx, this`trace, this`pipe, this`rxClosed, this`world
      ensures Reassembled() && Known() && rx.delivered == old(rx).delivered && rx.gotFin == old(rx).gotFin
      ensures TcpConn.Onward(old(world), world) && !TcpConn.Done(world.conns[id].state)
      ensures reply == ErrConn <==> old(Connecting())
      ensures reply != ErrAbrt && (reply == ErrConn ==> unchanged(this))
      // an open reading side takes all there is, or what the reader waits for before it goes away
      ensures reply == ErrOk && old(Accepts(world.conns[id])) && taken >= |data| ==>
        pipe == old(pipe) + data && rxClosed == old(rxClosed) && world == old(world)
      ensures reply == ErrOk && old(Accepts(world.conns[id])) && taken < |data| ==>
        pipe == old(pipe) + data[..taken] && rxClosed && !world.conns[id].reader
      ensures reply == ErrOk && !old(Accepts(world.conns[id])) ==> pipe == old(pipe) && rxClosed && world == old(world)
      ensures reply == ErrOk && rxClosed ==> !Accepts(world.conns[id])
      // the window is given back for what was taken or thrown away
      ensures reply == ErrOk ==> trace == old(trace) + [TcpReceive.Recved(|data|)]
    {
      hide TcpReceive.Inv, TcpConn.Inv, TcpConn.Onward;
      TcpConn.OnwardSelf(world);
      TcpConn.LiveEntry(world, id);
      TcpConn.ReceiveCheckLive(world, id);
      if key !in world.table { return ErrAbrt; }
      var (world', err) := TcpConn.ReceiveCheck(world, id);
      if err == TcpConn.NotConnected { return ErrConn; }
      var c := world.conns[id];
      if err == TcpConn.Nil && c.reader && c.writer {
        if taken >= |data| {
          pipe := pipe + data;
          Advance(TcpReceive.Recved(|data|));
          return ErrOk;
        }
        pipe := pipe + data[..taken];
        TcpConn.DoKeeps(world, TcpConn.ReadClosing(id));
        world := TcpConn.Do(world, TcpConn.ReadClosing(id));
      }
      Advance(TcpReceive.Recved(|data|));
      rxClosed := true;
      return ErrOk;
    }

    /** TCP_EVENT_CLOSED: tcpRecvFn without data */
    method ClosedEvent(gaps: TcpConn.Gaps)
      requires Known() && !TcpConn.Done(world.conns[id].state)
      modifies this`world, this`eof, this`dead
      ensures Known() && TcpConn.Onward(old(world), world) && eof && !TcpConn.ReadOpen(world.conns[id].state)
      ensures world == TcpConn.EofFn(old(world), key, gaps).0 && (dead <==> old(dead) || TcpConn.Done(world.conns[id].state))
    {
      hide TcpConn.Inv, TcpConn.Onward, TcpConn.EofFn;
      TcpConn.LiveEntry(world, id);
      TcpConn.EofFnKeeps(world, key, gaps);
      KeyStays(world, TcpConn.EofFn(world, key, gaps).0, id);
      var (world', reply) := TcpConn.EofFn(world, key, gaps);
      world, eof := world', true;
      dead := dead || reply == TcpConn.ErrAbrt || TcpConn.Done(world.conns[id].state);
    }

    /** tcp_process_refused_data */
    method ProcessRefused(taken: nat, gaps: TcpConn.Gaps)
      requires Valid() && !dead && refused.Kept?
      modifies this`rx, this`trace, this`pipe, this`rxClosed, this`world, this`refused, this`eof, this`dead
      ensures Valid() && rx.delivered == old(rx).delivered && rx.gotFin == old(rx).gotFin
      ensures old(pipe) <= pipe && (refused.Kept? <==> old(Connecting())) && (refused.Kept? ==> unchanged(this))
      // an open reading side gets all of it, and only the end may end the connection
      ensures old(Open()) && taken >= |old(refused).data| ==>
        && pipe == rx.delivered && !rxClosed && (eof <==> rx.gotFin) && (!rx.gotFin ==> !dead && Open())
    {
      hide Reassembled, TcpConn.Inv, TcpConn.Onward, Accepts;
      ghost var w := world;
      var kept := refused;
      refused := Nothing;
      var reply := RecvEvent(kept.data, taken);
      dead := reply == ErrAbrt;
      match reply {
        case ErrOk =>
          if kept.fin {
            Advance(TcpReceive.EofAccounted);
            ghost var w1 := world;
            ClosedEvent(gaps);
            if rxClosed { NeverAcceptsAgain(w1, world, id); }
          }
        case ErrAbrt =>
        case ErrConn =>
          refused := kept;
      }
    }

    /** tcp_input, for a segment of this connection */
    method TcpInput(seg: TcpReceive.Segment, memOk: bool, acked: bool, sentGaps: TcpConn.Gaps, taken: nat, gaps: TcpConn.Gaps)
      requires Valid() && !dead && TcpReceive.Cut(seg, stream)
      modifies this`rx, this`trace, this`pipe, this`rxClosed, this`world, this`refused, this`eof, this`dead
      ensures Valid() && old(rx).delivered <= rx.delivered && old(pipe) <= pipe
      // while data stays refused the segment is dropped
      ensures old(refused).Kept? && old(Connecting()) && seg.TcpLen() > 0 ==> unchanged(this)
      // but an acknowledgement is reported
      ensures old(refused).Kept? && old(Connecting()) && seg.TcpLen() == 0 ==>
        && refused == old(refused) && pipe == old(pipe)
        && world == if acked then TcpConn.CheckFn(old(world), key, sentGaps).0 else old(world)
      // without refused data it is received
      ensures old(refused) == Nothing ==> rx.delivered == TcpReceive.Receive(old(rx), seg, memOk, step).delivered
      // after the end nothing more is handed up
      ensures old(!rxClosed && eof) ==> pipe == old(pipe) && !rxClosed && refused == Nothing && eof && rx.delivered == old(rx).delivered
      // an open reading side gets all that has been reassembled, and only the end may end the connection
      ensures old(!rxClosed && Open()) && taken >= |rx.delivered| && (acked ==> Quiet(sentGaps)) ==>
        && pipe == rx.delivered && !rxClosed && refused == Nothing
        && (!rx.gotFin ==> !dead && Open()) && (rx.gotFin ==> eof)
    {
      hide Reassembled, TcpReceive.Receive, TcpReceive.Cut, TcpConn.Inv, TcpConn.Onward, Accepts;
      if refused.Kept? {
        ProcessRefused(taken, gaps);
        if dead || (refused.Kept? && seg.TcpLen() > 0) { return; }
      }
      TakeSegment(seg, memOk, acked, sentGaps, taken, gaps);
    }

    /** tcp_process and what tcp_input does after it */
    method TakeSegment(seg: TcpReceive.Segment, memOk: bool, acked: bool, sentGaps: TcpConn.Gaps, taken: nat, gaps: TcpConn.Gaps)
      requires Valid() && !dead && TcpReceive.Cut(seg, stream) && (refused.Kept? ==> seg.TcpLen() == 0)
      modifies this`rx, this`trace, this`pipe, this`rxClosed, this`world, this`refused, this`eof, this`dead
      ensures Valid() && old(rx).delivered <= rx.delivered && old(pipe) <= pipe
      ensures rx.delivered == TcpReceive.Receive(old(rx), seg, memOk, step).delivered && (old(rx).gotFin ==> rx.gotFin)
      ensures old(!rxClosed && refused == Nothing && Open()) && taken >= |rx.delivered| && (acked ==> Quiet(sentGaps)) ==>
        && pipe == rx.delivered && !rxClosed && refused == Nothing
        && (!rx.gotFin ==> !dead && Open()) && (rx.gotFin ==> eof)
      // after the end nothing more is handed up
      ensures old(!rxClosed && eof) ==> pipe == old(pipe) && !rxClosed && refused == Nothing && eof && rx.delivered == old(rx).delivered
      // an acknowledgement is reported, and may end the connection, before anything is handed up
      ensures seg.TcpLen() == 0 ==> world == (if acked then TcpConn.CheckFn(old(world), key, sentGaps).0 else old(world))
      ensures seg.TcpLen() == 0 ==> refused == old(refused) && pipe == old(pipe)
      ensures acked && EndsConn(TcpConn.CheckFn(old(world), key, sentGaps).0) ==>
        dead && pipe == old(pipe) && world == TcpConn.CheckFn(old(world), key, sentGaps).0
    {
      hide Reassembled, TcpReceive.Receive, TcpReceive.Cut, TcpConn.Inv, TcpConn.Onward, TcpConn.CheckFn, Accepts;
      OpenReads(world.conns[id]);
      var recvData, gotFin := Reassemble(seg, memOk);
      if acked {
        SentOrPoll(sentGaps);
        if dead { return; }
      }
      HandUp(recvData, gotFin, taken, gaps);
    }

    ghost predicate EndsConn(w: TcpConn.World) {
      id in w.conns && TcpConn.Done(w.conns[id].state)
    }

    /** tcp_process: what it adds to the bytes that have been reassembled, and whether it raises the FIN */
    method Reassemble(seg: TcpReceive.Segment, memOk: bool) returns (recvData: seq<byte>, gotFin: bool)
      requires Reassembled() && TcpReceive.Cut(seg, stream)
      modifies this`rx, this`trace
      ensures Reassembled() && rx == TcpReceive.Receive(old(rx), seg, memOk, step) && rx.delivered == old(rx).delivered + recvData
      ensures (gotFin <==> rx.gotFin && !old(rx).gotFin) && (old(rx).gotFin ==> rx.gotFin)
      ensures old(rx).gotFin || seg.TcpLen() == 0 ==> recvData == [] && !gotFin
    {
      hide Reassembled, TcpReceive.Receive, TcpReceive.Cut;
      var before := rx;
      Advance(TcpReceive.Arrive(seg, memOk));
      recvData := rx.delivered[|before.delivered|..];
      gotFin := rx.gotFin && !before.gotFin;
    }

    /** tcp_input after tcp_process, with recv_data and TF_GOT_FIN.  No data is
        handed up while there is refused data. */
    method HandUp(recvData: seq<byte>, gotFin: bool, taken: nat, gaps: TcpConn.Gaps)
      requires Reassembled() && Known() && !dead && !TcpConn.Done(world.conns[id].state)
      requires recvData != [] || gotFin ==> refused == Nothing && !eof
      requires pipe <= rx.delivered && (!rxClosed ==> pipe + Data(refused) + recvData == rx.delivered)
      requires rxClosed ==> !Accepts(world.conns[id]) && refused == Nothing
      requires eof ==> refused == Nothing && (rxClosed || pipe == rx.delivered)
      requires rx.gotFin <==> eof || gotFin || (refused.Kept? && refused.fin)
      modifies this`rx, this`trace, this`pipe, this`rxClosed, this`world, this`refused, this`eof, this`dead
      ensures Valid() && rx.delivered == old(rx).delivered && rx.gotFin == old(rx).gotFin && old(pipe) <= pipe
      ensures old(refused).Kept? ==> pipe == old(pipe) && refused == old(refused)
      ensures dead ==> gotFin || (old(rxClosed) && recvData != [])
      ensures old(!rxClosed && refused == Nothing && Open()) && taken >= |recvData| ==>
        pipe == rx.delivered && !rxClosed && refused == Nothing && (gotFin ==> eof) && (!gotFin ==> !dead && Open())
      ensures recvData == [] && !gotFin ==> unchanged(this)
    {
      hide Reassembled, TcpConn.Inv, TcpConn.Onward, Accepts;
      if recvData != [] {
        if rxClosed {
          dead := true;
          return;
        }
        var reply := RecvEvent(recvData, taken);
        dead := reply == ErrAbrt;
        if dead { return; }
        if reply != ErrOk { refused := Kept(recvData, false); }
      }
      if gotFin { GotFin(gaps); }
    }

    /** tcp_input's handling of TF_GOT_FIN: delayed if data is refused */
    method GotFin(gaps: TcpConn.Gaps)
      requires Reassembled() && Known() && !dead && !eof && !TcpConn.Done(world.conns[id].state)
      requires pipe <= rx.delivered && (!rxClosed ==> pipe + Data(refused) == rx.delivered)
      requires rxClosed ==> !Accepts(world.conns[id]) && refused == Nothing
      requires rx.gotFin
      modifies this`rx, this`trace, this`world, this`refused, this`eof, this`dead
      ensures Valid() && Data(refused) == old(Data(refused)) && rx.delivered == old(rx).delivered && rx.gotFin
      ensures refused.Kept? == old(refused).Kept? && (refused == Nothing ==> eof) && (refused.Kept? ==> !eof && refused.fin)
    {
      hide Reassembled, TcpConn.Inv, TcpConn.Onward, Accepts;
      if refused.Kept? {
        refused := refused.(fin := true);
      } else {
        Advance(TcpReceive.EofAccounted);
        ghost var w := world;
        ClosedEvent(gaps);
        if rxClosed { NeverAcceptsAgain(w, world, id); }
      }
    }

    /** The sent and poll callbacks: checkState */
    method SentOrPoll(gaps: TcpConn.Gaps)
      requires Known() && !TcpConn.Done(world.conns[id].state) && (rxClosed ==> !Accepts(world.conns[id]))
      modifies this`world, this`dead
      ensures Known() && TcpConn.Onward(old(world), world) && (rxClosed ==> !Accepts(world.conns[id]))
      ensures world == TcpConn.CheckFn(old(world), key, gaps).0 && (dead <==> TcpConn.Done(world.conns[id].state))
      ensures old(TcpConn.ReadOpen(world.conns[id].state)) && Quiet(gaps) ==> world == old(world)
    {
      hide TcpConn.Inv, TcpConn.Onward, TcpConn.CheckFn, Accepts;
      TcpConn.LiveEntry(world, id);
      if TcpConn.ReadOpen(world.conns[id].state) && Quiet(gaps) { TcpConn.CheckFnQuiet(world, key, gaps); }
      TcpConn.CheckFnKeeps(world, key, gaps);
      KeyStays(world, TcpConn.CheckFn(world, key, gaps).0, id);
      if rxClosed { NeverAcceptsAgain(world, TcpConn.CheckFn(world, key, gaps).0, id); }
      var (world', reply) := TcpConn.CheckFn(world, key, gaps);
      world := world';
      dead := reply == TcpConn.ErrAbrt || TcpConn.Done(world.conns[id].state);
    }

    /** A step of some goroutine on some connection */
    method OtherEvent(o: TcpConn.Other)
      requires Valid()
      modifies this`world
      ensures Valid() && world == TcpConn.Do(old(world), o)
    {
      hide TcpReceive.Inv, TcpConn.Inv, TcpConn.Onward, TcpConn.Do, Accepts;
      TcpConn.DoKeeps(world, o);
      KeyStays(world, TcpConn.Do(world, o), id);
      if rxClosed { NeverAcceptsAgain(world, TcpConn.Do(world, o), id); }
      world := TcpConn.Do(world, o);
    }

    /**
     * Every run: whatever arrives, however it was cut, lost, repeated or
     * reordered, whatever is refused and retried, and whatever goroutines do in
     * between, the handler has been given a prefix of the peer's stream, and the
     * end of the stream is announced after all of it.  While the handler reads and
     * nobody closes or aborts, it is given everything that has been reassembled, and
     * only the end of the stream ends the connection.
     */
    method Run(events: seq<Event>)
      requires Valid()
      requires forall i :: 0 <= i < |events| && events[i].Input? ==> TcpReceive.Cut(events[i].seg, stream)
      requires forall i :: 0 <= i < |events| && events[i].Window? ==> !events[i].e.Arrive?
      modifies this
      ensures Valid()
      ensures old(pipe) <= pipe <= stream && (eof && !rxClosed ==> pipe == stream)
      ensures old(!dead && !rxClosed && refused == Nothing && Open()) && Undisturbed(events, |stream|) ==>
        pipe == rx.delivered && (rx.gotFin ==> eof && pipe == stream) && (!rx.gotFin ==> !dead && Open())
    {
      hide TcpReceive.Cut, Accepts, TcpConn.Inv;
      ghost var calm := !dead && !rxClosed && refused == Nothing && Open() && Undisturbed(events, |stream|);
      var i := 0;
      while i < |events|
        invariant i <= |events| && Valid() && old(pipe) <= pipe
        invariant calm ==> AllPiped()
      {
        if dead { break; }
        Happen(events[i]);
        i := i + 1;
      }
      DeliveredWithin(rx, stream);
    }

    method Happen(event: Event)
      requires Valid() && !dead
      requires event.Input? ==> TcpReceive.Cut(event.seg, stream)
      requires event.Window? ==> !event.e.Arrive?
      modifies this
      ensures Valid() && old(pipe) <= pipe
      ensures old(AllPiped()) && UndisturbedBy(event, |stream|) ==> AllPiped()
    {
      hide TcpReceive.Cut, Accepts, TcpConn.Inv, TcpConn.Onward, TcpReceive.Inv, TcpReceive.Run;
      OpenReads(world.conns[id]);
      match event {
        case Input(seg, memOk, acked, sentGaps, taken, gaps) =>
          TcpInput(seg, memOk, acked, sentGaps, taken, gaps);
          DeliveredWithin(rx, stream);
        case Retry(taken, gaps) =>
          if refused.Kept? { ProcessRefused(taken, gaps); }
        case Window(e) => Advance(e);
        case Goroutine(o) => OtherEvent(o);
        case Check(gaps) => SentOrPoll(gaps);
      }
    }

    /** Everything has been handed up, and the connection is as before or has got its end. */
    ghost predicate AllPiped()
      requires id in world.conns
      reads this
    {
      pipe == rx.delivered && !rxClosed && refused == Nothing && (rx.gotFin ==> eof) && (!rx.gotFin ==> !dead && Open())
    }
  }
  /**
   * The same in the numbers of the code: whatever has happened to an endpoint, a PCB to which the same happens in
   * 32-bit sequence numbers and 16-bit windows has handed up what the endpoint has reassembled, and the handler
   * has been given a prefix of that.
   */
  method OnTheWire(end: Endpoint, pcb: TcpIn.TcpPcb, ins: seq<TcpIn.Input>) returns (received: seq<byte>, halted: bool)
    requires end.Valid() && pcb.Valid() && pcb.rx == TcpReceive.START && pcb.stream == end.stream && pcb.WndStep() == end.step
    requires TcpIn.AllPlausible(ins, pcb.rx, pcb.irs, end.step, end.stream)
    requires TcpIn.AllMeant(ins, pcb.rx, pcb.irs, end.step) == end.trace
    modifies pcb
    ensures halted <==> !TcpIn.NoOverrun(TcpReceive.START, end.trace, end.step)
    ensures !halted ==> pcb.Valid() && pcb.rx == end.rx && received == end.rx.delivered
    ensures !halted ==> end.pipe <= received <= end.stream && (end.eof && !end.rxClosed ==> end.pipe == received == end.stream)
  {
    hide TcpReceive.Inv, TcpIn.AllPlausible, TcpIn.AllMeant, TcpIn.NoOverrun, TcpReceive.Run;
    StartsEmpty();
    received, halted := pcb.RunFrom(ins);
    if !halted { DeliveredWithin(end.rx, end.stream); }
  }

  lemma {:induction false} StartsEmpty()
    ensures TcpReceive.START.delivered == []
  {
  }
}
