/**
 * The life of a tcpConn (tcp_conn.go, tcp_callback_export.go).
 *
 * A step is what runs while the connection's own lock is held.  The callbacks
 * and `Abort` hold lwipMutex for several such steps; between those, other
 * goroutines may take the steps that need the connection's lock alone
 * (`Other`).  tcpConns is the table from keys to connections, and `frees`
 * counts how often a connection's key argument has been freed.
 */
module TcpConn {

  type Id = nat
  type Key = nat

  datatype State =
    | NewConn | Connecting | Connected | WriteClosed | ReceiveClosed | Closing | Aborting | Closed | Errored

  /** The constants of the source, in their order. */
  function Rank(s: State): nat {
    match s
    case NewConn => 0 case Connecting => 1 case Connected => 2 case WriteClosed => 3 case ReceiveClosed => 4
    case Closing => 5 case Aborting => 6 case Closed => 7 case Errored => 8
  }

  datatype Conn = Conn(state: State, key: Key, frees: nat, reader: bool, writer: bool)

  datatype World = World(conns: map<Id, Conn>, table: map<Key, Id>)

  /** A lwipError, or nil. */
  datatype Err = Nil | Ok | Abrt | NotConnected | Clsd

  // ------------------------------------------------- steps under one lock

  function Put(w: World, id: Id, state: State): World
    requires id in w.conns
  {
    w.(conns := w.conns[id := w.conns[id].(state := state)])
  }

  /** release: only the entry found in the table has its key freed. */
  function Release(w: World, id: Id): World
    requires id in w.conns
  {
    var c := w.conns[id].(state := Closed, reader := false, writer := false);
    if c.key in w.table then World(w.conns[id := c.(frees := c.frees + 1)], w.table - {c.key})
    else w.(conns := w.conns[id := c])
  }

  /** newTCPConn */
  function Open(w: World, id: Id, key: Key): World {
    World(w.conns[id := Conn(Connecting, key, 0, true, true)], w.table[key := id])
  }

  /** Err */
  function Fail(w: World, id: Id): World
    requires id in w.conns
  {
    Put(Release(w, id), id, Errored)
  }

  /** tcpErrFn */
  function ErrFn(w: World, key: Key): World {
    if key in w.table && w.table[key] in w.conns then Fail(w, w.table[key]) else w
  }

  /** abortInternal: tcp_abort calls tcpErrFn in turn. */
  function AbortInternal(w: World, id: Id): World
    requires id in w.conns
  {
    ErrFn(Release(w, id), w.conns[id].key)
  }

  /** checkClosing and checkAborting */
  function CheckClosing(w: World, id: Id): World
    requires id in w.conns
  {
    if w.conns[id].state == Closing then Release(w, id) else w
  }

  function CheckAborting(w: World, id: Id): World
    requires id in w.conns
  {
    if w.conns[id].state == Aborting then AbortInternal(w, id) else w
  }

  /** setLocalClosed */
  function LocalClose(w: World, id: Id): World
    requires id in w.conns
  {
    var c := w.conns[id];
    if Rank(c.state) >= Rank(Closing) || c.state == ReceiveClosed then w
    else w.(conns := w.conns[id := c.(writer := false, state := if c.state == WriteClosed then Closing else ReceiveClosed)])
  }

  /** receiveCheck */
  function ReceiveCheck(w: World, id: Id): (World, Err)
    requires id in w.conns
  {
    match w.conns[id].state
    case Connected | WriteClosed => (w, Nil)
    case NewConn | Connecting => (w, NotConnected)
    case Aborting | Closed | ReceiveClosed | Closing => (w, Clsd)
    case Errored => (AbortInternal(w, id), Abrt)
  }

  /** Steps that other goroutines take without lwipMutex. */
  datatype Other =
    | HandlerReturned(id: Id)   // the handler succeeded
    | AbortAsked(id: Id)        // Abort, first half
    | WriteClosing(id: Id)      // CloseWrite, first half
    | ReadClosing(id: Id)       // CloseRead

  function Do(w: World, o: Other): World {
    if o.id !in w.conns then w
    else
      var c := w.conns[o.id];
      match o
      case HandlerReturned(id) => if c.state == Connecting then Put(w, id, Connected) else w
      case AbortAsked(id) => if Rank(c.state) < Rank(Aborting) then Put(w, id, Aborting) else w
      case WriteClosing(id) =>
        if Rank(c.state) >= Rank(Closing) || c.state == WriteClosed then w
        else Put(w, id, if c.state == ReceiveClosed then Closing else WriteClosed)
      case ReadClosing(id) => w.(conns := w.conns[id := c.(reader := false)])
  }

  function DoAll(w: World, os: seq<Other>): World {
    if os == [] then w else Do(DoAll(w, os[..|os| - 1]), os[|os| - 1])
  }

  /** What other goroutines do between the lock-protected parts of a call. */
  type Gaps = nat -> seq<Other>

  /** checkState: isClosed, checkClosing and checkAborting, each under the lock
      by itself. */
  function CheckState(w: World, id: Id, gaps: Gaps): (World, Err)
    requires id in w.conns
  {
    if w.conns[id].state == Closed then (w, Nil)
    else
      var w1 := DoAll(w, gaps(0));
      if id !in w1.conns then (w1, Ok)
      else if w1.conns[id].state == Closing then (CheckClosing(w1, id), Ok)
      else
        var w2 := DoAll(w1, gaps(1));
        if id !in w2.conns then (w2, Ok)
        else if w2.conns[id].state == Aborting then (CheckAborting(w2, id), Abrt)
        else (w2, Ok)
  }

  // ------------------------------------------------------------- the invariant

  predicate Done(s: State) { s == Closed || s == Errored }

  /** A connection is in the table exactly when it is not closed or errored, and
      its key has been freed exactly when it is not in the table. */
  ghost predicate Tracked(w: World, id: Id)
    requires id in w.conns
  {
    var c := w.conns[id];
    && (c.key in w.table && w.table[c.key] == id <==> !Done(c.state))
    && c.frees == (if Done(c.state) then 1 else 0)
    && c.state != NewConn
  }

  /** A table entry leads to the connection that has its key. */
  ghost predicate Entry(w: World, k: Key)
    requires k in w.table
  {
    w.table[k] in w.conns && w.conns[w.table[k]].key == k
  }

  ghost predicate Inv(w: World) {
    && (forall id {:trigger Tracked(w, id)} :: id in w.conns ==> Tracked(w, id))
    && (forall k {:trigger Entry(w, k)} :: k in w.table ==> Entry(w, k))
  }

  predicate ReadOpen(s: State) { Rank(s) <= Rank(WriteClosed) }

  predicate WriteOpen(s: State) { Rank(s) <= Rank(Connected) || s == ReceiveClosed }

  /** No side that was closed has been opened, and the end is final. */
  predicate Later(c: Conn, c': Conn) {
    && c'.key == c.key && c.frees <= c'.frees
    && (ReadOpen(c'.state) ==> ReadOpen(c.state))
    && (WriteOpen(c'.state) ==> WriteOpen(c.state))
    && (c'.reader ==> c.reader) && (c'.writer ==> c.writer)
    && (Done(c.state) ==> Done(c'.state))
  }

  ghost predicate OnwardAt(w: World, w': World, id: Id) {
    id in w.conns ==> id in w'.conns && Later(w.conns[id], w'.conns[id])
  }

  ghost predicate Onward(w: World, w': World) {
    forall id :: OnwardAt(w, w', id)
  }

  lemma {:induction false} OnwardTrans(w: World, w1: World, w2: World)
    requires Onward(w, w1) && Onward(w1, w2)
    ensures Onward(w, w2)
  {
    forall id ensures OnwardAt(w, w2, id) { assert OnwardAt(w, w1, id) && OnwardAt(w1, w2, id); }
  }

  /** A live connection's table entry is its own. */
  lemma {:induction false} LiveEntry(w: World, id: Id)
    requires Inv(w) && id in w.conns && !Done(w.conns[id].state)
    ensures w.conns[id].key in w.table && w.table[w.conns[id].key] == id && w.conns[id].frees == 0
  {
    assert Tracked(w, id);
  }

  /** Changing one connection's state short of ending it keeps the invariant. */
  lemma {:induction false} PutKeeps(w: World, id: Id, c: Conn)
    requires Inv(w) && id in w.conns && !Done(w.conns[id].state)
    requires c.key == w.conns[id].key && c.frees == w.conns[id].frees && !Done(c.state) && c.state != NewConn
    ensures Inv(w.(conns := w.conns[id := c]))
  {
    var w' := w.(conns := w.conns[id := c]);
    forall i | i in w'.conns ensures Tracked(w', i) { assert Tracked(w, i); }
    forall k | k in w'.table ensures Entry(w', k) { assert Entry(w, k); }
  }

  /** The connection is in the table and neither closed nor errored. */
  predicate Live(w: World, id: Id) {
    id in w.conns && !Done(w.conns[id].state)
  }

  /** A live connection has ended, its key freed once; every other connection and entry is as it was. */
  ghost predicate Ended(w: World, w': World, id: Id, final: State) {
    && Inv(w') && Onward(w, w') && id in w.conns && id in w'.conns
    && w'.conns[id].state == final && w'.conns[id].frees == 1 && !w'.conns[id].reader && !w'.conns[id].writer
    && w'.table == w.table - {w.conns[id].key} && w'.conns == w.conns[id := w'.conns[id]]
  }

  /** Releasing a live connection frees its key, once, and no other. */
  lemma {:induction false} ReleaseKeeps(w: World, id: Id, final: State)
    requires Inv(w) && Live(w, id) && Done(final)
    ensures Ended(w, Put(Release(w, id), id, final), id, final)
  {
    LiveEntry(w, id);
    var w' := Put(Release(w, id), id, final);
    forall i | i in w'.conns ensures Tracked(w', i) {
      assert Tracked(w, i);
      if i != id && !Done(w.conns[i].state) { LiveEntry(w, i); }
    }
    forall k | k in w'.table ensures Entry(w', k) { assert Entry(w, k); }
  }

  /** The nested error callback finds nothing. */
  lemma {:induction false} AbortKeeps(w: World, id: Id)
    requires Inv(w) && id in w.conns && !Done(w.conns[id].state)
    ensures AbortInternal(w, id) == Put(Release(w, id), id, Closed)
    ensures Ended(w, AbortInternal(w, id), id, Closed)
  {
    ReleaseKeeps(w, id, Closed);
    assert Put(Release(w, id), id, Closed) == Release(w, id);
  }

  /** Every step of another goroutine keeps the invariant, ends no connection
      and touches no table entry. */
  lemma {:induction false} DoKeeps(w: World, o: Other)
    requires Inv(w)
    ensures Inv(Do(w, o)) && Onward(w, Do(w, o)) && Unended(w, Do(w, o))
  {
    if o.id in w.conns {
      var w' := Do(w, o);
      var c, c' := w.conns[o.id], w'.conns[o.id];
      assert Tracked(w, o.id);
      assert w' == w.(conns := w.conns[o.id := c']);
      if !Done(c.state) { PutKeeps(w, o.id, c'); } else { SameEnd(w, o.id, c'); }
    }
  }

  /** What each step does to its connection, and that it does nothing else. */
  lemma {:induction false} DoTakesEffect(w: World, o: Other)
    requires o.id in w.conns
    ensures Do(w, o).conns.Keys == w.conns.Keys && Do(w, o) == w.(conns := w.conns[o.id := Do(w, o).conns[o.id]])
    ensures var c, c' := w.conns[o.id], Do(w, o).conns[o.id];
      && c'.key == c.key && c'.frees == c.frees && c'.writer == c.writer
      && (o.ReadClosing? ==> !c'.reader && c'.state == c.state)
      && (!o.ReadClosing? ==> c'.reader == c.reader)
      && (o.HandlerReturned? ==> c'.state == if c.state == Connecting then Connected else c.state)
      && (o.AbortAsked? ==> c'.state == if Done(c.state) then c.state else Aborting)
      && (o.WriteClosing? ==> !WriteOpen(c'.state) && ReadOpen(c'.state) == ReadOpen(c.state))
      && (o.WriteClosing? && !WriteOpen(c.state) ==> c' == c)
      && (o.WriteClosing? && WriteOpen(c.state) ==> c'.state == WriteClosed || c'.state == Closing)
  {
  }

  lemma {:induction false} SameEnd(w: World, id: Id, c: Conn)
    requires Inv(w) && id in w.conns && c == w.conns[id].(reader := c.reader)
    ensures Inv(w.(conns := w.conns[id := c]))
  {
    var w' := w.(conns := w.conns[id := c]);
    forall i | i in w'.conns ensures Tracked(w', i) { assert Tracked(w, i); }
    forall k | k in w'.table ensures Entry(w', k) { assert Entry(w, k); }
  }

  /** Live connections are live still, and the table is the same. */
  ghost predicate Unended(w: World, w': World) {
    && w'.table == w.table && w'.conns.Keys == w.conns.Keys
    && (forall id :: id in w.conns && id in w'.conns ==> (Done(w.conns[id].state) <==> Done(w'.conns[id].state)))
  }

  lemma {:induction false} DoAllKeeps(w: World, os: seq<Other>)
    requires Inv(w)
    ensures Inv(DoAll(w, os)) && Onward(w, DoAll(w, os)) && Unended(w, DoAll(w, os))
  {
    if os != [] {
      var w1 := DoAll(w, os[..|os| - 1]);
      DoAllKeeps(w, os[..|os| - 1]);
      DoKeeps(w1, os[|os| - 1]);
      OnwardTrans(w, w1, DoAll(w, os));
    }
  }

  lemma {:induction false} LocalCloseKeeps(w: World, id: Id)
    requires Inv(w) && id in w.conns
    ensures Inv(LocalClose(w, id)) && Onward(w, LocalClose(w, id)) && Unended(w, LocalClose(w, id))
    // the reading side is closed and with it the pipe to the handler; the writing side is as it was
    ensures var c, c' := w.conns[id], LocalClose(w, id).conns[id];
      && !ReadOpen(c'.state) && WriteOpen(c'.state) == WriteOpen(c.state) && c'.reader == c.reader
      && (ReadOpen(c.state) ==> !c'.writer) && (!ReadOpen(c.state) ==> c' == c)
    ensures LocalClose(w, id) == w.(conns := w.conns[id := LocalClose(w, id).conns[id]])
  {
    var w' := LocalClose(w, id);
    assert Tracked(w, id);
    if w' != w {
      assert w' == w.(conns := w.conns[id := w'.conns[id]]);
      PutKeeps(w, id, w'.conns[id]);
    }
  }

  /** checkState keeps the invariant, whatever happens in between, and returns
      nil only for a connection that had been closed before. */
  lemma {:induction false} CheckStateKeeps(w: World, id: Id, gaps: Gaps)
    requires Inv(w) && id in w.conns
    ensures var (w', err) := CheckState(w, id, gaps);
      && Inv(w') && Onward(w, w')
      && (err == Nil <==> w.conns[id].state == Closed) && (err == Nil || err == Ok || err == Abrt)
  {
    hide Inv, Onward, AbortInternal, Release;
    OnwardSelf(w);
    if w.conns[id].state != Closed {
      DoAllKeeps(w, gaps(0));
      var w1 := DoAll(w, gaps(0));
      if w1.conns[id].state == Closing {
        CloseKeeps(w1, id);
        OnwardTrans(w, w1, Release(w1, id));
      } else {
        DoAllKeeps(w1, gaps(1));
        var w2 := DoAll(w1, gaps(1));
        OnwardTrans(w, w1, w2);
        if w2.conns[id].state == Aborting {
          AbortKeeps(w2, id);
          OnwardTrans(w, w2, AbortInternal(w2, id));
        }
      }
    }
  }

  /** checkState finds the connection aborting when it comes to that. */
  predicate FoundAborting(w: World, id: Id, gaps: Gaps) {
    var w1 := DoAll(w, gaps(0));
    var w2 := DoAll(w1, gaps(1));
    id in w1.conns && w1.conns[id].state != Closing && id in w2.conns && w2.conns[id].state == Aborting
  }

  /** checkState ends a connection that is closing or aborting when it looks, and says which; otherwise nothing
      happens but what other goroutines do. */
  lemma {:induction false} CheckStateEnds(w: World, id: Id, gaps: Gaps)
    requires Inv(w) && id in w.conns && w.conns[id].state != Closed
    ensures var (w', err) := CheckState(w, id, gaps);
      var w1 := DoAll(w, gaps(0));
      var w2 := DoAll(w1, gaps(1));
      && id in w1.conns && id in w2.conns
      && (w1.conns[id].state == Closing ==> err == Ok && Ended(w1, w', id, Closed))
      && (w1.conns[id].state != Closing && w2.conns[id].state == Aborting ==> err == Abrt && Ended(w2, w', id, Closed))
      && (w1.conns[id].state != Closing && w2.conns[id].state != Aborting ==> err == Ok && w' == w2)
  {
    hide Inv, Onward, AbortInternal, Release, Ended;
    DoAllKeeps(w, gaps(0));
    var w1 := DoAll(w, gaps(0));
    DoAllKeeps(w1, gaps(1));
    var w2 := DoAll(w1, gaps(1));
    if w1.conns[id].state == Closing {
      CloseKeeps(w1, id);
    } else if w2.conns[id].state == Aborting {
      AbortKeeps(w2, id);
    }
  }

  lemma {:induction false} CloseKeeps(w: World, id: Id)
    requires Inv(w) && id in w.conns && !Done(w.conns[id].state)
    ensures Ended(w, Release(w, id), id, Closed)
  {
    ReleaseKeeps(w, id, Closed);
    assert Put(Release(w, id), id, Closed) == Release(w, id);
  }

  lemma {:induction false} OnwardSelf(w: World)
    ensures Onward(w, w)
  {
  }

  // ------------------------------------------------------------ the callbacks

  /** The err_t a callback returns; a nil error does not survive the type
      assertion err.(*lwipError). */
  datatype Reply = ErrOk | ErrAbrt | ErrConn | Panic

  function Answer(err: Err): Reply {
    match err
    case Nil => Panic
    case Ok => ErrOk
    case Abrt => ErrAbrt
    case NotConnected => ErrAbrt
    case Clsd => ErrAbrt
  }

  /** tcpSentFn and tcpPollFn */
  function CheckFn(w: World, key: Key, gaps: Gaps): (World, Reply) {
    if key in w.table && w.table[key] in w.conns then
      var (w', err) := CheckState(w, w.table[key], gaps);
      (w', Answer(err))
    else (w, ErrAbrt)
  }

  /** tcpRecvFn without data: LocalClosed */
  function EofFn(w: World, key: Key, gaps: Gaps): (World, Reply) {
    if key in w.table && w.table[key] in w.conns then
      var w1 := DoAll(LocalClose(w, w.table[key]), gaps(2));
      if w.table[key] !in w1.conns then (w1, ErrOk)
      else
        var (w', err) := CheckState(w1, w.table[key], gaps);
        (w', Answer(err))
    else (w, ErrAbrt)
  }

  /** tcpRecvFn with data, whatever the pipe makes of it */
  function RecvFn(w: World, key: Key): (World, Reply) {
    if key in w.table && w.table[key] in w.conns then
      match ReceiveCheck(w, w.table[key])
      case (w', NotConnected) => (w', ErrConn)
      case (w', Abrt) => (w', ErrAbrt)
      case (w', _) => (w', ErrOk)
    else (w, ErrAbrt)
  }

  datatype Event =
    | Accept(id: Id, key: Key)
    | Step(other: Other)
    | Recv(key: Key)
    | Eof(key: Key, gaps: Gaps)
    | Sent(key: Key, gaps: Gaps)
    | Error(key: Key)
    | AbortRest(id: Id, gaps: Gaps)   // Abort, second half

  function Next(w: World, e: Event): (World, Reply) {
    match e
    case Accept(id, key) => (Open(w, id, key), ErrOk)
    case Step(o) => (Do(w, o), ErrOk)
    case Recv(key) => RecvFn(w, key)
    case Eof(key, gaps) => EofFn(w, key, gaps)
    case Sent(key, gaps) => CheckFn(w, key, gaps)
    case Error(key) => (ErrFn(w, key), ErrOk)
    case AbortRest(id, gaps) => if id in w.conns then (CheckState(w, id, gaps).0, ErrOk) else (w, ErrOk)
  }

  /** A new object, and a key that no live connection has. */
  predicate NewKey(w: World, e: Event) {
    e.Accept? ==> e.id !in w.conns && e.key !in w.table
  }

  /** Registering a connection is safe exactly when its random key is not that
      of a connection in the table. */
  lemma {:induction false} OpenKeepsIff(w: World, id: Id, key: Key)
    requires Inv(w) && id !in w.conns
    ensures Inv(Open(w, id, key)) <==> key !in w.table
    ensures key !in w.table ==> Onward(w, Open(w, id, key))
    // it is connecting, and both ends of the pipe are open
    ensures var c := Open(w, id, key).conns[id];
      c.state == Connecting && c.key == key && c.frees == 0 && c.reader && c.writer
    ensures Open(w, id, key).table == w.table[key := id] && Open(w, id, key).conns == w.conns[id := Open(w, id, key).conns[id]]
  {
    var w' := Open(w, id, key);
    if key in w.table {
      var other := w.table[key];
      assert Entry(w, key);
      assert Tracked(w, other) && other in w'.conns;
      assert !Tracked(w', other);
    } else {
      forall k | k in w'.table ensures Entry(w', k) {
        if k != key { assert Entry(w, k); }
      }
      forall i | i in w'.conns ensures Tracked(w', i) {
        if i != id { assert Tracked(w, i); }
      }
    }
  }

  lemma {:induction false} FindLive(w: World, key: Key)
    requires Inv(w) && key in w.table
    ensures w.table[key] in w.conns && !Done(w.conns[w.table[key]].state) && w.conns[w.table[key]].key == key
  {
    assert Entry(w, key);
    assert Tracked(w, w.table[key]);
  }

  lemma {:induction false} CheckFnKeeps(w: World, key: Key, gaps: Gaps)
    requires Inv(w)
    ensures var (w', reply) := CheckFn(w, key, gaps); Inv(w') && Onward(w, w') && reply != Panic
    // ErrAbrt is the answer exactly when there is no connection, or it was to be aborted
    ensures var (w', reply) := CheckFn(w, key, gaps);
      && (key !in w.table ==> w' == w && reply == ErrAbrt)
      && (key in w.table ==> w.table[key] in w.conns && w.table[key] in w'.conns)
      && (key in w.table ==> (reply == ErrAbrt <==> FoundAborting(w, w.table[key], gaps)))
      && (key in w.table && reply == ErrAbrt ==> w'.conns[w.table[key]].state == Closed)
  {
    hide Inv, Onward, CheckState;
    OnwardSelf(w);
    if key in w.table {
      FindLive(w, key);
      CheckStateKeeps(w, w.table[key], gaps);
      CheckStateEnds(w, w.table[key], gaps);
    }
  }

  /** Without other goroutines nothing happens to a connection that is neither closing nor aborting. */
  lemma {:induction false} CheckFnQuiet(w: World, key: Key, gaps: Gaps)
    requires Inv(w) && key in w.table && gaps(0) == [] && gaps(1) == []
    requires w.table[key] in w.conns && w.conns[w.table[key]].state != Closing && w.conns[w.table[key]].state != Aborting
    ensures CheckFn(w, key, gaps) == (w, ErrOk)
  {
    FindLive(w, key);
  }

  lemma {:induction false} EofFnKeeps(w: World, key: Key, gaps: Gaps)
    requires Inv(w)
    ensures var (w', reply) := EofFn(w, key, gaps);
      && Inv(w') && Onward(w, w') && reply != Panic
      && (key in w.table ==> w.table[key] in w'.conns && !ReadOpen(w'.conns[w.table[key]].state))
      && (key !in w.table ==> w' == w && reply == ErrAbrt) && reply != ErrConn
      && (key in w.table && reply == ErrAbrt ==> w'.conns[w.table[key]].state == Closed)
      && (key in w.table && w.table[key] in w.conns ==>
            (reply == ErrAbrt <==> FoundAborting(DoAll(LocalClose(w, w.table[key]), gaps(2)), w.table[key], gaps)))
  {
    hide Inv, Onward, CheckState, LocalClose;
    OnwardSelf(w);
    if key in w.table {
      FindLive(w, key);
      var id := w.table[key];
      var w0 := LocalClose(w, id);
      LocalCloseKeeps(w, id);
      DoAllKeeps(w0, gaps(2));
      var w1 := DoAll(w0, gaps(2));
      OnwardTrans(w, w0, w1);
      CheckStateKeeps(w1, id, gaps);
      if w1.conns[id].state != Closed { CheckStateEnds(w1, id, gaps); }
      OnwardTrans(w0, w1, CheckState(w1, id, gaps).0);
      OnwardTrans(w, w0, CheckState(w1, id, gaps).0);
      StaysClosed(w0, CheckState(w1, id, gaps).0, id);
    }
  }

  lemma {:induction false} StaysClosed(w: World, w': World, id: Id)
    requires Onward(w, w') && id in w.conns && !ReadOpen(w.conns[id].state)
    ensures id in w'.conns && !ReadOpen(w'.conns[id].state)
  {
    assert OnwardAt(w, w', id);
  }

  /** Data is taken by a live connection exactly when it is connected and its reading side is open. */
  lemma {:induction false} ReceiveCheckLive(w: World, id: Id)
    requires Inv(w) && Live(w, id)
    ensures var (w', err) := ReceiveCheck(w, id);
      && w' == w && (err == Nil <==> ReadOpen(w.conns[id].state) && w.conns[id].state != Connecting)
      && (err == NotConnected <==> w.conns[id].state == Connecting) && (err == Nil || err == NotConnected || err == Clsd)
  {
    assert Tracked(w, id);
  }

  lemma {:induction false} RecvFnKeeps(w: World, key: Key)
    requires Inv(w)
    ensures RecvFn(w, key).0 == w && RecvFn(w, key).1 != Panic
    // refused for now exactly while connecting, and for good exactly without a connection
    ensures RecvFn(w, key).1 == ErrConn <==> key in w.table && w.table[key] in w.conns && w.conns[w.table[key]].state == Connecting
    ensures RecvFn(w, key).1 == ErrAbrt <==> key !in w.table
  {
    if key in w.table {
      FindLive(w, key);
      assert Tracked(w, w.table[key]);
    }
  }

  /** Every event keeps the invariant, reopens nothing and panics nowhere. */
  lemma {:induction false} NextKeeps(w: World, e: Event)
    requires Inv(w) && NewKey(w, e)
    ensures Inv(Next(w, e).0) && Onward(w, Next(w, e).0) && Next(w, e).1 != Panic
  {
    hide Inv, Onward, Open, Do, RecvFn, EofFn, CheckFn, ErrFn, CheckState;
    OnwardSelf(w);
    match e
    case Accept(id, key) => OpenKeepsIff(w, id, key);
    case Step(o) => DoKeeps(w, o);
    case Recv(key) => RecvFnKeeps(w, key);
    case Eof(key, gaps) => EofFnKeeps(w, key, gaps);
    case Sent(key, gaps) => CheckFnKeeps(w, key, gaps);
    case Error(key) => ErrFnKeeps(w, key);
    case AbortRest(id, gaps) => if id in w.conns { CheckStateKeeps(w, id, gaps); }
  }

  lemma {:induction false} ErrFnKeeps(w: World, key: Key)
    requires Inv(w)
    ensures Inv(ErrFn(w, key)) && Onward(w, ErrFn(w, key))
    ensures if key in w.table then Ended(w, ErrFn(w, key), w.table[key], Errored) else ErrFn(w, key) == w
  {
    OnwardSelf(w);
    if key in w.table {
      FindLive(w, key);
      ReleaseKeeps(w, w.table[key], Errored);
    }
  }

  // ----------------------------------------------------------------- every run

  function Run(w: World, es: seq<Event>): World
    decreases |es|
  {
    if es == [] then w else Run(Next(w, es[0]).0, es[1..])
  }

  predicate NewKeys(w: World, es: seq<Event>)
    decreases |es|
  {
    es == [] || (NewKey(w, es[0]) && NewKeys(Next(w, es[0]).0, es[1..]))
  }

  predicate NoPanic(w: World, es: seq<Event>)
    decreases |es|
  {
    es == [] || (Next(w, es[0]).1 != Panic && NoPanic(Next(w, es[0]).0, es[1..]))
  }

  lemma {:induction false} RunKeeps(w: World, es: seq<Event>)
    requires Inv(w) && NewKeys(w, es)
    ensures Inv(Run(w, es)) && Onward(w, Run(w, es)) && NoPanic(w, es)
    decreases |es|
  {
    hide Inv, Onward, Next;
    OnwardSelf(w);
    if es != [] {
      var w1 := Next(w, es[0]).0;
      NextKeeps(w, es[0]);
      RunKeeps(w1, es[1..]);
      OnwardTrans(w, w1, Run(w1, es[1..]));
    }
  }

  const EMPTY := World(map[], map[])

  /** In every interleaving: a connection is in tcpConns exactly when it is
      neither closed nor errored, its key has been freed once if it is not and
      not at all if it is, and no callback type-asserts nil. */
  lemma {:induction false} LifecycleCorrect(es: seq<Event>, id: Id)
    requires NewKeys(EMPTY, es)
    ensures NoPanic(EMPTY, es)
    ensures var w := Run(EMPTY, es); id in w.conns ==>
      var c := w.conns[id];
      && (c.key in w.table && w.table[c.key] == id <==> c.state != Closed && c.state != Errored)
      && c.frees == (if c.state == Closed || c.state == Errored then 1 else 0)
  {
    RunKeeps(EMPTY, es);
    var w := Run(EMPTY, es);
    if id in w.conns { assert Tracked(w, id); }
  }

  /** A side once closed stays closed: over any continuation of any run. */
  lemma {:induction false} NeverReopens(es: seq<Event>, more: seq<Event>, id: Id)
    requires NewKeys(EMPTY, es) && NewKeys(Run(EMPTY, es), more) && id in Run(EMPTY, es).conns
    ensures var w := Run(EMPTY, es); var w' := Run(w, more);
      && id in w'.conns
      && (!ReadOpen(w.conns[id].state) ==> !ReadOpen(w'.conns[id].state))
      && (!WriteOpen(w.conns[id].state) ==> !WriteOpen(w'.conns[id].state))
      && (Done(w.conns[id].state) ==> Done(w'.conns[id].state))
  {
    RunKeeps(EMPTY, es);
    RunKeeps(Run(EMPTY, es), more);
    assert OnwardAt(Run(EMPTY, es), Run(Run(EMPTY, es), more), id);
  }

  /** The table does lose a live connection when a key is drawn twice. */
  lemma {:induction false} CollisionExample()
    ensures var w := Run(EMPTY, [Accept(0, 7), Accept(1, 7)]);
      0 in w.conns && !Done(w.conns[0].state) && w.table == map[7 := 1]
  {
    var es := [Accept(0, 7), Accept(1, 7)];
    var w1 := Next(EMPTY, es[0]).0;
    assert es[1..] == [Accept(1, 7)] && es[1..][1..] == [];
    assert Run(EMPTY, es) == Run(w1, es[1..]) == Next(w1, Accept(1, 7)).0;
  }

  // ------------------------------------------------------------- the program

  /** The connections of the process and the global tcpConns.  A method is what
      runs between taking and giving back locks. */
  class Core {
    var conns: map<Id, Conn>
    var table: map<Key, Id>

    ghost function Now(): World
      reads this
    {
      World(conns, table)
    }

    constructor ()
      ensures Now() == EMPTY && Inv(Now())
    {
      conns, table := map[], map[];
    }

    method SetState(id: Id, state: State)
      requires id in conns
      modifies this`conns
      ensures Now() == Put(old(Now()), id, state)
    {
      conns := conns[id := conns[id].(state := state)];
    }

    method NewTCPConn(id: Id, key: Key)
      modifies this
      ensures Now() == Open(old(Now()), id, key)
      ensures old(Inv(Now())) && id !in old(conns) ==> (Inv(Now()) <==> key !in old(table))
      ensures id in conns && conns[id] == Conn(Connecting, key, 0, true, true) && key in table && table[key] == id
      ensures id !in old(conns) ==> Onward(old(Now()), Now())
    {
      if Inv(Now()) && id !in conns { OpenKeepsIff(Now(), id, key); }
      conns := conns[id := Conn(NewConn, key, 0, true, true)];
      table := table[key := id];
      SetState(id, Connecting);
    }

    /** release */
    method ReleaseConn(id: Id)
      requires id in conns
      modifies this
      ensures Now() == Release(old(Now()), id)
      ensures old(Inv(Now()) && Live(Now(), id)) ==> Ended(old(Now()), Now(), id, Closed)
    {
      hide Inv, Ended;
      if Inv(Now()) && Live(Now(), id) { CloseKeeps(Now(), id); }
      var c := conns[id];
      if c.key in table {
        c := c.(frees := c.frees + 1);
        table := table - {c.key};
      }
      c := c.(writer := false);
      c := c.(reader := false);
      conns := conns[id := c.(state := Closed)];
    }

    /** Err */
    method FailConn(id: Id)
      requires id in conns
      modifies this
      ensures Now() == Fail(old(Now()), id)
      ensures old(Inv(Now()) && Live(Now(), id)) ==> Ended(old(Now()), Now(), id, Errored)
    {
      hide Inv, Ended;
      if Inv(Now()) && Live(Now(), id) { ReleaseKeeps(Now(), id, Errored); }
      ReleaseConn(id);
      SetState(id, Errored);
    }

    method TcpErrFn(key: Key)
      requires key in table ==> table[key] in conns
      modifies this
      ensures Now() == ErrFn(old(Now()), key)
      ensures old(Inv(Now())) && key in old(table) ==> Ended(old(Now()), Now(), old(table)[key], Errored)
    {
      hide Inv, Ended;
      if Inv(Now()) && key in table { ErrFnKeeps(Now(), key); }
      if key in table { FailConn(table[key]); }
    }

    /** abortInternal */
    method AbortConn(id: Id)
      requires id in conns
      modifies this
      ensures Now() == AbortInternal(old(Now()), id)
      ensures old(Inv(Now()) && Live(Now(), id)) ==> Ended(old(Now()), Now(), id, Closed)
    {
      hide Inv, Ended;
      if Inv(Now()) && Live(Now(), id) { AbortKeeps(Now(), id); }
      var key := conns[id].key;
      ReleaseConn(id);
      TcpErrFn(key);
    }

    method CheckClosingConn(id: Id) returns (err: Err)
      requires id in conns
      modifies this
      ensures Now() == CheckClosing(old(Now()), id) && id in conns
      ensures err == if old(conns)[id].state == Closing then Ok else Nil
    {
      err := Nil;
      if conns[id].state == Closing {
        ReleaseConn(id);
        err := Ok;
      }
    }

    method CheckAbortingConn(id: Id) returns (err: Err)
      requires id in conns
      modifies this
      ensures Now() == CheckAborting(old(Now()), id)
      ensures err == if old(conns)[id].state == Aborting then Abrt else Nil
    {
      err := Nil;
      if conns[id].state == Aborting {
        AbortConn(id);
        err := Abrt;
      }
    }

    /** Another goroutine's step: the handler's return, Abort, CloseWrite, CloseRead */
    method OtherStep(o: Other)
      modifies this`conns
      ensures Now() == Do(old(Now()), o) && conns.Keys == old(conns).Keys
      ensures old(Inv(Now())) ==> Inv(Now()) && Onward(old(Now()), Now()) && Unended(old(Now()), Now())
    {
      hide Inv, Onward, Unended;
      if Inv(Now()) { DoKeeps(Now(), o); }
      if o.id in conns {
        var state := conns[o.id].state;
        match o {
          case HandlerReturned(id) =>
            if state == Connecting { SetState(id, Connected); }
          case AbortAsked(id) =>
            if Rank(state) < Rank(Aborting) { SetState(id, Aborting); }
          case WriteClosing(id) =>
            if Rank(state) >= Rank(Closing) || state == WriteClosed {
            } else if state == ReceiveClosed {
              SetState(id, Closing);
            } else {
              SetState(id, WriteClosed);
            }
          case ReadClosing(id) =>
            conns := conns[id := conns[id].(reader := false)];
        }
      }
    }

    /** Whatever other goroutines do while no lock of the connection is held */
    method Meanwhile(os: seq<Other>)
      modifies this`conns
      ensures Now() == DoAll(old(Now()), os) && conns.Keys == old(conns).Keys
    {
      ghost var w := Now();
      var i := 0;
      assert os[..0] == [];
      while i < |os|
        invariant i <= |os| && Now() == DoAll(w, os[..i]) && conns.Keys == old(conns).Keys && table == old(table)
      {
        var next := os[..i + 1];
        assert next[..|next| - 1] == os[..i] && next[|next| - 1] == os[i];
        OtherStep(os[i]);
        i := i + 1;
      }
      assert os[..i] == os;
    }

    /** checkState */
    method CheckStateConn(id: Id, gaps: Gaps) returns (err: Err)
      requires id in conns
      modifies this
      ensures (Now(), err) == CheckState(old(Now()), id, gaps)
      ensures old(Inv(Now())) ==> Inv(Now()) && Onward(old(Now()), Now()) && (err == Nil <==> old(conns[id].state) == Closed)
    {
      hide Inv, Onward, Do;
      if Inv(Now()) { CheckStateKeeps(Now(), id, gaps); }
      if conns[id].state == Closed { return Nil; }
      Meanwhile(gaps(0));
      err := CheckClosingConn(id);
      if err != Nil { return; }
      Meanwhile(gaps(1));
      err := CheckAbortingConn(id);
      if err != Nil { return; }
      err := Ok;
    }

    /** setLocalClosed */
    method SetLocalClosed(id: Id)
      requires id in conns
      modifies this`conns
      ensures Now() == LocalClose(old(Now()), id) && conns.Keys == old(conns).Keys && !ReadOpen(conns[id].state)
      ensures old(Inv(Now())) ==> Inv(Now()) && Onward(old(Now()), Now()) && Unended(old(Now()), Now())
    {
      hide Inv, Onward, Unended;
      if Inv(Now()) { LocalCloseKeeps(Now(), id); }
      var c := conns[id];
      if Rank(c.state) >= Rank(Closing) || c.state == ReceiveClosed { return; }
      c := c.(writer := false);
      conns := conns[id := c.(state := if c.state == WriteClosed then Closing else ReceiveClosed)];
    }

    method ReceiveCheckConn(id: Id) returns (err: Err)
      requires id in conns
      modifies this
      ensures (Now(), err) == ReceiveCheck(old(Now()), id)
      ensures old(Inv(Now()) && Live(Now(), id)) ==>
        && Now() == old(Now()) && (err == Nil || err == NotConnected || err == Clsd)
        && (err == Nil <==> ReadOpen(conns[id].state) && conns[id].state != Connecting)
        && (err == NotConnected <==> conns[id].state == Connecting)
    {
      hide Inv;
      if Inv(Now()) && Live(Now(), id) { ReceiveCheckLive(Now(), id); }
      match conns[id].state {
        case Connected => return Nil;
        case WriteClosed => return Nil;
        case NewConn => return NotConnected;
        case Connecting => return NotConnected;
        case Aborting => return Clsd;
        case Closed => return Clsd;
        case ReceiveClosed => return Clsd;
        case Closing => return Clsd;
        case Errored =>
          AbortConn(id);
          return Abrt;
      }
    }

    /** tcpSentFn and tcpPollFn.  The invariant is what rules the panic out. */
    method TcpCheckFn(key: Key, gaps: Gaps) returns (reply: Reply)
      requires Inv(Now())
      modifies this
      ensures (Now(), reply) == CheckFn(old(Now()), key, gaps) && Inv(Now()) && reply != Panic
    {
      CheckFnKeeps(Now(), key, gaps);
      if key in table {
        FindLive(Now(), key);
        hide Inv, CheckState;
        var err := CheckStateConn(table[key], gaps);
        return Answer(err);
      }
      return ErrAbrt;
    }

    /** tcpRecvFn; `data` is whether a pbuf came with it */
    method TcpRecvFn(key: Key, data: bool, gaps: Gaps) returns (reply: Reply)
      requires Inv(Now())
      modifies this
      ensures data ==> (Now(), reply) == RecvFn(old(Now()), key)
      ensures !data ==> (Now(), reply) == EofFn(old(Now()), key, gaps)
      ensures Inv(Now()) && reply != Panic
    {
      EofFnKeeps(Now(), key, gaps);
      RecvFnKeeps(Now(), key);
      if key !in table { return ErrAbrt; }
      FindLive(Now(), key);
      hide Inv, CheckState, LocalClose;
      var id := table[key];
      if !data {
        SetLocalClosed(id);
        Meanwhile(gaps(2));
        var err := CheckStateConn(id, gaps);
        return Answer(err);
      }
      var err := ReceiveCheckConn(id);
      match err {
        case Nil => return ErrOk;          // LWIP_ERR_OK or, if the pipe is closed, LWIP_ERR_CLSD
        case Clsd => return ErrOk;
        case NotConnected => return ErrConn;
        case Abrt => return ErrAbrt;
        case Ok => return ErrOk;
      }
    }
  }
}
