/**
 * The PCB ticks of tcp.c.  Both ticks walk the list of active PCBs while the
 * callbacks they make may remove any PCB and register new ones; the walk then
 * starts again from the head and finds the PCBs it has served by `last_timer`,
 * an 8-bit copy of the tick counter.
 */
module TcpTimers {
  import opened SeqNum

  /** A PCB, named by its allocation. */
  type Pcb = nat

  /** What a callback did: PCBs it removed, PCBs it allocated and registered. */
  datatype Callback = Callback(removed: set<Pcb>, added: seq<Pcb>)

  /** What serving one PCB comes to: whether the timer itself removes it, and
      whether the application is called. */
  datatype Service = Service(remove: bool, calls: bool, callback: Callback)

  ghost predicate Distinct(s: seq<Pcb>) {
    forall i, j :: 0 <= i < j < |s| ==> s[i] != s[j]
  }

  function Without(s: seq<Pcb>, gone: set<Pcb>): (r: seq<Pcb>)
    ensures forall p :: p in r <==> p in s && p !in gone
  {
    if s == [] then [] else (if s[0] in gone then [] else [s[0]]) + Without(s[1..], gone)
  }

  lemma {:induction false} WithoutDistinct(s: seq<Pcb>, gone: set<Pcb>)
    requires Distinct(s)
    ensures Distinct(Without(s, gone))
  {
    if s != [] {
      WithoutDistinct(s[1..], gone);
      var rest := Without(s[1..], gone);
      if s[0] !in gone { assert s[0] !in rest; }
    }
  }

  lemma {:induction false} WithoutNothing(s: seq<Pcb>, gone: set<Pcb>)
    requires forall p :: p in s ==> p !in gone
    ensures Without(s, gone) == s
  {
    if s != [] {
      assert s[0] in s;
      WithoutNothing(s[1..], gone);
      assert s == [s[0]] + s[1..];
    }
  }

  /** Those of `active` that the current tick has not served. */
  ghost function Unserved(active: seq<Pcb>, last: map<Pcb, byte>, ctr: byte): set<Pcb> {
    set p | p in active && (p !in last || last[p] != ctr)
  }

  /** PCBs are listed once, and those the callbacks register are new. */
  ghost predicate Sane(active: seq<Pcb>, last: map<Pcb, byte>) {
    Distinct(active) && forall p :: p in active ==> p in last
  }

  ghost predicate Fresh(c: Callback, last: map<Pcb, byte>) {
    Distinct(c.added) && forall p :: p in c.added ==> p !in last
  }

  /** The list and the counters after a callback: tcp_alloc copies the tick
      counter, registration puts the PCB in front. */
  function Called(active: seq<Pcb>, c: Callback): seq<Pcb> {
    c.added + Without(active, c.removed)
  }

  function Allocated(last: map<Pcb, byte>, c: Callback, ctr: byte): map<Pcb, byte> {
    last + map p | p in c.added :: ctr
  }

  lemma {:induction false} CalledSane(active: seq<Pcb>, last: map<Pcb, byte>, c: Callback, ctr: byte)
    requires Sane(active, last) && Fresh(c, last)
    ensures Sane(Called(active, c), Allocated(last, c, ctr))
    ensures Unserved(Called(active, c), Allocated(last, c, ctr), ctr) <= Unserved(active, last, ctr)
  {
    WithoutDistinct(active, c.removed);
    var kept := Without(active, c.removed);
    forall i, j | 0 <= i < |c.added| && 0 <= j < |kept| ensures c.added[i] != kept[j] {
      assert kept[j] in kept && c.added[i] in c.added;
    }
  }

  // ------------------------------------------------- what a tick guarantees

  /**
   * The progress of a tick with counter `ctr` from the list `start`, where
   * `was` gives the earlier values of last_timer: `handled` are the PCBs served
   * so far, in order, and `gone` those that callbacks have removed.
   */
  ghost predicate Progress(start: seq<Pcb>, was: map<Pcb, byte>, ctr: byte, active: seq<Pcb>, last: map<Pcb, byte>,
                           handled: seq<Pcb>, gone: set<Pcb>)
  {
    && Sane(active, last) && Distinct(handled)
    && (forall p :: p in start ==> p in was)
    && (forall p :: p in was ==> p in last)
    && (forall p :: p in handled ==> p in start && p in last && last[p] == ctr && p in was && was[p] != ctr)
    && (forall p :: p in start && p in was && was[p] != ctr ==> p in handled || p in gone || p in active)
    && (forall p :: p in active && p in last && last[p] != ctr ==> p in start && p in was && was[p] == last[p])
    && (forall p :: p in start && p in was && was[p] != ctr && p in active && p in last && last[p] == ctr ==> p in handled)
  }

  /** A tick has finished: every PCB active at its start has been served once,
      except those that were removed, and those that carried the counter's
      value already. */
  ghost predicate Served(start: seq<Pcb>, was: map<Pcb, byte>, ctr: byte, active: seq<Pcb>, last: map<Pcb, byte>,
                         handled: seq<Pcb>, gone: set<Pcb>)
  {
    && Sane(active, last)
    && Distinct(handled)
    && (forall p :: p in handled ==> p in start && p in was && was[p] != ctr)
    && (forall p :: p in start && p in was && was[p] != ctr ==> p in handled || p in gone)
    && (forall p :: p in active ==> p in last && last[p] == ctr)
  }

  /** Whether the k-th service of a tick calls the application. */
  predicate Calls(s: Service, slow: bool) { s.calls || (slow && s.remove) }

  /** The list after the services `handled`, each in turn: the slow timer unlinks the PCB or not, and the callback
      removes and registers what it likes.  The walk itself loses none and adds none. */
  ghost function Listing(start: seq<Pcb>, env: nat -> Service, handled: seq<Pcb>, slow: bool): seq<Pcb> {
    if handled == [] then start
    else
      var k := |handled| - 1;
      var s := Listing(start, env, handled[..k], slow);
      var s' := if slow && env(k).remove then Without(s, {handled[k]}) else s;
      if Calls(env(k), slow) then Called(s', env(k).callback) else s'
  }

  /** What the callbacks of the services have removed. */
  ghost function Removed(env: nat -> Service, n: nat, slow: bool): set<Pcb> {
    if n == 0 then {}
    else Removed(env, n - 1, slow) + if Calls(env(n - 1), slow) then env(n - 1).callback.removed else {}
  }

  /** Neither the timer nor a callback removes p from the k-th service on. */
  ghost predicate Untouched(p: Pcb, env: nat -> Service, handled: seq<Pcb>, slow: bool, k: nat) {
    forall j :: k <= j < |handled| ==> !Touches(p, env(j), handled[j], slow)
  }

  predicate Touches(p: Pcb, s: Service, served: Pcb, slow: bool) {
    (slow && s.remove && served == p) || (Calls(s, slow) && p in s.callback.removed)
  }

  /** The j-th callback registers p, and nobody removes it afterwards. */
  ghost predicate Registered(p: Pcb, env: nat -> Service, handled: seq<Pcb>, slow: bool, j: nat) {
    Calls(env(j), slow) && p in env(j).callback.added && Untouched(p, env, handled, slow, j + 1)
  }

  /** Who is active after a tick: those who were and those who have been registered, unless removed since. */
  lemma {:induction false} ListingIff(start: seq<Pcb>, env: nat -> Service, handled: seq<Pcb>, slow: bool, p: Pcb)
    ensures p in Listing(start, env, handled, slow) <==>
      || (p in start && Untouched(p, env, handled, slow, 0))
      || (exists j: nat :: j < |handled| && Registered(p, env, handled, slow, j))
    decreases |handled|
  {
    if handled != [] {
      var k := |handled| - 1;
      var before := handled[..k];
      ListingIff(start, env, before, slow, p);
      UntouchedMore(p, env, handled, slow, 0);
      forall j: nat {:trigger Registered(p, env, handled, slow, j)} {:trigger Registered(p, env, before, slow, j)} | j < k
          ensures Registered(p, env, handled, slow, j) <==> Registered(p, env, before, slow, j) && !Touches(p, env(k), handled[k], slow) {
        UntouchedMore(p, env, handled, slow, j + 1);
      }
      assert Registered(p, env, handled, slow, k) <==> Calls(env(k), slow) && p in env(k).callback.added;
    }
  }

  lemma {:induction false} UntouchedMore(p: Pcb, env: nat -> Service, handled: seq<Pcb>, slow: bool, j: nat)
    requires j < |handled|
    ensures var k := |handled| - 1;
      Untouched(p, env, handled, slow, j) <==> Untouched(p, env, handled[..k], slow, j) && !Touches(p, env(k), handled[k], slow)
  {
    var k := |handled| - 1;
    forall i | j <= i < k ensures handled[..k][i] == handled[i] { }
  }

  lemma {:induction false} ListingMore(start: seq<Pcb>, env: nat -> Service, handled: seq<Pcb>, slow: bool, p: Pcb)
    ensures var s, k := Listing(start, env, handled, slow), |handled|;
      var s' := if slow && env(k).remove then Without(s, {p}) else s;
      Listing(start, env, handled + [p], slow) == (if Calls(env(k), slow) then Called(s', env(k).callback) else s')
  {
    assert (handled + [p])[..|handled|] == handled;
  }

  lemma {:induction false} WithoutOne(s: seq<Pcb>, i: nat)
    requires Distinct(s) && i < |s|
    ensures Without(s, {s[i]}) == s[..i] + s[i + 1..]
  {
    if i == 0 {
      WithoutNothing(s[1..], {s[0]});
    } else {
      var t := s[1..];
      WithoutOne(t, i - 1);
      assert t[i - 1] == s[i] && s[0] != s[i];
      assert s[..i] == [s[0]] + t[..i - 1] && s[i + 1..] == t[i..];
    }
  }

  /** Serving the PCB p: it is marked, and the timer may unlink it. */
  lemma {:induction false} MarkKeeps(start: seq<Pcb>, was: map<Pcb, byte>, ctr: byte, active: seq<Pcb>, last: map<Pcb, byte>,
                  handled: seq<Pcb>, gone: set<Pcb>, i: nat)
    requires Progress(start, was, ctr, active, last, handled, gone) && i < |active| && last[active[i]] != ctr
    ensures Progress(start, was, ctr, active, last[active[i] := ctr], handled + [active[i]], gone)
    ensures Unserved(active, last[active[i] := ctr], ctr) < Unserved(active, last, ctr)
  {
    var p := active[i];
    assert p in active && p in last && p !in handled;
    assert p in Unserved(active, last, ctr) && p !in Unserved(active, last[p := ctr], ctr);
  }

  lemma {:induction false} UnlinkKeeps(start: seq<Pcb>, was: map<Pcb, byte>, ctr: byte, active: seq<Pcb>, last: map<Pcb, byte>,
                    handled: seq<Pcb>, gone: set<Pcb>, i: nat)
    requires Progress(start, was, ctr, active, last, handled, gone) && i < |active| && active[i] in handled
    ensures var active' := active[..i] + active[i + 1..];
      && Progress(start, was, ctr, active', last, handled, gone)
      && Unserved(active', last, ctr) <= Unserved(active, last, ctr)
  {
    hide Distinct;
    Unlinked(active, i);
  }

  lemma {:induction false} Unlinked(active: seq<Pcb>, i: nat)
    requires Distinct(active) && i < |active|
    ensures var active' := active[..i] + active[i + 1..];
      Distinct(active') && forall p :: p in active' <==> p in active && p != active[i]
  {
    var active' := active[..i] + active[i + 1..];
    forall k | 0 <= k < |active'| ensures active'[k] == active[if k < i then k else k + 1] { }
    assert active == active[..i] + [active[i]] + active[i + 1..];
  }

  lemma {:induction false} CallbackKeeps(start: seq<Pcb>, was: map<Pcb, byte>, ctr: byte, active: seq<Pcb>, last: map<Pcb, byte>,
                      handled: seq<Pcb>, gone: set<Pcb>, c: Callback)
    requires Progress(start, was, ctr, active, last, handled, gone) && Fresh(c, last)
    ensures Progress(start, was, ctr, Called(active, c), Allocated(last, c, ctr), handled, gone + c.removed)
    ensures Unserved(Called(active, c), Allocated(last, c, ctr), ctr) <= Unserved(active, last, ctr)
  {
    CalledSane(active, last, c, ctr);
  }

  // ------------------------------------------------------------- the program

  class Pcbs {
    var active: seq<Pcb>
    var last: map<Pcb, byte>
    var ctr: byte

    /** Between ticks every active PCB carries the counter's value. */
    ghost predicate Current()
      reads this
    {
      Sane(active, last) && forall p :: p in active ==> last[p] == ctr
    }

    constructor ()
      ensures Current() && active == []
    {
      active, last, ctr := [], map[], 0;
    }

    /** tcp_alloc and TCP_REG_ACTIVE between ticks */
    method Register(p: Pcb)
      requires Current() && p !in last
      modifies this`active, this`last
      ensures Current() && active == [p] + old(active)
    {
      active, last := [p] + active, last[p := ctr];
    }

    /** A callback, and whether tcp_active_pcbs_changed is set afterwards */
    method Call(c: Callback) returns (changed: bool)
      requires Sane(active, last)
      modifies this`active, this`last
      ensures active == Called(old(active), c) && last == Allocated(old(last), c, ctr)
      ensures !changed ==> active == old(active) && last == old(last)
    {
      changed := c.added != [] || exists p :: p in active && p in c.removed;
      if !changed { WithoutNothing(active, c.removed); }
      active := Called(active, c);
      last := Allocated(last, c, ctr);
    }

    /** Callbacks register what they have just allocated, each PCB once. */
    ghost predicate Allocating(env: nat -> Service)
      reads this
    {
      && (forall n :: Distinct(env(n).callback.added))
      && (forall n, p :: p in env(n).callback.added ==> p !in last)
      && (forall m, n, p :: m != n && p in env(m).callback.added ==> p !in env(n).callback.added)
    }

    /**
     * tcp_slowtmr's walk.  The n-th PCB it serves is treated as env(n) says.
     * It ends, whatever the callbacks do to the list.
     */
    method SlowTmr(env: nat -> Service) returns (ghost handled: seq<Pcb>, ghost gone: set<Pcb>)
      requires Sane(active, last) && Allocating(env)
      modifies this
      ensures ctr == (old(ctr) + 1) % 0x100
      ensures Served(old(active), old(last), ctr, active, last, handled, gone)
      // nobody is lost or added but by services
      ensures active == Listing(old(active), env, handled, true) && gone == Removed(env, |handled|, true)
      // ticks in a row: the 8-bit counter never makes one skip a PCB
      ensures old(Current()) ==> Current() && forall p :: p in old(active) ==> p in handled || p in gone
    {
      hide Progress, Unserved, Called, Allocated, Served, Listing, Without, Removed;
      ListingStarts(active, env, true);
      ctr := (ctr + 1) % 0x100;
      handled, gone := [], {};
      ghost var start, was := active, last;
      Begin(start, was, ctr);
      var n: nat, i: nat := 0, 0;
      while i < |active|
        invariant i <= |active| && ctr == (old(ctr) + 1) % 0x100
        invariant Progress(start, was, ctr, active, last, handled, gone)
        invariant Marked(active[..i], last, ctr)
        invariant n == |handled| && active == Listing(start, env, handled, true) && gone == Removed(env, n, true)
        invariant forall m, p :: m >= n && p in env(m).callback.added ==> p !in last
        decreases Unserved(active, last, ctr), |active| - i
      {
        Listed(start, was, ctr, active, last, handled, gone, i);
        var pcb := active[i];
        if last[pcb] == ctr {
          MarkedNext(active, last, ctr, i);
          i := i + 1;
        } else {
          MarkKeeps(start, was, ctr, active, last, handled, gone, i);
          MarkedMore(active, last, ctr, i);
          ListingMore(start, env, handled, true, pcb);
          RemovedMore(env, n, true);
          var s := env(n);
          last := last[pcb := ctr];
          handled := handled + [pcb];
          if s.remove {
            UnlinkKeeps(start, was, ctr, active, last, handled, gone, i);
            assert (active[..i] + active[i + 1..])[..i] == active[..i];
            ActiveWithoutOne(start, was, ctr, active, last, handled, gone, i);
            active := active[..i] + active[i + 1..];
          } else {
            i := i + 1;
          }
          if s.remove || s.calls {
            i := After(env, n, i, start, was, handled, gone);
            gone := gone + s.callback.removed;
          }
          n := n + 1;
        }
      }
      Finish(start, was, ctr, active, last, handled, gone);
      if old(Current()) { NobodySkipped(start, was, old(ctr), ctr, active, last, handled, gone); }
    }

    /** The callback made for the n-th PCB, and where the walk goes on: from the
        head if the list has changed. */
    method After(env: nat -> Service, n: nat, i: nat, ghost start: seq<Pcb>, ghost was: map<Pcb, byte>,
                 ghost handled: seq<Pcb>, ghost gone: set<Pcb>) returns (next: nat)
      requires i <= |active| && Marked(active[..i], last, ctr)
      requires Progress(start, was, ctr, active, last, handled, gone)
      requires Distinct(env(n).callback.added)
      requires forall m, p :: m >= n && p in env(m).callback.added ==> p !in last
      requires forall m, p :: m != n && p in env(m).callback.added ==> p !in env(n).callback.added
      modifies this`active, this`last
      ensures next <= |active| && Marked(active[..next], last, ctr)
      ensures Progress(start, was, ctr, active, last, handled, gone + env(n).callback.removed)
      ensures forall m, p :: m > n && p in env(m).callback.added ==> p !in last
      ensures Unserved(active, last, ctr) <= old(Unserved(active, last, ctr))
      ensures active == Called(old(active), env(n).callback)
    {
      CallbackKeeps(start, was, ctr, active, last, handled, gone, env(n).callback);
      hide Unserved, Without;
      var changed := Call(env(n).callback);
      next := if changed then 0 else i;
    }

    /** tcp_fasttmr's walk */
    method FastTmr(env: nat -> Service) returns (ghost handled: seq<Pcb>, ghost gone: set<Pcb>)
      requires Sane(active, last) && Allocating(env)
      modifies this
      ensures ctr == (old(ctr) + 1) % 0x100
      ensures Served(old(active), old(last), ctr, active, last, handled, gone)
      // nobody is lost or added but by services
      ensures active == Listing(old(active), env, handled, false) && gone == Removed(env, |handled|, false)
      // ticks in a row: the 8-bit counter never makes one skip a PCB
      ensures old(Current()) ==> Current() && forall p :: p in old(active) ==> p in handled || p in gone
    {
      hide Progress, Unserved, Called, Allocated, Served, Listing, Without, Removed;
      ListingStarts(active, env, false);
      ctr := (ctr + 1) % 0x100;
      handled, gone := [], {};
      ghost var start, was := active, last;
      Begin(start, was, ctr);
      var n: nat, i: nat := 0, 0;
      while i < |active|
        invariant i <= |active| && ctr == (old(ctr) + 1) % 0x100
        invariant Progress(start, was, ctr, active, last, handled, gone)
        invariant Marked(active[..i], last, ctr)
        invariant n == |handled| && active == Listing(start, env, handled, false) && gone == Removed(env, n, false)
        invariant forall m, p :: m >= n && p in env(m).callback.added ==> p !in last
        decreases Unserved(active, last, ctr), |active| - i
      {
        Listed(start, was, ctr, active, last, handled, gone, i);
        var pcb := active[i];
        if last[pcb] != ctr {
          MarkKeeps(start, was, ctr, active, last, handled, gone, i);
          MarkedMore(active, last, ctr, i);
          ListingMore(start, env, handled, false, pcb);
          RemovedMore(env, n, false);
          last := last[pcb := ctr];
          handled := handled + [pcb];
          i := i + 1;
          if env(n).calls {
            i := After(env, n, i, start, was, handled, gone);
            gone := gone + env(n).callback.removed;
          }
          n := n + 1;
        } else {
          MarkedNext(active, last, ctr, i);
          i := i + 1;
        }
      }
      Finish(start, was, ctr, active, last, handled, gone);
      if old(Current()) { NobodySkipped(start, was, old(ctr), ctr, active, last, handled, gone); }
    }
  }

  /** The list's front that the walk has passed. */
  ghost predicate Marked(s: seq<Pcb>, last: map<Pcb, byte>, ctr: byte) {
    forall p :: p in s ==> p in last && last[p] == ctr
  }

  lemma {:induction false} MarkedNext(active: seq<Pcb>, last: map<Pcb, byte>, ctr: byte, i: nat)
    requires i < |active| && Marked(active[..i], last, ctr) && active[i] in last && last[active[i]] == ctr
    ensures Marked(active[..i + 1], last, ctr)
  {
    assert active[..i + 1] == active[..i] + [active[i]];
  }

  lemma {:induction false} MarkedMore(active: seq<Pcb>, last: map<Pcb, byte>, ctr: byte, i: nat)
    requires i < |active| && Marked(active[..i], last, ctr)
    ensures Marked(active[..i], last[active[i] := ctr], ctr) && Marked(active[..i + 1], last[active[i] := ctr], ctr)
  {
    assert active[..i + 1] == active[..i] + [active[i]];
  }

  lemma {:induction false} Listed(start: seq<Pcb>, was: map<Pcb, byte>, ctr: byte, active: seq<Pcb>, last: map<Pcb, byte>,
               handled: seq<Pcb>, gone: set<Pcb>, i: nat)
    requires Progress(start, was, ctr, active, last, handled, gone) && i < |active|
    ensures active[i] in last
  {
    assert active[i] in active;
  }

  lemma {:induction false} ListingStarts(start: seq<Pcb>, env: nat -> Service, slow: bool)
    ensures Listing(start, env, [], slow) == start && Removed(env, 0, slow) == {}
  {
  }

  lemma {:induction false} RemovedMore(env: nat -> Service, n: nat, slow: bool)
    ensures Removed(env, n + 1, slow) == Removed(env, n, slow) + if Calls(env(n), slow) then env(n).callback.removed else {}
  {
  }

  lemma {:induction false} ActiveWithoutOne(start: seq<Pcb>, was: map<Pcb, byte>, ctr: byte, active: seq<Pcb>, last: map<Pcb, byte>,
                         handled: seq<Pcb>, gone: set<Pcb>, i: nat)
    requires Progress(start, was, ctr, active, last, handled, gone) && i < |active|
    ensures Without(active, {active[i]}) == active[..i] + active[i + 1..]
  {
    WithoutOne(active, i);
  }

  lemma {:induction false} Begin(start: seq<Pcb>, was: map<Pcb, byte>, ctr: byte)
    requires Sane(start, was)
    ensures Progress(start, was, ctr, start, was, [], {})
  {
  }

  lemma {:induction false} Finish(start: seq<Pcb>, was: map<Pcb, byte>, ctr: byte, active: seq<Pcb>, last: map<Pcb, byte>,
               handled: seq<Pcb>, gone: set<Pcb>)
    requires Progress(start, was, ctr, active, last, handled, gone) && Marked(active[..|active|], last, ctr)
    ensures Served(start, was, ctr, active, last, handled, gone)
  {
    assert active[..|active|] == active;
  }

  lemma {:induction false} NobodySkipped(start: seq<Pcb>, was: map<Pcb, byte>, before: byte, ctr: byte, active: seq<Pcb>,
                      last: map<Pcb, byte>, handled: seq<Pcb>, gone: set<Pcb>)
    requires Sane(start, was) && (forall p :: p in start ==> was[p] == before) && ctr == (before + 1) % 0x100
    requires Served(start, was, ctr, active, last, handled, gone)
    ensures Sane(active, last)
    ensures forall p :: p in start ==> p in handled || p in gone
    ensures forall p :: p in active ==> last[p] == ctr
  {
  }
}
