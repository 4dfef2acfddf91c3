/**
 * The timeout list of timeouts.c: one list ordered by due time, compared
 * modulo 2^32, and the loop that fires what is due.
 *
 * A `Timer` is a timeout at its unbounded due time, with the order in which it
 * was set; the program only ever sees the 32-bit times of `Timeo`.
 */
module Timeouts {
  import opened SeqNum

  const LWIP_MAX_TIMEOUT: u32 := 0x7fff_ffff

  /** TIME_LESS_THAN */
  predicate TimeLess(t: u32, compareTo: u32) {
    (t - compareTo) % M32 > LWIP_MAX_TIMEOUT
  }

  /** Times lie in the half of the number space that starts at `lo`. */
  predicate InRange(lo: nat, x: int) {
    lo <= x <= lo + LWIP_MAX_TIMEOUT
  }

  lemma {:induction false} TimeLessExact(lo: nat, x: int, y: int)
    requires InRange(lo, x) && InRange(lo, y)
    ensures TimeLess(Wrap(x), Wrap(y)) <==> x < y
  {
    WrapAdd(x, -y);
    WrapAdd(-y, Wrap(x));
    assert (Wrap(x) - Wrap(y)) % M32 == (x - y) % M32 by {
      assert x == M32 * (x / M32) + Wrap(x) && y == M32 * (y / M32) + Wrap(y);
      WrapOfSum(Wrap(x) - Wrap(y), x / M32 - y / M32);
      assert x - y == Wrap(x) - Wrap(y) + M32 * (x / M32 - y / M32);
    }
  }

  /** What to call: lwip_cyclic_timer with its table entry, or a handler. */
  datatype Task = Cyclic(id: nat, interval: nat) | OneShot(handler: nat, arg: nat)

  datatype Timer = Timer(due: nat, born: nat, task: Task)

  datatype Timeo = Timeo(time: u32, task: Task)

  function Wrapped(ts: seq<Timer>): seq<Timeo> {
    seq(|ts|, i requires 0 <= i < |ts| => Timeo(Wrap(ts[i].due), ts[i].task))
  }

  // ------------------------------------------------------- order of the list

  /** Earlier due, or due together and set earlier. */
  predicate Before(a: Timer, b: Timer) {
    a.due < b.due || (a.due == b.due && a.born < b.born)
  }

  ghost predicate Sorted(ts: seq<Timer>) {
    forall i, j :: 0 <= i < j < |ts| ==> Before(ts[i], ts[j])
  }

  /** All of `ts` was set before `born`, and is due in range. */
  ghost predicate Known(ts: seq<Timer>, born: nat, lo: nat) {
    forall i :: 0 <= i < |ts| ==> ts[i].born < born && InRange(lo, ts[i].due)
  }

  function Insert(ts: seq<Timer>, t: Timer): seq<Timer> {
    if ts == [] || t.due < ts[0].due then [t] + ts else [ts[0]] + Insert(ts[1..], t)
  }

  function RemoveFirst(ts: seq<Timer>, task: Task): seq<Timer> {
    if ts == [] then [] else if ts[0].task == task then ts[1..] else [ts[0]] + RemoveFirst(ts[1..], task)
  }

  /** The first timer of the task is removed, and nothing else. */
  lemma {:induction false} RemoveFirstIs(ts: seq<Timer>, task: Task, k: nat)
    requires k <= |ts| && forall j :: 0 <= j < k ==> ts[j].task != task
    ensures k < |ts| && ts[k].task == task ==> RemoveFirst(ts, task) == ts[..k] + ts[k + 1..]
    ensures k == |ts| ==> RemoveFirst(ts, task) == ts
    decreases |ts|
  {
    if k > 0 {
      RemoveFirstIs(ts[1..], task, k - 1);
      assert ts == [ts[0]] + ts[1..];
      if k < |ts| && ts[k].task == task {
        assert ts[1..][k - 1] == ts[k];
        assert ts[..k] + ts[k + 1..] == [ts[0]] + (ts[1..][..k - 1] + ts[1..][k..]);
      }
    }
  }

  /** Where the new timer goes: behind everything due no later. */
  lemma {:induction false} InsertAt(ts: seq<Timer>, t: Timer, k: nat)
    requires k <= |ts| && (forall j :: 0 <= j < k ==> ts[j].due <= t.due) && (k < |ts| ==> t.due < ts[k].due)
    ensures Insert(ts, t) == ts[..k] + [t] + ts[k..]
  {
    if k > 0 {
      InsertAt(ts[1..], t, k - 1);
      assert ts[..k] == [ts[0]] + ts[1..][..k - 1] && ts[1..][k - 1..] == ts[k..];
    }
  }

  lemma {:induction false} RemoveAt(ts: seq<Timer>, task: Task, k: nat)
    requires k < |ts| && ts[k].task == task && forall j :: 0 <= j < k ==> ts[j].task != task
    ensures RemoveFirst(ts, task) == ts[..k] + ts[k + 1..]
  {
    if k > 0 {
      RemoveAt(ts[1..], task, k - 1);
      assert ts[..k] == [ts[0]] + ts[1..][..k - 1] && ts[1..][k..] == ts[k + 1..];
    }
  }

  lemma {:induction false} RemoveNone(ts: seq<Timer>, task: Task)
    requires forall j :: 0 <= j < |ts| ==> ts[j].task != task
    ensures RemoveFirst(ts, task) == ts
  {
    if ts != [] { RemoveNone(ts[1..], task); }
  }

  /** The tail of a known, sorted list is one, and its head precedes it. */
  lemma {:induction false} TailSorted(ts: seq<Timer>, born: nat, lo: nat)
    requires ts != [] && Sorted(ts) && Known(ts, born, lo)
    ensures Sorted(ts[1..]) && Known(ts[1..], born, lo)
    ensures forall i :: 0 <= i < |ts[1..]| ==> Before(ts[0], ts[1..][i])
  {
  }

  lemma {:induction false} HeadSorted(t: Timer, ts: seq<Timer>)
    requires Sorted(ts) && forall i :: 0 <= i < |ts| ==> Before(t, ts[i])
    ensures Sorted([t] + ts)
  {
  }

  /** Setting a timer keeps the list sorted and adds exactly that timer. */
  lemma {:induction false} InsertSorted(ts: seq<Timer>, t: Timer, lo: nat)
    requires Sorted(ts) && Known(ts, t.born, lo) && InRange(lo, t.due)
    ensures Sorted(Insert(ts, t)) && Known(Insert(ts, t), t.born + 1, lo)
    ensures forall x :: x in Insert(ts, t) <==> x == t || x in ts
  {
    if ts == [] || t.due < ts[0].due {
      HeadSorted(t, ts);
    } else {
      TailSorted(ts, t.born, lo);
      InsertSorted(ts[1..], t, lo);
      var rest := Insert(ts[1..], t);
      forall i | 0 <= i < |rest| ensures Before(ts[0], rest[i]) { assert rest[i] in rest; InTail(ts, rest[i]); }
      HeadSorted(ts[0], rest);
      forall x ensures x in [ts[0]] + rest <==> x == t || x in ts { InTail(ts, x); }
    }
  }

  lemma {:induction false} InTail(ts: seq<Timer>, x: Timer)
    requires ts != []
    ensures x in ts <==> x == ts[0] || x in ts[1..]
  {
    assert ts == [ts[0]] + ts[1..];
  }

  /** Cancelling keeps the list sorted and takes nothing else away. */
  lemma {:induction false} RemoveSorted(ts: seq<Timer>, task: Task, born: nat, lo: nat)
    requires Sorted(ts) && Known(ts, born, lo)
    ensures Sorted(RemoveFirst(ts, task)) && Known(RemoveFirst(ts, task), born, lo)
    ensures forall x :: x in RemoveFirst(ts, task) ==> x in ts
    ensures forall x :: x in ts && x.task != task ==> x in RemoveFirst(ts, task)
  {
    if ts != [] {
      TailSorted(ts, born, lo);
      if ts[0].task == task {
        forall x | x in ts && x.task != task ensures x in ts[1..] { InTail(ts, x); }
      } else {
        RemoveSorted(ts[1..], task, born, lo);
        var rest := RemoveFirst(ts[1..], task);
        forall i | 0 <= i < |rest| ensures Before(ts[0], rest[i]) { assert rest[i] in rest; }
        HeadSorted(ts[0], rest);
        forall x | x in ts && x.task != task ensures x in [ts[0]] + rest { InTail(ts, x); }
      }
    }
  }

  /** A sorted list is determined by what is in it. */
  lemma {:induction false} SortedDetermined(a: seq<Timer>, b: seq<Timer>)
    requires Sorted(a) && Sorted(b) && forall x :: x in a <==> x in b
    ensures a == b
  {
    EmptyAlike(a, b);
    EmptyAlike(b, a);
    if a != [] {
      HeadLeast(a, b);
      HeadLeast(b, a);
      forall x ensures x in a[1..] <==> x in b[1..] {
        InTail(a, x);
        InTail(b, x);
        NotInTail(a);
        NotInTail(b);
      }
      SortedDetermined(a[1..], b[1..]);
      assert a == [a[0]] + a[1..] && b == [b[0]] + b[1..];
    }
  }

  lemma {:induction false} EmptyAlike(a: seq<Timer>, b: seq<Timer>)
    requires forall x :: x in a ==> x in b
    ensures a != [] ==> b != []
  {
    if a != [] { assert a[0] in b; }
  }

  lemma {:induction false} HeadLeast(a: seq<Timer>, b: seq<Timer>)
    requires Sorted(a) && Sorted(b) && a != [] && b != [] && forall x :: x in a <==> x in b
    ensures a[0] == b[0] || Before(a[0], b[0])
  {
    assert b[0] in a;
    var i :| 0 <= i < |a| && a[i] == b[0];
  }

  lemma {:induction false} NotInTail(a: seq<Timer>)
    requires Sorted(a) && a != []
    ensures a[0] !in a[1..]
  {
    forall i | 0 <= i < |a[1..]| ensures a[1..][i] != a[0] { assert Before(a[0], a[i + 1]); }
  }

  // -------------------------------------------------- sums over the list

  function Sum(ts: seq<Timer>, f: Timer -> nat): nat {
    if ts == [] then 0 else f(ts[0]) + Sum(ts[1..], f)
  }

  lemma {:induction false} InsertSum(ts: seq<Timer>, t: Timer, f: Timer -> nat)
    ensures Sum(Insert(ts, t), f) == Sum(ts, f) + f(t)
  {
    if ts == [] || t.due < ts[0].due {
      assert ([t] + ts)[1..] == ts;
    } else {
      InsertSum(ts[1..], t, f);
      assert Insert(ts, t)[1..] == Insert(ts[1..], t);
    }
  }

  lemma {:induction false} RemoveSum(ts: seq<Timer>, task: Task, f: Timer -> nat)
    ensures Sum(RemoveFirst(ts, task), f) <= Sum(ts, f)
  {
    if ts != [] && ts[0].task != task {
      RemoveSum(ts[1..], task, f);
      assert RemoveFirst(ts, task)[1..] == RemoveFirst(ts[1..], task);
    }
  }

  lemma {:induction false} SumAppend(ts: seq<Timer>, t: Timer, f: Timer -> nat)
    ensures Sum(ts + [t], f) == Sum(ts, f) + f(t)
  {
    if ts == [] {
      assert ([] + [t])[1..] == [];
    } else {
      SumAppend(ts[1..], t, f);
      assert (ts + [t])[1..] == ts[1..] + [t];
    }
  }

  lemma {:induction false} SumBound(ts: seq<Timer>, f: Timer -> nat, g: Timer -> nat)
    requires forall t :: f(t) <= 2 * g(t)
    ensures Sum(ts, f) <= 2 * Sum(ts, g)
  {
    if ts != [] { SumBound(ts[1..], f, g); }
  }

  // ---------------------------------------------------------- calling handlers

  /** What a handler does to the list while it runs: set a one-shot timer at
      some reading of the clock, or cancel one. */
  datatype Action =
    | Set(clock: nat, msecs: nat, handler: nat, arg: nat, pool: bool)
    | Cancel(task: Task)

  /** One call of a handler.  `clock` is read when a cyclic timer re-arms. */
  datatype Effect = Effect(actions: seq<Action>, clock: nat, pool: bool)

  /** The clock does not run backwards from `now`, and nothing is set beyond
      the range. */
  predicate Reasonable(e: Effect, now: nat, lo: nat) {
    && now <= e.clock
    && (forall i :: 0 <= i < |e.actions| ==>
          e.actions[i].Set? ==> now <= e.actions[i].clock && InRange(lo, e.actions[i].clock + e.actions[i].msecs))
  }

  /** The handler sets nothing that is due already: there is a delay, or the
      clock has moved on since `now`. */
  predicate Delayed(e: Effect, now: nat) {
    forall i :: 0 <= i < |e.actions| ==>
      e.actions[i].Set? && e.actions[i].pool ==> now < e.actions[i].clock + e.actions[i].msecs
  }

  /** A list and the number of timers set so far. */
  datatype Pending = Pending(ts: seq<Timer>, born: nat)

  function Add(p: Pending, due: nat, task: Task, pool: bool): Pending {
    if pool then Pending(Insert(p.ts, Timer(due, p.born, task)), p.born + 1) else p
  }

  function Act(p: Pending, a: Action): Pending {
    match a
    case Set(clock, msecs, handler, arg, pool) => Add(p, clock + msecs, OneShot(handler, arg), pool)
    case Cancel(task) => p.(ts := RemoveFirst(p.ts, task))
  }

  function ActAll(p: Pending, actions: seq<Action>): Pending {
    if actions == [] then p else Act(ActAll(p, actions[..|actions| - 1]), actions[|actions| - 1])
  }

  /** When lwip_cyclic_timer fires next. */
  function NextDue(due: nat, interval: nat, clock: nat): nat {
    if due + interval < clock then clock + interval else due + interval
  }

  function Called(p: Pending, t: Timer, e: Effect): Pending {
    var p' := ActAll(p, e.actions);
    match t.task
    case Cyclic(_, interval) => Add(p', NextDue(t.due, interval, e.clock), t.task, e.pool)
    case OneShot(_, _) => p'
  }

  predicate Due(p: Pending, now: nat) {
    p.ts != [] && p.ts[0].due <= now
  }

  /** One turn of sys_check_timeouts: the head is unlinked and called. */
  function Round(p: Pending, e: Effect): Pending
    requires p.ts != []
  {
    Called(p.(ts := p.ts[1..]), p.ts[0], e)
  }

  // ------------------------------------------------ what one round preserves

  /** What is known of a list: sorted, in range, and numbered. */
  ghost predicate Good(p: Pending, lo: nat) {
    Sorted(p.ts) && Known(p.ts, p.born, lo)
  }

  /** Every timer of `p` comes after `head`. */
  ghost predicate Follows(p: Pending, head: Timer) {
    forall x :: x in p.ts ==> Before(head, x)
  }

  lemma {:induction false} AddKeeps(p: Pending, due: nat, task: Task, pool: bool, lo: nat, head: Timer)
    requires Good(p, lo) && Follows(p, head) && InRange(lo, due) && head.due <= due && head.born < p.born
    ensures p.born <= Add(p, due, task, pool).born
    ensures Good(Add(p, due, task, pool), lo) && Follows(Add(p, due, task, pool), head)
  {
    if pool { InsertSorted(p.ts, Timer(due, p.born, task), lo); }
  }

  lemma {:induction false} ActAllKeeps(p: Pending, actions: seq<Action>, e: Effect, now: nat, lo: nat, head: Timer)
    requires Good(p, lo) && Follows(p, head) && head.due <= now && head.born < p.born
    requires Reasonable(e, now, lo) && actions <= e.actions
    ensures Good(ActAll(p, actions), lo) && Follows(ActAll(p, actions), head) && p.born <= ActAll(p, actions).born
  {
    hide Good, Follows;
    if actions != [] {
      var n := |actions| - 1;
      ActAllKeeps(p, actions[..n], e, now, lo, head);
      var q := ActAll(p, actions[..n]);
      assert actions[n] == e.actions[n];
      match actions[n]
      case Set(clock, msecs, handler, arg, pool) => AddKeeps(q, clock + msecs, OneShot(handler, arg), pool, lo, head);
      case Cancel(task) => CancelKeeps(q, task, lo, head);
    }
  }

  lemma {:induction false} CancelKeeps(p: Pending, task: Task, lo: nat, head: Timer)
    requires Good(p, lo) && Follows(p, head)
    ensures var q := p.(ts := RemoveFirst(p.ts, task)); Good(q, lo) && Follows(q, head)
  {
    RemoveSorted(p.ts, task, p.born, lo);
  }

  /** What the action sets, if anything, does not weigh. */
  ghost predicate Weightless(f: Timer -> nat, a: Action) {
    a.Set? && a.pool ==> forall t: Timer :: t.task.OneShot? && t.due == a.clock + a.msecs ==> f(t) == 0
  }

  /** A sum in which what the handler sets does not weigh is not raised by what
      it does. */
  lemma {:induction false} ActAllSum(p: Pending, actions: seq<Action>, f: Timer -> nat)
    requires forall i :: 0 <= i < |actions| ==> Weightless(f, actions[i])
    ensures Sum(ActAll(p, actions).ts, f) <= Sum(p.ts, f)
  {
    if actions != [] {
      var n := |actions| - 1;
      ActAllSum(p, actions[..n], f);
      var q := ActAll(p, actions[..n]);
      match actions[n]
      case Set(clock, msecs, handler, arg, pool) =>
        InsertSum(q.ts, Timer(clock + msecs, q.born, OneShot(handler, arg)), f);
      case Cancel(task) => RemoveSum(q.ts, task, f);
    }
  }

  /** How often a timer can still fire before the list is quiet at `now`. */
  function FiringsLeft(now: nat, t: Timer): nat {
    if t.due < now then 2 else if t.due == now then 1 else 0
  }

  function Firings(now: nat): Timer -> nat {
    (t: Timer) => FiringsLeft(now, t)
  }

  /** The same for one cyclic timer. */
  function FiringsOf(now: nat, id: nat): Timer -> nat {
    (t: Timer) => if t.task.Cyclic? && t.task.id == id then FiringsLeft(now, t) else 0
  }

  function IsCycle(id: nat): Timer -> nat {
    (t: Timer) => if t.task.Cyclic? && t.task.id == id then 1 else 0
  }

  /** Each cyclic timer is pending at most once. */
  ghost predicate CyclesOnce(ts: seq<Timer>) {
    forall id :: Sum(ts, IsCycle(id)) <= 1
  }

  /** Counting both what has fired and what can still fire, no cyclic timer
      fires more than twice. */
  ghost predicate TwiceAtMost(fired: seq<Timer>, ts: seq<Timer>, now: nat) {
    forall id :: Sum(fired, IsCycle(id)) + Sum(ts, FiringsOf(now, id)) <= 2
  }

  /** Calling the head's handler uses up at least one firing ... */
  lemma {:induction false} CallSpends(p: Pending, t: Timer, e: Effect, now: nat)
    requires now <= e.clock && Delayed(e, now) && t.due <= now && (t.task.Cyclic? ==> 0 < t.task.interval)
    ensures Sum(Called(p, t, e).ts, Firings(now)) < Firings(now)(t) + Sum(p.ts, Firings(now))
  {
    ActAllSum(p, e.actions, Firings(now));
    var q := ActAll(p, e.actions);
    if t.task.Cyclic? {
      InsertSum(q.ts, Timer(NextDue(t.due, t.task.interval, e.clock), q.born, t.task), Firings(now));
    }
  }

  /** ... and a cyclic timer pays for its own. */
  lemma {:induction false} CallSpendsOwn(p: Pending, t: Timer, e: Effect, now: nat, id: nat)
    requires now <= e.clock && t.due <= now && (t.task.Cyclic? ==> 0 < t.task.interval)
    ensures IsCycle(id)(t) + Sum(Called(p, t, e).ts, FiringsOf(now, id)) <= FiringsOf(now, id)(t) + Sum(p.ts, FiringsOf(now, id))
    ensures Sum(Called(p, t, e).ts, IsCycle(id)) <= IsCycle(id)(t) + Sum(p.ts, IsCycle(id))
  {
    ActAllSum(p, e.actions, FiringsOf(now, id));
    ActAllSum(p, e.actions, IsCycle(id));
    var q := ActAll(p, e.actions);
    if t.task.Cyclic? {
      var t' := Timer(NextDue(t.due, t.task.interval, e.clock), q.born, t.task);
      InsertSum(q.ts, t', FiringsOf(now, id));
      InsertSum(q.ts, t', IsCycle(id));
    }
  }

  /** One round of sys_check_timeouts: the head is called, and what has fired
      still precedes what is pending. */
  lemma {:induction false} RoundKeeps(fired: seq<Timer>, p: Pending, e: Effect, now: nat, lo: nat)
    requires p.ts != [] && Good(p, lo) && p.ts[0].due <= now && Reasonable(e, now, lo) && InRange(lo, now)
    requires Sorted(fired) && (forall f, x :: f in fired && x in p.ts ==> Before(f, x))
    requires p.ts[0].task.Cyclic? ==>
      0 < p.ts[0].task.interval && InRange(lo, e.clock + p.ts[0].task.interval) && InRange(lo, now + p.ts[0].task.interval)
    ensures var t := p.ts[0]; var q := Round(p, e);
      && Good(q, lo) && Sorted(fired + [t]) && p.born <= q.born
      && (forall f, x :: f in fired + [t] && x in q.ts ==> Before(f, x))
  {
    var t := p.ts[0];
    var rest := p.(ts := p.ts[1..]);
    TailSorted(p.ts, p.born, lo);
    ActAllKeeps(rest, e.actions, e, now, lo, t);
    var q0 := ActAll(rest, e.actions);
    if t.task.Cyclic? {
      AddKeeps(q0, NextDue(t.due, t.task.interval, e.clock), t.task, e.pool, lo, t);
    }
    var q := Called(rest, t, e);
    forall f, x | f in fired + [t] && x in q.ts ensures Before(f, x) {
      assert Before(t, x);
      if f in fired { assert Before(f, t); }
    }
  }

  lemma {:induction false} RoundCounts(fired: seq<Timer>, p: Pending, e: Effect, now: nat)
    requires Due(p, now) && now <= e.clock && (p.ts[0].task.Cyclic? ==> 0 < p.ts[0].task.interval)
    requires TwiceAtMost(fired, p.ts, now) && CyclesOnce(p.ts)
    ensures TwiceAtMost(fired + [p.ts[0]], Round(p, e).ts, now) && CyclesOnce(Round(p, e).ts)
    ensures Delayed(e, now) ==> Sum(Round(p, e).ts, Firings(now)) < Sum(p.ts, Firings(now))
  {
    var t := p.ts[0];
    var rest := p.(ts := p.ts[1..]);
    if Delayed(e, now) { CallSpends(rest, t, e, now); }
    var q := Called(rest, t, e);
    forall id ensures Sum(fired + [t], IsCycle(id)) + Sum(q.ts, FiringsOf(now, id)) <= 2 {
      CallSpendsOwn(rest, t, e, now, id);
      SumAppend(fired, t, IsCycle(id));
    }
    forall id ensures Sum(q.ts, IsCycle(id)) <= 1 {
      CallSpendsOwn(rest, t, e, now, id);
    }
  }

  lemma {:induction false} CountsAtStart(ts: seq<Timer>, now: nat)
    requires CyclesOnce(ts)
    ensures TwiceAtMost([], ts, now)
  {
    forall id ensures Sum([], IsCycle(id)) + Sum(ts, FiringsOf(now, id)) <= 2 {
      SumBound(ts, FiringsOf(now, id), IsCycle(id));
    }
  }

  // ----------------------------------------------- where pending timers come from

  /** A timer that a round put there: later in number, and due no earlier than
      now; if the handler delays what it sets, a one-shot is not due yet. */
  predicate Rearmed(x: Timer, t: Timer, born: nat, now: nat, delayed: bool) {
    && born <= x.born && now <= x.due
    && ((x.task.OneShot? && (delayed ==> now < x.due)) || (t.task.Cyclic? && x.task == t.task))
  }

  lemma {:induction false} ActAllOrigin(p: Pending, actions: seq<Action>, e: Effect, now: nat, lo: nat, x: Timer)
    requires Good(p, lo) && Reasonable(e, now, lo) && actions <= e.actions
    ensures Good(ActAll(p, actions), lo) && p.born <= ActAll(p, actions).born
    ensures x in ActAll(p, actions).ts ==>
      x in p.ts || (x.task.OneShot? && p.born <= x.born && now <= x.due && (Delayed(e, now) ==> now < x.due))
    ensures x in p.ts && Cancel(x.task) !in actions ==> x in ActAll(p, actions).ts
  {
    hide Good, Act;
    if actions != [] {
      var n := |actions| - 1;
      ActAllOrigin(p, actions[..n], e, now, lo, x);
      var q := ActAll(p, actions[..n]);
      assert actions[n] == e.actions[n] && actions == actions[..n] + [actions[n]];
      ActOrigin(q, actions[n], lo, x);
    }
  }

  /** What one action adds and what it leaves. */
  lemma {:induction false} ActOrigin(p: Pending, a: Action, lo: nat, x: Timer)
    requires Good(p, lo) && (a.Set? ==> InRange(lo, a.clock + a.msecs))
    ensures Good(Act(p, a), lo) && p.born <= Act(p, a).born
    ensures x in Act(p, a).ts ==>
      x in p.ts || (a.Set? && a.pool && x.task.OneShot? && x.born == p.born && x.due == a.clock + a.msecs)
    ensures x in p.ts && a != Cancel(x.task) ==> x in Act(p, a).ts
  {
    hide Sorted, Known, Insert, RemoveFirst;
    match a
    case Set(clock, msecs, handler, arg, pool) =>
      InsertSorted(p.ts, Timer(clock + msecs, p.born, OneShot(handler, arg)), lo);
    case Cancel(task) => RemoveSorted(p.ts, task, p.born, lo);
  }

  lemma {:induction false} CalledOrigin(p: Pending, t: Timer, e: Effect, now: nat, lo: nat, x: Timer)
    requires Good(p, lo) && Reasonable(e, now, lo)
    requires t.task.Cyclic? ==> InRange(lo, NextDue(t.due, t.task.interval, e.clock))
    ensures x in Called(p, t, e).ts ==> x in p.ts || Rearmed(x, t, p.born, now, Delayed(e, now))
    ensures x in p.ts && Cancel(x.task) !in e.actions ==> x in Called(p, t, e).ts
  {
    ActAllOrigin(p, e.actions, e, now, lo, x);
    var q := ActAll(p, e.actions);
    if t.task.Cyclic? {
      InsertSorted(q.ts, Timer(NextDue(t.due, t.task.interval, e.clock), q.born, t.task), lo);
    }
  }

  /** Cyclic intervals are positive and at most `longest`. */
  ghost predicate Intervals(ts: seq<Timer>, longest: nat) {
    forall x :: x in ts && x.task.Cyclic? ==> 0 < x.task.interval <= longest
  }

  /** Some handler cancelled `task` before round n. */
  ghost predicate Cancelled(env: nat -> Effect, n: nat, task: Task) {
    exists k: nat :: k < n && Cancel(task) in env(k).actions
  }

  /** A timer that the call itself put there and that is due: a cyclic timer due
      right now, or, if a handler does not delay, any timer due right now. */
  predicate New(x: Timer, born: nat, now: nat, prompt: bool) {
    born <= x.born && x.due == now && (x.task.Cyclic? || prompt)
  }

  /** The progress of sys_check_timeouts from `start`: timers that were due are
      fired, still pending or cancelled, and only those and new ones are fired. */
  ghost predicate Accounted(start: Pending, fired: seq<Timer>, ts: seq<Timer>, env: nat -> Effect, n: nat, now: nat, prompt: bool) {
    && (forall x :: x in start.ts ==> x in fired || x in ts || Cancelled(env, n, x.task))
    && (forall x :: x in fired ==> x.due <= now && (x in start.ts || New(x, start.born, now, prompt)))
    && (forall x :: x in ts && x.due <= now ==> x in start.ts || New(x, start.born, now, prompt))
  }

  lemma {:induction false} RoundAccounts(start: Pending, fired: seq<Timer>, p: Pending, env: nat -> Effect, n: nat, now: nat, lo: nat, longest: nat, prompt: bool)
    requires Due(p, now) && Good(p, lo) && Reasonable(env(n), now, lo) && Intervals(p.ts, longest) && start.born <= p.born
    requires p.ts[0].task.Cyclic? ==> InRange(lo, NextDue(p.ts[0].due, p.ts[0].task.interval, env(n).clock))
    requires Accounted(start, fired, p.ts, env, n, now, prompt) && (Delayed(env(n), now) || prompt)
    ensures Accounted(start, fired + [p.ts[0]], Round(p, env(n)).ts, env, n + 1, now, prompt) && Intervals(Round(p, env(n)).ts, longest)
  {
    var t := p.ts[0];
    var rest := p.(ts := p.ts[1..]);
    TailSorted(p.ts, p.born, lo);
    var q := Round(p, env(n));
    forall x ensures x in q.ts ==> x in p.ts || Rearmed(x, t, p.born, now, Delayed(env(n), now))
             ensures x in p.ts && x != t && Cancel(x.task) !in env(n).actions ==> x in q.ts {
      CalledOrigin(rest, t, env(n), now, lo, x);
      InTail(p.ts, x);
    }
    hide Round, Delayed, Good, Reasonable;
    assert forall task :: Cancelled(env, n, task) ==> Cancelled(env, n + 1, task);
    assert forall task :: Cancel(task) in env(n).actions ==> Cancelled(env, n + 1, task);
  }

  /** What has fired is in order, precedes what is pending, and was set before
      whatever is set now; what is pending was there before or is new. */
  ghost predicate Fired(start: Pending, fired: seq<Timer>, p: Pending) {
    && Sorted(fired) && start.born <= p.born
    && (forall f :: f in fired ==> f.born < p.born)
    && (forall f, x :: f in fired && x in p.ts ==> Before(f, x))
    && (forall x :: x in p.ts ==> x in start.ts || start.born <= x.born)
  }

  lemma {:induction false} RoundFires(start: Pending, fired: seq<Timer>, p: Pending, e: Effect, now: nat, lo: nat)
    requires Due(p, now) && Good(p, lo) && Reasonable(e, now, lo) && InRange(lo, now) && Fired(start, fired, p)
    requires p.ts[0].task.Cyclic? ==> 0 < p.ts[0].task.interval && InRange(lo, e.clock + p.ts[0].task.interval)
    requires p.ts[0].task.Cyclic? ==> InRange(lo, now + p.ts[0].task.interval)
    ensures Fired(start, fired + [p.ts[0]], Round(p, e)) && Good(Round(p, e), lo) && start.born <= p.born
  {
    RoundKeeps(fired, p, e, now, lo);
    var t := p.ts[0];
    TailSorted(p.ts, p.born, lo);
    assert t in p.ts && t.born < p.born;
    if t.task.Cyclic? { NextInRange(lo, now, t.due, t.task.interval, e.clock, t.task.interval); }
    forall x | x in Round(p, e).ts ensures x in start.ts || start.born <= x.born {
      CalledOrigin(p.(ts := p.ts[1..]), t, e, now, lo, x);
      InTail(p.ts, x);
    }
  }

  lemma {:induction false} CheckStarts(p: Pending, env: nat -> Effect, now: nat, prompt: bool)
    ensures Fired(p, [], p) && Accounted(p, [], p.ts, env, 0, now, prompt)
  {
  }

  lemma {:induction false} HeadKnown(p: Pending, lo: nat, longest: nat)
    requires p.ts != [] && Good(p, lo) && Intervals(p.ts, longest)
    ensures InRange(lo, p.ts[0].due) && (p.ts[0].task.Cyclic? ==> 0 < p.ts[0].task.interval <= longest)
  {
    assert p.ts[0] in p.ts;
  }

  lemma {:induction false} ReasonableClock(e: Effect, now: nat, lo: nat)
    requires Reasonable(e, now, lo)
    ensures now <= e.clock
  {
  }

  lemma {:induction false} CheckEnds(start: Pending, fired: seq<Timer>, p: Pending, env: nat -> Effect, n: nat, now: nat, prompt: bool)
    requires Fired(start, fired, p) && Accounted(start, fired, p.ts, env, n, now, prompt) && TwiceAtMost(fired, p.ts, now)
    requires forall x :: x in p.ts ==> now < x.due
    ensures Sorted(fired) && start.born <= p.born && (forall x :: x in fired ==> x.born < p.born)
    ensures forall x :: x in p.ts ==> x in start.ts || start.born <= x.born
    ensures forall x :: x in fired ==> x.due <= now && (x in start.ts || New(x, start.born, now, prompt))
    ensures forall x :: x in start.ts && x.due <= now ==> x in fired || Cancelled(env, n, x.task)
    ensures forall id :: Sum(fired, IsCycle(id)) <= 2
  {
  }

  lemma {:induction false} RangeMoves(p: Pending, lo: nat, clock: nat)
    requires Good(p, lo) && InRange(lo, clock) && !Due(p, clock)
    ensures Good(p, clock) && forall x :: x in p.ts ==> clock < x.due
  {
    forall x | x in p.ts ensures clock < x.due {
      if x != p.ts[0] { assert Before(p.ts[0], x); }
    }
    assert forall i :: 0 <= i < |p.ts| ==> p.ts[i] in p.ts;
  }

  lemma {:induction false} NextInRange(lo: nat, now: nat, due: nat, interval: nat, clock: nat, longest: nat)
    requires InRange(lo, due) && due <= now <= clock && 0 < interval <= longest
    requires InRange(lo, now + longest) && InRange(lo, clock + longest)
    ensures InRange(lo, NextDue(due, interval, clock))
  {
  }

  lemma {:induction false} CancelGood(p: Pending, task: Task, lo: nat)
    requires Good(p, lo)
    ensures Good(p.(ts := RemoveFirst(p.ts, task)), lo)
  {
    RemoveSorted(p.ts, task, p.born, lo);
  }

  lemma {:induction false} WrappedWithout(ts: seq<Timer>, k: nat)
    requires k < |ts|
    ensures Wrapped(ts)[..k] + Wrapped(ts)[k + 1..] == Wrapped(ts[..k] + ts[k + 1..])
  {
  }

  // --------------------------------------------------- when the loop ends

  /** The list after n turns of the loop, or when nothing is due any more. */
  function After(p: Pending, env: nat -> Effect, now: nat, n: nat): Pending {
    if n == 0 then p
    else
      var q := After(p, env, now, n - 1);
      if Due(q, now) then Round(q, env(n - 1)) else q
  }

  ghost predicate Ends(p: Pending, env: nat -> Effect, now: nat) {
    exists n: nat :: !Due(After(p, env, now, n), now)
  }

  /** From turn `last` on, every handler that is called delays what it sets. */
  ghost predicate DelayedFrom(p: Pending, env: nat -> Effect, now: nat, last: nat) {
    forall n: nat {:trigger After(p, env, now, n)} :: last <= n && Due(After(p, env, now, n), now) ==> Delayed(env(n), now)
  }

  lemma {:induction false} InsertMembers(ts: seq<Timer>, t: Timer)
    ensures forall x :: x in Insert(ts, t) <==> x == t || x in ts
  {
    if ts != [] && ts[0].due <= t.due {
      InsertMembers(ts[1..], t);
      forall x ensures x in Insert(ts, t) <==> x == t || x in ts { InTail(ts, x); }
    }
  }

  lemma {:induction false} RemoveMembers(ts: seq<Timer>, task: Task)
    ensures forall x :: x in RemoveFirst(ts, task) ==> x in ts
  {
    if ts != [] && ts[0].task != task { RemoveMembers(ts[1..], task); }
  }

  lemma {:induction false} ActAllIntervals(p: Pending, actions: seq<Action>, longest: nat)
    requires Intervals(p.ts, longest)
    ensures Intervals(ActAll(p, actions).ts, longest)
  {
    if actions != [] {
      var n := |actions| - 1;
      ActAllIntervals(p, actions[..n], longest);
      var q := ActAll(p, actions[..n]);
      match actions[n]
      case Set(clock, msecs, handler, arg, pool) => InsertMembers(q.ts, Timer(clock + msecs, q.born, OneShot(handler, arg)));
      case Cancel(task) => RemoveMembers(q.ts, task);
    }
  }

  lemma {:induction false} AfterIntervals(p: Pending, env: nat -> Effect, now: nat, n: nat, longest: nat)
    requires Intervals(p.ts, longest)
    ensures Intervals(After(p, env, now, n).ts, longest)
  {
    if n > 0 {
      AfterIntervals(p, env, now, n - 1, longest);
      var q := After(p, env, now, n - 1);
      if Due(q, now) {
        var t, e := q.ts[0], env(n - 1);
        assert t in q.ts;
        ActAllIntervals(q.(ts := q.ts[1..]), e.actions, longest);
        var r := ActAll(q.(ts := q.ts[1..]), e.actions);
        if t.task.Cyclic? { InsertMembers(r.ts, Timer(NextDue(t.due, t.task.interval, e.clock), r.born, t.task)); }
      }
    }
  }

  lemma {:induction false} EndsSoon(p: Pending, env: nat -> Effect, now: nat, last: nat, n: nat, longest: nat)
    requires Intervals(p.ts, longest) && DelayedFrom(p, env, now, last) && last <= n
    requires forall k :: now <= env(k).clock
    ensures Ends(p, env, now)
    decreases Sum(After(p, env, now, n).ts, Firings(now))
  {
    var q := After(p, env, now, n);
    if Due(q, now) {
      AfterIntervals(p, env, now, n, longest);
      assert q.ts[0] in q.ts;
      CallSpends(q.(ts := q.ts[1..]), q.ts[0], env(n), now);
      assert After(p, env, now, n + 1) == Round(q, env(n));
      EndsSoon(p, env, now, last, n + 1, longest);
    }
  }

  lemma {:induction false} QuietStays(p: Pending, env: nat -> Effect, now: nat, n: nat, k: nat)
    requires !Due(After(p, env, now, n), now) && n <= k
    ensures !Due(After(p, env, now, k), now)
    decreases k
  {
    if n < k { QuietStays(p, env, now, n, k - 1); }
  }

  /** sys_check_timeouts ends if and only if, from some turn on, the handlers it
      calls set nothing that is due already. */
  lemma {:induction false} EndsIff(p: Pending, env: nat -> Effect, now: nat, longest: nat)
    requires Intervals(p.ts, longest) && forall k :: now <= env(k).clock
    ensures Ends(p, env, now) <==> exists last: nat :: DelayedFrom(p, env, now, last)
  {
    if Ends(p, env, now) {
      var n: nat :| !Due(After(p, env, now, n), now);
      forall k: nat | n <= k ensures !Due(After(p, env, now, k), now) { QuietStays(p, env, now, n, k); }
      assert DelayedFrom(p, env, now, n);
    }
    if last: nat :| DelayedFrom(p, env, now, last) { EndsSoon(p, env, now, last, last, longest); }
  }

  /** Every handler that is called does the one thing `a`. */
  function Always(a: Action, clock: nat, pool: bool): nat -> Effect {
    (_: nat) => Effect([a], clock, pool)
  }

  /** With handlers that set one timer each, the call ends if and only if that
      timer has a delay, or the clock has moved on, or there is no memory for it. */
  lemma {:induction false} StandingClockIff(p: Pending, a: Action, now: nat, clock: nat, pool: bool, longest: nat)
    requires a.Set? && now <= a.clock && now <= clock && Due(p, now) && Intervals(p.ts, longest)
    ensures Ends(p, Always(a, clock, pool), now) <==> !a.pool || now < a.clock + a.msecs
  {
    var env := Always(a, clock, pool);
    if !a.pool || now < a.clock + a.msecs {
      EndsSoon(p, env, now, 0, 0, longest);
    } else {
      forall n: nat ensures Due(After(p, env, now, n), now) { BusyForever(p, a, now, clock, pool, n); }
    }
  }

  lemma {:induction false} BusyForever(p: Pending, a: Action, now: nat, clock: nat, pool: bool, n: nat)
    requires a.Set? && a.pool && a.clock + a.msecs <= now && Due(p, now)
    ensures Due(After(p, Always(a, clock, pool), now, n), now)
  {
    if n > 0 {
      BusyForever(p, a, now, clock, pool, n - 1);
      var q := After(p, Always(a, clock, pool), now, n - 1);
      assert [a][..0] == [];
      assert ActAll(q.(ts := q.ts[1..]), [a]) == Act(q.(ts := q.ts[1..]), a);
    }
  }

  // ------------------------------------------- the schedule of a cyclic timer

  /** When a task is or was due, in the order of the list. */
  ghost function Dues(ts: seq<Timer>, task: Task): seq<nat> {
    if ts == [] then [] else (if ts[0].task == task then [ts[0].due] else []) + Dues(ts[1..], task)
  }

  /** One interval apart, or at least that. */
  predicate Spaced(d: nat, d': nat, interval: nat, exact: bool) {
    d + interval <= d' && (exact ==> d' == d + interval)
  }

  /** The due times start with the one that was pending first and are spaced. */
  ghost predicate InStep(start: seq<nat>, all: seq<nat>, interval: nat, exact: bool) {
    && (all != [] ==> start != [] && all[0] == start[0])
    && (forall i :: 0 < i < |all| ==> Spaced(all[i - 1], all[i], interval, exact))
  }

  /** When the cyclic timer has been called since `start`, and when it is due next. */
  ghost predicate Steady(start: seq<Timer>, log: seq<Timer>, ts: seq<Timer>, task: Task, exact: bool) {
    task.Cyclic? ==> InStep(Dues(start, task), Dues(log, task) + Dues(ts, task), task.interval, exact)
  }

  lemma {:induction false} DuesUnfold(a: seq<Timer>, b: seq<Timer>, task: Task)
    ensures a == [] ==> Dues(a, task) == []
    ensures a != [] ==> var d := if a[0].task == task then [a[0].due] else [];
      Dues(a, task) == d + Dues(a[1..], task) && Dues(a + b, task) == d + Dues(a[1..] + b, task)
  {
    if a != [] { assert (a + b)[1..] == a[1..] + b; }
  }

  lemma {:induction false} DuesAppend(a: seq<Timer>, b: seq<Timer>, task: Task)
    ensures Dues(a + b, task) == Dues(a, task) + Dues(b, task)
  {
    hide Dues;
    DuesUnfold(a, b, task);
    if a == [] {
      assert a + b == b;
    } else {
      DuesAppend(a[1..], b, task);
    }
  }

  lemma {:induction false} DuesInsert(ts: seq<Timer>, t: Timer, task: Task)
    ensures t.task != task ==> Dues(Insert(ts, t), task) == Dues(ts, task)
    ensures t.task == task && Dues(ts, task) == [] ==> Dues(Insert(ts, t), task) == [t.due]
  {
    if ts == [] || t.due < ts[0].due {
      assert ([t] + ts)[1..] == ts;
    } else {
      DuesInsert(ts[1..], t, task);
      assert ([ts[0]] + Insert(ts[1..], t))[1..] == Insert(ts[1..], t);
    }
  }

  lemma {:induction false} DuesRemove(ts: seq<Timer>, gone: Task, task: Task)
    requires |Dues(ts, task)| <= 1
    ensures Dues(RemoveFirst(ts, gone), task) == Dues(ts, task) || Dues(RemoveFirst(ts, gone), task) == []
  {
    if ts != [] && ts[0].task != gone {
      DuesRemove(ts[1..], gone, task);
      assert ([ts[0]] + RemoveFirst(ts[1..], gone))[1..] == RemoveFirst(ts[1..], gone);
    }
  }

  lemma {:induction false} DuesOnce(ts: seq<Timer>, task: Task)
    requires task.Cyclic?
    ensures |Dues(ts, task)| <= Sum(ts, IsCycle(task.id))
  {
    if ts != [] { DuesOnce(ts[1..], task); }
  }

  lemma {:induction false} DuesActAll(p: Pending, actions: seq<Action>, task: Task)
    requires task.Cyclic? && |Dues(p.ts, task)| <= 1
    ensures Dues(ActAll(p, actions).ts, task) == Dues(p.ts, task) || Dues(ActAll(p, actions).ts, task) == []
    decreases |actions|
  {
    if actions != [] {
      var n := |actions| - 1;
      DuesActAll(p, actions[..n], task);
      var q := ActAll(p, actions[..n]);
      match actions[n]
      case Set(clock, msecs, handler, arg, pool) => DuesInsert(q.ts, Timer(clock + msecs, q.born, OneShot(handler, arg)), task);
      case Cancel(t) => DuesRemove(q.ts, t, task);
    }
  }

  /** What a call of another timer, and of the timer itself, does to its due time. */
  lemma {:induction false} DuesCalled(p: Pending, t: Timer, e: Effect, task: Task)
    requires task.Cyclic? && |Dues(p.ts, task)| <= 1 && (t.task == task ==> Dues(p.ts, task) == [])
    ensures t.task != task ==> Dues(Called(p, t, e).ts, task) == Dues(p.ts, task) || Dues(Called(p, t, e).ts, task) == []
    ensures t.task == task ==>
      Dues(Called(p, t, e).ts, task) == [] || Dues(Called(p, t, e).ts, task) == [NextDue(t.due, task.interval, e.clock)]
  {
    DuesActAll(p, e.actions, task);
    var q := ActAll(p, e.actions);
    if t.task.Cyclic? { DuesInsert(q.ts, Timer(NextDue(t.due, t.task.interval, e.clock), q.born, t.task), task); }
  }

  lemma {:induction false} InStepAbove(start: seq<nat>, all: seq<nat>, interval: nat, exact: bool, i: nat)
    requires InStep(start, all, interval, exact) && i < |all|
    ensures start != [] && start[0] <= all[i]
  {
    if i > 0 { InStepAbove(start, all, interval, exact, i - 1); }
  }

  lemma {:induction false} InStepMore(start: seq<nat>, all: seq<nat>, d: nat, interval: nat, exact: bool)
    requires InStep(start, all, interval, exact) && all != [] && Spaced(all[|all| - 1], d, interval, exact)
    ensures InStep(start, all + [d], interval, exact)
  {
  }

  lemma {:induction false} InStepLess(start: seq<nat>, a: seq<nat>, b: seq<nat>, interval: nat, exact: bool)
    requires InStep(start, a + b, interval, exact)
    ensures InStep(start, a, interval, exact)
  {
    assert forall i :: 0 <= i < |a| ==> (a + b)[i] == a[i];
  }

  /** If the schedule is to be exact, every handler is done within one interval of the first due time. */
  ghost predicate PromptFor(start: seq<Timer>, env: nat -> Effect, task: Task) {
    task.Cyclic? ==> forall k :: Dues(start, task) != [] ==> env(k).clock <= Dues(start, task)[0] + task.interval
  }

  lemma {:induction false} RoundSteady(start: seq<Timer>, log: seq<Timer>, p: Pending, env: nat -> Effect, n: nat, task: Task, exact: bool)
    requires p.ts != [] && CyclesOnce(p.ts) && Steady(start, log, p.ts, task, exact) && (exact ==> PromptFor(start, env, task))
    ensures Steady(start, log + [p.ts[0]], Round(p, env(n)).ts, task, exact)
  {
    if task.Cyclic? {
      hide Called, CyclesOnce, Insert, ActAll;
      var t, rest, all := p.ts[0], p.(ts := p.ts[1..]), Dues(log, task) + Dues(p.ts, task);
      OnceForAll(p.ts, task);
      assert Dues([t], task) == if t.task == task then [t.due] else [] by { assert |[t][1..]| == 0; }
      DuesAppend(log, [t], task);
      DuesCalled(rest, t, env(n), task);
      var old', new' := Dues(log + [t], task), Dues(Round(p, env(n)).ts, task);
      if t.task == task {
        assert old' == all;
        if new' != [] {
          InStepAbove(Dues(start, task), all, task.interval, exact, |all| - 1);
          InStepMore(Dues(start, task), all, new'[0], task.interval, exact);
          assert new' == [new'[0]];
        } else {
          assert old' + new' == all;
        }
      } else if new' == [] {
        InStepLess(Dues(start, task), Dues(log, task), Dues(p.ts, task), task.interval, exact);
        assert old' + new' == Dues(log, task);
      } else {
        assert old' + new' == all;
      }
    }
  }

  lemma {:induction false} OnceForAll(ts: seq<Timer>, task: Task)
    requires CyclesOnce(ts) && task.Cyclic?
    ensures |Dues(ts, task)| <= 1
  {
    DuesOnce(ts, task);
  }

  lemma {:induction false} SteadyStarts(p: Pending, task: Task, exact: bool)
    requires CyclesOnce(p.ts)
    ensures Steady(p.ts, [], p.ts, task, exact)
  {
    hide CyclesOnce;
    if task.Cyclic? {
      OnceForAll(p.ts, task);
      assert [] + Dues(p.ts, task) == Dues(p.ts, task);
    }
  }

  /** Setting one-shot timers and cancelling leave the schedule alone. */
  lemma {:induction false} ActSteady(start: seq<Timer>, log: seq<Timer>, p: Pending, a: Action, task: Task, exact: bool)
    requires CyclesOnce(p.ts) && Steady(start, log, p.ts, task, exact)
    ensures Steady(start, log, Act(p, a).ts, task, exact)
  {
    if task.Cyclic? {
      OnceForAll(p.ts, task);
      hide CyclesOnce, Insert, RemoveFirst, Dues, InStep;
      match a
      case Set(clock, msecs, handler, arg, pool) => DuesInsert(p.ts, Timer(clock + msecs, p.born, OneShot(handler, arg)), task);
      case Cancel(t) => DuesRemove(p.ts, t, task);
      if Dues(Act(p, a).ts, task) == [] {
        InStepLess(Dues(start, task), Dues(log, task), Dues(p.ts, task), task.interval, exact);
        assert Dues(log, task) + [] == Dues(log, task);
      }
    }
  }

  lemma {:induction false} InStepJoin(start: seq<nat>, a: seq<nat>, b: seq<nat>, c: seq<nat>, interval: nat, exact: bool)
    requires InStep(start, a + b, interval, exact) && InStep(b, c, interval, exact) && |b| <= 1
    ensures InStep(start, a + c, interval, exact)
  {
    hide Spaced;
    if c == [] {
      InStepLess(start, a, b, interval, exact);
      assert a + c == a;
    } else {
      assert b == [c[0]] && (a + c)[0] == (a + b)[0];
      forall i | 0 < i < |a + c| ensures Spaced((a + c)[i - 1], (a + c)[i], interval, exact) {
        if i <= |a| { assert (a + c)[i - 1] == (a + b)[i - 1] && (a + c)[i] == (a + b)[i]; }
        else { assert (a + c)[i - 1] == c[i - 1 - |a|] && (a + c)[i] == c[i - |a|]; }
      }
    }
  }

  /** One schedule continues the other. */
  lemma {:induction false} SteadyTrans(start: seq<Timer>, log: seq<Timer>, mid: seq<Timer>, fired: seq<Timer>, ts: seq<Timer>, task: Task, exact: bool)
    requires CyclesOnce(mid) && Steady(start, log, mid, task, exact) && Steady(mid, fired, ts, task, exact)
    ensures Steady(start, log + fired, ts, task, exact)
  {
    if task.Cyclic? {
      OnceForAll(mid, task);
      hide CyclesOnce, Dues, InStep;
      DuesAppend(log, fired, task);
      var a, b, c := Dues(log, task), Dues(mid, task), Dues(fired, task) + Dues(ts, task);
      assert Dues(log + fired, task) + Dues(ts, task) == a + c;
      InStepJoin(Dues(start, task), a, b, c, task.interval, exact);
    }
  }

  lemma {:induction false} DuesFrom(p: Pending, lo: nat, task: Task)
    requires Good(p, lo)
    ensures Dues(p.ts, task) != [] ==> lo <= Dues(p.ts, task)[0]
    decreases |p.ts|
  {
    if p.ts != [] {
      assert p.ts[0] in p.ts;
      TailSorted(p.ts, p.born, lo);
      DuesFrom(p.(ts := p.ts[1..]), lo, task);
    }
  }

  /** Checks that come and end within half an interval keep a cyclic timer exactly on schedule. */
  lemma {:induction false} BriskIsPrompt(p: Pending, env: nat -> Effect, lo: nat, clock: nat, gap: nat, longest: nat, task: Task)
    requires Good(p, lo) && Brisk(env, clock, gap, longest) && clock <= lo + gap && (task.Cyclic? ==> 2 * gap <= task.interval)
    ensures PromptFor(p.ts, env, task)
  {
    DuesFrom(p, lo, task);
  }

  // ------------------------------------------------------------ runs of calls

  /** A call from outside any handler. */
  datatype Op =
    | SetOp(clock: nat, msecs: nat, handler: nat, arg: nat, pool: bool)
    | CancelOp(task: Task)
    | CheckOp(clock: nat, env: nat -> Effect, last: nat)

  /** Handlers called at `clock` take at most `gap`, and set nothing further off
      than `longest`. */
  ghost predicate Brisk(env: nat -> Effect, clock: nat, gap: nat, longest: nat) {
    forall k ::
      && clock <= env(k).clock <= clock + gap
      && (forall i :: 0 <= i < |env(k).actions| && env(k).actions[i].Set? ==>
            clock <= env(k).actions[i].clock <= clock + gap && env(k).actions[i].msecs <= longest)
  }

  /** The clock does not run backwards, sys_check_timeouts is called at least
      once every `gap`, and delays are at most `longest`. */
  ghost predicate Timely(ops: seq<Op>, checked: nat, now: nat, gap: nat, longest: nat)
    decreases |ops|
  {
    ops == [] ||
    match ops[0]
    case SetOp(clock, msecs, _, _, _) =>
      now <= clock <= checked + gap && msecs <= longest && Timely(ops[1..], checked, clock, gap, longest)
    case CancelOp(_) => Timely(ops[1..], checked, now, gap, longest)
    case CheckOp(clock, env, last) =>
      && now <= clock <= checked + gap && Brisk(env, clock, gap, longest)
      && (forall k :: last <= k ==> Delayed(env(k), clock))
      && Timely(ops[1..], clock, clock, gap, longest)
  }

  /** The record of a run: timers in the order they were called, all due by the
      last check, each before everything that is pending. */
  ghost predicate Logged(log: seq<Timer>, p: Pending, checked: nat) {
    && Sorted(log)
    && (forall f :: f in log ==> f.due <= checked && f.born < p.born)
    && (forall f, x :: f in log && x in p.ts ==> Before(f, x))
  }

  lemma {:induction false} LogStarts(p: Pending, checked: nat)
    ensures Logged([], p, checked)
  {
  }

  lemma {:induction false} SetKeeps(p: Pending, due: nat, handler: nat, arg: nat, pool: bool, longest: nat)
    requires CyclesOnce(p.ts) && Intervals(p.ts, longest)
    ensures var q := Add(p, due, OneShot(handler, arg), pool); CyclesOnce(q.ts) && Intervals(q.ts, longest)
  {
    var t := Timer(due, p.born, OneShot(handler, arg));
    InsertMembers(p.ts, t);
    forall id ensures Sum(Insert(p.ts, t), IsCycle(id)) <= 1 {
      InsertSum(p.ts, t, IsCycle(id));
      assert Sum(p.ts, IsCycle(id)) <= 1;
    }
  }

  lemma {:induction false} CancelKeepsCycles(p: Pending, task: Task, longest: nat)
    requires CyclesOnce(p.ts) && Intervals(p.ts, longest)
    ensures CyclesOnce(RemoveFirst(p.ts, task)) && Intervals(RemoveFirst(p.ts, task), longest)
  {
    RemoveMembers(p.ts, task);
    forall id ensures Sum(RemoveFirst(p.ts, task), IsCycle(id)) <= 1 {
      RemoveSum(p.ts, task, IsCycle(id));
      assert Sum(p.ts, IsCycle(id)) <= 1;
    }
  }

  lemma {:induction false} LogSet(log: seq<Timer>, p: Pending, checked: nat, due: nat, task: Task, pool: bool)
    requires Logged(log, p, checked) && checked <= due
    ensures Logged(log, Add(p, due, task, pool), checked)
  {
    if pool { InsertMembers(p.ts, Timer(due, p.born, task)); }
  }

  lemma {:induction false} LogCancel(log: seq<Timer>, p: Pending, checked: nat, task: Task)
    requires Logged(log, p, checked)
    ensures Logged(log, p.(ts := RemoveFirst(p.ts, task)), checked)
  {
    RemoveMembers(p.ts, task);
  }

  lemma {:induction false} LogCheck(log: seq<Timer>, p: Pending, checked: nat, fired: seq<Timer>, p': Pending, clock: nat, prompt: bool)
    requires Logged(log, p, checked) && checked <= clock && Sorted(fired) && p.born <= p'.born
    requires forall x :: x in fired ==> x.born < p'.born && x.due <= clock && (x in p.ts || New(x, p.born, clock, prompt))
    requires forall x :: x in p'.ts ==> clock < x.due
    ensures Logged(log + fired, p', clock)
  {
    forall f, g | f in log && g in fired ensures Before(f, g) { }
    var all := log + fired;
    forall i, j | 0 <= i < j < |all| ensures Before(all[i], all[j]) {
      if i < |log| && j < |log| { assert Before(log[i], log[j]); }
      else if i < |log| { assert log[i] in log && fired[j - |log|] in fired; }
      else { assert Before(fired[i - |log|], fired[j - |log|]); }
    }
  }

  /** Every cyclic timer is spaced, and on schedule where the handlers are prompt. */
  ghost predicate AllSteady(start: seq<Timer>, fired: seq<Timer>, ts: seq<Timer>, env: nat -> Effect) {
    && (forall task: Task {:trigger Steady(start, fired, ts, task, false)} :: Steady(start, fired, ts, task, false))
    && (forall task: Task {:trigger Steady(start, fired, ts, task, true)} :: PromptFor(start, env, task) ==> Steady(start, fired, ts, task, true))
  }

  lemma {:induction false} AllSteadyStarts(p: Pending, env: nat -> Effect)
    requires CyclesOnce(p.ts)
    ensures AllSteady(p.ts, [], p.ts, env)
  {
    hide Steady, CyclesOnce;
    forall task: Task, exact: bool ensures Steady(p.ts, [], p.ts, task, exact) { SteadyStarts(p, task, exact); }
  }

  lemma {:induction false} RoundAllSteady(start: seq<Timer>, fired: seq<Timer>, p: Pending, env: nat -> Effect, n: nat)
    requires p.ts != [] && CyclesOnce(p.ts) && AllSteady(start, fired, p.ts, env)
    ensures AllSteady(start, fired + [p.ts[0]], Round(p, env(n)).ts, env)
  {
    hide Steady, CyclesOnce, PromptFor, Round;
    var log, ts := fired + [p.ts[0]], Round(p, env(n)).ts;
    forall task: Task ensures Steady(start, log, ts, task, false) { RoundSteady(start, fired, p, env, n, task, false); }
    forall task: Task | PromptFor(start, env, task) ensures Steady(start, log, ts, task, true) {
      RoundSteady(start, fired, p, env, n, task, true);
    }
  }

  /** The same of a run that checks at least once every `gap`. */
  ghost predicate LogSteady(start: seq<Timer>, log: seq<Timer>, ts: seq<Timer>, gap: nat) {
    && (forall task: Task {:trigger Steady(start, log, ts, task, false)} :: Steady(start, log, ts, task, false))
    && (forall task: Task {:trigger Steady(start, log, ts, task, true)} ::
          task.Cyclic? && 2 * gap <= task.interval ==> Steady(start, log, ts, task, true))
  }

  lemma {:induction false} LogSteadyStarts(p: Pending, gap: nat)
    requires CyclesOnce(p.ts)
    ensures LogSteady(p.ts, [], p.ts, gap)
  {
    hide Steady, CyclesOnce;
    forall task: Task, exact: bool ensures Steady(p.ts, [], p.ts, task, exact) { SteadyStarts(p, task, exact); }
  }

  lemma {:induction false} LogSteadyAct(start: seq<Timer>, log: seq<Timer>, p: Pending, a: Action, gap: nat)
    requires CyclesOnce(p.ts) && LogSteady(start, log, p.ts, gap)
    ensures LogSteady(start, log, Act(p, a).ts, gap)
  {
    hide Steady, CyclesOnce, Act;
    var ts := Act(p, a).ts;
    forall task: Task ensures Steady(start, log, ts, task, false) { ActSteady(start, log, p, a, task, false); }
    forall task: Task | task.Cyclic? && 2 * gap <= task.interval ensures Steady(start, log, ts, task, true) {
      ActSteady(start, log, p, a, task, true);
    }
  }

  lemma {:induction false} LogSteadyCheck(start: seq<Timer>, log: seq<Timer>, p: Pending, fired: seq<Timer>, ts: seq<Timer>, env: nat -> Effect,
                                          lo: nat, clock: nat, gap: nat, longest: nat)
    requires CyclesOnce(p.ts) && LogSteady(start, log, p.ts, gap) && AllSteady(p.ts, fired, ts, env)
    requires Good(p, lo) && Brisk(env, clock, gap, longest) && clock <= lo + gap
    ensures LogSteady(start, log + fired, ts, gap)
  {
    hide Steady, CyclesOnce, PromptFor, Good, Brisk;
    forall task: Task ensures Steady(start, log + fired, ts, task, false) { SteadyTrans(start, log, p.ts, fired, ts, task, false); }
    forall task: Task | task.Cyclic? && 2 * gap <= task.interval ensures Steady(start, log + fired, ts, task, true) {
      BriskIsPrompt(p, env, lo, clock, gap, longest, task);
      SteadyTrans(start, log, p.ts, fired, ts, task, true);
    }
  }

  lemma {:induction false} BriskIsReasonable(env: nat -> Effect, lo: nat, clock: nat, gap: nat, longest: nat, k: nat)
    requires Brisk(env, clock, gap, longest) && lo <= clock <= lo + gap && 2 * gap + longest <= LWIP_MAX_TIMEOUT
    ensures Reasonable(env(k), clock, lo) && InRange(lo, env(k).clock + longest)
  {
  }

  // ------------------------------------------------------------- the program

  class TimeoutList {
    var list: seq<Timeo>
    var currentDue: u32
    ghost var pending: Pending
    ghost var lo: nat

    ghost predicate Valid()
      reads this
    {
      list == Wrapped(pending.ts) && Good(pending, lo)
    }

    constructor (ghost lo: nat)
      ensures Valid() && pending.ts == [] && this.lo == lo
    {
      list := [];
      currentDue := 0;
      pending := Pending([], 0);
      this.lo := lo;
    }

    /** sys_timeout_abs; `pool` says whether memp_malloc finds an entry */
    method TimeoutAbs(absTime: u32, task: Task, pool: bool, ghost due: nat)
      requires Valid() && absTime == Wrap(due) && InRange(lo, due)
      modifies this`list, this`pending
      ensures Valid() && pending == Add(old(pending), due, task, pool)
    {
      if !pool { return; }
      ghost var ts := pending.ts;
      ghost var t := Timer(due, pending.born, task);
      InsertSorted(ts, t, lo);
      var k := Place(absTime, due);
      InsertAt(ts, t, k);
      list := list[..k] + [Timeo(absTime, task)] + list[k..];
      pending := Add(pending, due, task, true);
    }

    /** The walk of sys_timeout_abs to the place of a new timeout */
    method Place(absTime: u32, ghost due: nat) returns (k: nat)
      requires Valid() && absTime == Wrap(due) && InRange(lo, due)
      ensures k <= |list| && (forall j :: 0 <= j < k ==> pending.ts[j].due <= due)
      ensures k < |list| ==> due < pending.ts[k].due
    {
      if list == [] { return 0; }
      TimeLessExact(lo, due, pending.ts[0].due);
      if TimeLess(absTime, list[0].time) { return 0; }
      k := 1;
      while k < |list| && !TimeLess(absTime, list[k].time)
        invariant 0 < k <= |list|
        invariant forall j :: 0 <= j < k ==> pending.ts[j].due <= due
      {
        TimeLessExact(lo, due, pending.ts[k].due);
        k := k + 1;
      }
      if k < |list| { TimeLessExact(lo, due, pending.ts[k].due); }
    }

    /** sys_timeout at the clock reading `clock` */
    method Timeout(clock: nat, msecs: nat, task: Task, pool: bool)
      requires Valid() && InRange(lo, clock + msecs)
      modifies this`list, this`pending
      ensures Valid() && pending == Add(old(pending), clock + msecs, task, pool)
    {
      WrapAdd(clock, msecs);
      TimeoutAbs(Wrap(Wrap(clock) + msecs), task, pool, clock + msecs);
    }

    /** sys_untimeout */
    method Untimeout(task: Task)
      requires Valid()
      modifies this`list, this`pending
      ensures Valid() && pending == old(pending).(ts := RemoveFirst(old(pending).ts, task))
    {
      hide Good, RemoveFirst;
      ghost var ts := pending.ts;
      CancelGood(pending, task, lo);
      var k := 0;
      while k < |list|
        invariant k <= |list| && (forall j :: 0 <= j < k ==> ts[j].task != task)
      {
        if list[k].task == task {
          RemoveAt(ts, task, k);
          WrappedWithout(ts, k);
          list := list[..k] + list[k + 1..];
          pending := pending.(ts := RemoveFirst(ts, task));
          return;
        }
        k := k + 1;
      }
      RemoveNone(ts, task);
    }

    /** The list operations of one handler */
    method Handle(actions: seq<Action>, ghost e: Effect, ghost now: nat)
      requires Valid() && Reasonable(e, now, lo) && actions == e.actions
      modifies this`list, this`pending
      ensures Valid() && pending == ActAll(old(pending), actions)
    {
      ghost var p := pending;
      var i := 0;
      assert actions[..0] == [];
      while i < |actions|
        invariant i <= |actions| && Valid() && pending == ActAll(p, actions[..i])
      {
        var next := actions[..i + 1];
        assert next[..|next| - 1] == actions[..i] && next[|next| - 1] == actions[i];
        match actions[i] {
          case Set(clock, msecs, handler, arg, pool) => Timeout(clock, msecs, OneShot(handler, arg), pool);
          case Cancel(task) => Untimeout(task);
        }
        i := i + 1;
      }
      assert actions[..i] == actions;
    }

    /** lwip_cyclic_timer, after its handler, or nothing for other handlers */
    method Rearm(task: Task, e: Effect, ghost due: nat)
      requires Valid() && currentDue == Wrap(due)
      requires task.Cyclic? ==> InRange(lo, e.clock) && InRange(lo, due + task.interval)
      requires task.Cyclic? ==> InRange(lo, NextDue(due, task.interval, e.clock))
      modifies this`list, this`pending
      ensures Valid()
      ensures task.Cyclic? && e.clock <= due + task.interval ==> pending == Add(old(pending), due + task.interval, task, e.pool)
      ensures task.Cyclic? && e.clock > due + task.interval ==> pending == Add(old(pending), e.clock + task.interval, task, e.pool)
      ensures task.OneShot? ==> pending == old(pending)
    {
      if task.Cyclic? {
        var now := Wrap(e.clock);
        var next := Wrap(currentDue + task.interval);
        WrapAdd(due, task.interval);
        WrapAdd(e.clock, task.interval);
        TimeLessExact(lo, due + task.interval, e.clock);
        if TimeLess(next, now) {
          TimeoutAbs(Wrap(now + task.interval), task, e.pool, e.clock + task.interval);
        } else {
          TimeoutAbs(next, task, e.pool, due + task.interval);
        }
      }
    }

    /** sys_check_timeouts, called when the clock reads `clock`.  Handlers may
        set and cancel timers as `env` says, the n-th one called as env(n); from
        call number `last` on they set nothing that is due already. */
    method CheckTimeouts(clock: nat, env: nat -> Effect, ghost longest: nat, ghost last: nat)
        returns (ghost fired: seq<Timer>, ghost n: nat)
      requires Valid() && CyclesOnce(pending.ts) && Intervals(pending.ts, longest)
      requires InRange(lo, clock) && InRange(lo, clock + longest)
      requires forall k :: Reasonable(env(k), clock, lo) && InRange(lo, env(k).clock + longest)
      requires forall k :: last <= k ==> Delayed(env(k), clock)
      modifies this`list, this`pending, this`currentDue, this`lo
      // what is pending lies ahead, so the range moves up to the clock
      ensures Valid() && lo == clock && CyclesOnce(pending.ts) && Intervals(pending.ts, longest)
      // in due order, first set first, and nobody twice at the same time
      ensures Sorted(fired) && old(pending).born <= pending.born
      ensures forall x :: x in fired ==> x.born < pending.born
      // nothing due is left, nothing else was called, nothing due was lost
      ensures forall x :: x in pending.ts ==> clock < x.due && (x in old(pending).ts || old(pending).born <= x.born)
      ensures forall x :: x in fired ==> x.due <= clock && (x in old(pending).ts || New(x, old(pending).born, clock, last > 0))
      ensures forall x :: x in old(pending).ts && x.due <= clock ==> x in fired || Cancelled(env, n, x.task)
      // however late the call, a cyclic timer runs at most twice
      ensures forall id :: Sum(fired, IsCycle(id)) <= 2
      // it is called no more often than its interval says, and exactly on schedule if the handlers are prompt
      ensures forall task: Task {:trigger Steady(old(pending).ts, fired, pending.ts, task, false)} ::
        Steady(old(pending).ts, fired, pending.ts, task, false)
      ensures forall task: Task {:trigger Steady(old(pending).ts, fired, pending.ts, task, true)} ::
        PromptFor(old(pending).ts, env, task) ==> Steady(old(pending).ts, fired, pending.ts, task, true)
    {
      hide Steady, PromptFor, Good, Sorted, Before, CyclesOnce, Intervals, TwiceAtMost, Fired, Accounted, Reasonable, Delayed, Round, Wrap, TimeLess;
      var now := Wrap(clock);
      fired, n := [], 0;
      ghost var start := pending;
      CountsAtStart(start.ts, clock);
      CheckStarts(start, env, clock, last > 0);
      AllSteadyStarts(start, env);
      var round := 0;
      while true
        invariant Valid() && n == round && lo == old(lo)
        invariant CyclesOnce(pending.ts) && Intervals(pending.ts, longest) && TwiceAtMost(fired, pending.ts, clock)
        invariant Fired(start, fired, pending)
        invariant Accounted(start, fired, pending.ts, env, n, clock, last > 0)
        invariant AllSteady(start.ts, fired, pending.ts, env)
        decreases if round < last then last - round else 0, Sum(pending.ts, Firings(clock))
      {
        if list == [] { break; }
        ghost var p := pending;
        ghost var t := p.ts[0];
        HeadKnown(p, lo, longest);
        TimeLessExact(lo, clock, t.due);
        if TimeLess(now, list[0].time) { break; }
        assert Reasonable(env(round), clock, lo) && InRange(lo, env(round).clock + longest);
        assert last <= round ==> Delayed(env(round), clock);
        ReasonableClock(env(round), clock, lo);
        if t.task.Cyclic? { NextInRange(lo, clock, t.due, t.task.interval, env(round).clock, longest); }
        RoundFires(start, fired, p, env(round), clock, lo);
        RoundCounts(fired, p, env(round), clock);
        RoundAccounts(start, fired, p, env, round, clock, lo, longest, last > 0);
        RoundAllSteady(start.ts, fired, p, env, round);
        Fire(env(round), clock, longest);
        fired, n, round := fired + [t], n + 1, round + 1;
      }
      RangeMoves(pending, lo, clock);
      CheckEnds(start, fired, pending, env, n, clock, last > 0);
      lo := clock;
    }

    /** One iteration: unlink the head, note its due time, call its handler */
    method Fire(e: Effect, ghost now: nat, ghost longest: nat)
      requires Valid() && list != [] && Reasonable(e, now, lo) && pending.ts[0].due <= now
      requires InRange(lo, now + longest) && InRange(lo, e.clock + longest)
      requires pending.ts[0].task.Cyclic? ==> 0 < pending.ts[0].task.interval <= longest
      modifies this`list, this`pending, this`currentDue
      ensures Valid()
      ensures pending == Round(old(pending), e)
    {
      ghost var t := pending.ts[0];
      var head := list[0];
      TailSorted(pending.ts, pending.born, lo);
      list := list[1..];
      pending := pending.(ts := pending.ts[1..]);
      currentDue := head.time;
      if t.task.Cyclic? { NextInRange(lo, now, t.due, t.task.interval, e.clock, longest); }
      Handle(e.actions, e, now);
      Rearm(head.task, e, t.due);
    }

    /**
     * Runs of any length, however often the 32-bit clock wraps: the timers called
     * over the whole run are called in due order, first set first, each at most
     * once, and the list stays sorted.
     */
    method Run(ops: seq<Op>, ghost gap: nat, ghost longest: nat, ghost now: nat) returns (ghost log: seq<Timer>)
      requires Valid() && CyclesOnce(pending.ts) && Intervals(pending.ts, longest)
      requires lo <= now && 2 * gap + longest <= LWIP_MAX_TIMEOUT && Timely(ops, lo, now, gap, longest)
      modifies this
      ensures Valid() && CyclesOnce(pending.ts) && Intervals(pending.ts, longest)
      ensures Sorted(log) && forall f, x :: f in log && x in pending.ts ==> Before(f, x)
      // a cyclic timer is called at least an interval after the last time, and exactly then if checks are frequent
      ensures forall task: Task {:trigger Steady(old(pending).ts, log, pending.ts, task, false)} ::
        Steady(old(pending).ts, log, pending.ts, task, false)
      ensures forall task: Task {:trigger Steady(old(pending).ts, log, pending.ts, task, true)} ::
        task.Cyclic? && 2 * gap <= task.interval ==> Steady(old(pending).ts, log, pending.ts, task, true)
    {
      hide Good, CyclesOnce, Intervals, Brisk, Sorted, Before, Steady, PromptFor;
      ghost var start := pending;
      LogSteadyStarts(start, gap);
      log := [];
      LogStarts(pending, lo);
      ghost var at := now;
      var i := 0;
      assert ops[0..] == ops;
      while i < |ops|
        invariant i <= |ops| && Valid() && CyclesOnce(pending.ts) && Intervals(pending.ts, longest)
        invariant lo <= at && Timely(ops[i..], lo, at, gap, longest) && Logged(log, pending, lo)
        invariant LogSteady(start.ts, log, pending.ts, gap)
      {
        ghost var rest := ops[i..];
        assert rest[0] == ops[i] && rest[1..] == ops[i + 1..];
        ghost var p, l := pending, lo;
        match ops[i] {
          case SetOp(clock, msecs, handler, arg, pool) =>
            LogSet(log, p, l, clock + msecs, OneShot(handler, arg), pool);
            SetKeeps(p, clock + msecs, handler, arg, pool, longest);
            LogSteadyAct(start.ts, log, p, Set(clock, msecs, handler, arg, pool), gap);
            Timeout(clock, msecs, OneShot(handler, arg), pool);
            at := clock;
          case CancelOp(task) =>
            LogCancel(log, p, l, task);
            CancelKeepsCycles(p, task, longest);
            LogSteadyAct(start.ts, log, p, Cancel(task), gap);
            Untimeout(task);
          case CheckOp(clock, env, last) =>
            forall k: nat ensures Reasonable(env(k), clock, lo) && InRange(lo, env(k).clock + longest) {
              BriskIsReasonable(env, lo, clock, gap, longest, k);
            }
            ghost var fired, n;
            fired, n := CheckTimeouts(clock, env, longest, last);
            LogCheck(log, p, l, fired, pending, clock, last > 0);
            LogSteadyCheck(start.ts, log, p, fired, pending.ts, env, l, clock, gap, longest);
            log := log + fired;
            at := clock;
        }
        i := i + 1;
      }
    }

    /** sys_restart_timeouts at the clock reading `clock` */
    method Restart(clock: nat)
      requires Valid()
      modifies this`list, this`pending, this`lo
      ensures Valid()
      ensures old(pending).ts == [] ==> pending == old(pending) && lo == old(lo)
      ensures old(pending).ts != [] ==> pending == Rebased(old(pending), clock) && lo == clock
    {
      hide Wrap, InRange;
      if list == [] { return; }
      var now := Wrap(clock);
      var base := list[0].time;
      ghost var ts := pending.ts;
      RebaseKeeps(pending, lo, clock);
      ghost var ts' := Rebased(pending, clock).ts;
      var k := 0;
      while k < |list|
        invariant k <= |list| == |ts| == |ts'| && pending == old(pending)
        invariant forall j :: 0 <= j < k ==> list[j] == Timeo(Wrap(ts'[j].due), ts[j].task)
        invariant forall j :: k <= j < |ts| ==> list[j] == Timeo(Wrap(ts[j].due), ts[j].task)
      {
        RebaseWraps(ts[k].due, ts[0].due, clock);
        list := list[k := list[k].(time := Wrap(Wrap(list[k].time - base) + now))];
        k := k + 1;
      }
      pending := Rebased(pending, clock);
      lo := clock;
    }

    /** sys_timeouts_sleeptime at the clock reading `clock` */
    method SleepTime(clock: nat) returns (r: u32)
      requires Valid() && InRange(lo, clock)
      ensures pending.ts == [] ==> r == 0xffff_ffff
      ensures pending.ts != [] ==> r == if pending.ts[0].due < clock then 0 else pending.ts[0].due - clock
      ensures forall x :: x in pending.ts ==> x.due <= clock ==> r == 0
    {
      if list == [] { return 0xffff_ffff; }
      var now := Wrap(clock);
      ghost var due := pending.ts[0].due;
      TimeLessExact(lo, due, clock);
      assert forall x :: x in pending.ts ==> due <= x.due;
      if TimeLess(list[0].time, now) { return 0; }
      RebaseWraps(due, clock, 0);
      r := Wrap(list[0].time - now);
    }
  }

  // --------------------------------------------------------------- restarting

  /** Every due time moved by the same amount, so that the first is due now. */
  ghost function Rebased(p: Pending, clock: nat): Pending
    requires p.ts != [] && Sorted(p.ts)
  {
    Pending(seq(|p.ts|, i requires 0 <= i < |p.ts| => p.ts[i].(due := p.ts[i].due - p.ts[0].due + clock)), p.born)
  }

  /** Restarting keeps the order, the gaps and the tasks; the first is due now. */
  lemma {:induction false} RebaseKeeps(p: Pending, lo: nat, clock: nat)
    requires p.ts != [] && Good(p, lo)
    ensures var q := Rebased(p, clock);
      && Good(q, clock) && |q.ts| == |p.ts| && q.ts[0].due == clock
      && (forall i :: 0 <= i < |p.ts| ==> q.ts[i].task == p.ts[i].task)
      && (forall i, j :: 0 <= i < |p.ts| && 0 <= j < |p.ts| ==> q.ts[j].due - q.ts[i].due == p.ts[j].due - p.ts[i].due)
  {
    var q := Rebased(p, clock);
    forall i, j | 0 <= i < j < |q.ts| ensures Before(q.ts[i], q.ts[j]) { assert Before(p.ts[i], p.ts[j]); }
  }

  lemma {:induction false} RebaseWraps(due: int, base: int, clock: int)
    ensures Wrap(Wrap(Wrap(due) - Wrap(base)) + Wrap(clock)) == Wrap(due - base + clock)
  {
    assert due == M32 * (due / M32) + Wrap(due) && base == M32 * (base / M32) + Wrap(base);
    assert due - base == Wrap(due) - Wrap(base) + M32 * (due / M32 - base / M32);
    WrapOfSum(Wrap(due) - Wrap(base), due / M32 - base / M32);
    WrapAdd(due - base, Wrap(clock));
    WrapAdd(clock, due - base);
  }
}
