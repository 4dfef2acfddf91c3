/**
 * Packet buffers (pbuf.c): linked, reference-counted buffers.
 *
 * `handles` are the references held outside the pool: what callers keep and
 * owe a pbuf_free for.  A pbuf's `ref` counts those and the links to it.
 */
module Pbufs {
  import opened SeqNum

  type Id = nat

  datatype Link = None | To(id: Id)

  /** LWIP_PBUF_REF_T is eight bits wide. */
  datatype Pbuf = Pbuf(next: Link, ref: byte, payload: seq<byte>, tot: u16)

  type Mem = map<Id, Pbuf>

  // ------------------------------------------------------------------- chains

  /** `s` lists the chain that starts at `l`, to its end. */
  ghost predicate Path(m: Mem, l: Link, s: seq<Id>)
    decreases |s|
  {
    match l
    case None => s == []
    case To(p) => s != [] && s[0] == p && p in m && Path(m, m[p].next, s[1..])
  }

  lemma {:induction false} PathUnique(m: Mem, l: Link, s: seq<Id>, t: seq<Id>)
    requires Path(m, l, s) && Path(m, l, t)
    ensures s == t
    decreases |s|
  {
    if l.To? {
      PathUnique(m, m[l.id].next, s[1..], t[1..]);
      assert s == [s[0]] + s[1..] && t == [t[0]] + t[1..];
    }
  }

  lemma {:induction false} PathIn(m: Mem, l: Link, s: seq<Id>)
    requires Path(m, l, s)
    ensures forall x :: x in s ==> x in m
    decreases |s|
  {
    if l.To? { PathIn(m, m[l.id].next, s[1..]); }
  }

  /** A path depends only on the links of the pbufs on it. */
  lemma {:induction false} PathFrame(m: Mem, m': Mem, l: Link, s: seq<Id>)
    requires Path(m, l, s)
    requires forall x :: x in s && x in m ==> x in m' && m'[x].next == m[x].next
    ensures Path(m', l, s)
    decreases |s|
  {
    if l.To? {
      assert s[0] in s;
      PathFrame(m, m', m[l.id].next, s[1..]);
    }
  }

  /** From any pbuf on a path, the rest of it is that pbuf's path. */
  lemma {:induction false} PathFrom(m: Mem, l: Link, s: seq<Id>, k: nat)
    requires Path(m, l, s) && k < |s|
    ensures Path(m, To(s[k]), s[k..]) && s[k] in m && Path(m, m[s[k]].next, s[k + 1..])
    decreases |s|
  {
    if k == 0 {
      assert s[0..] == s;
    } else {
      PathFrom(m, m[l.id].next, s[1..], k - 1);
      assert s[1..][k - 1..] == s[k..] && s[1..][k..] == s[k + 1..];
    }
  }

  /** No pbuf is on a path twice. */
  lemma {:induction false} PathDistinct(m: Mem, l: Link, s: seq<Id>, i: nat, j: nat)
    requires Path(m, l, s) && i < j < |s|
    ensures s[i] != s[j]
  {
    PathFrom(m, l, s, i);
    PathFrom(m, l, s, j);
    if s[i] == s[j] { PathUnique(m, To(s[i]), s[i..], s[j..]); }
  }

  /** The first `k` pbufs of a path whose k-th one loses its link. */
  lemma {:induction false} PathCut(m: Mem, m': Mem, l: Link, s: seq<Id>, k: nat)
    requires Path(m, l, s) && k < |s| && s[k] in m' && m'[s[k]].next == None
    requires forall x :: x in s[..k] && x in m ==> x in m' && m'[x].next == m[x].next
    ensures Path(m', l, s[..k + 1])
    decreases |s|
  {
    if k == 0 {
      assert s[..1][1..] == [];
    } else {
      assert s[0] == s[..k][0] && s[0] in s[..k];
      forall x | x in s[1..][..k - 1] ensures x in s[..k] { assert s[..k] == [s[0]] + s[1..][..k - 1]; }
      PathCut(m, m', m[l.id].next, s[1..], k - 1);
      assert s[..k + 1][1..] == s[1..][..k];
    }
  }

  lemma {:induction false} PathJoin(m: Mem, m': Mem, l: Link, s: seq<Id>, t: seq<Id>, q: Link)
    requires Path(m, l, s) && s != [] && Path(m', q, t)
    requires s[|s| - 1] in m' && m'[s[|s| - 1]].next == q
    requires forall x :: x in s && x != s[|s| - 1] && x in m ==> x in m' && m'[x].next == m[x].next
    ensures Path(m', l, s + t)
    decreases |s|
  {
    assert (s + t)[1..] == s[1..] + t;
    if |s| == 1 {
      assert s[1..] + t == t;
    } else {
      PathDistinct(m, l, s, 0, |s| - 1);
      assert s[0] in s && s[1..][|s[1..]| - 1] == s[|s| - 1];
      PathJoin(m, m', m[l.id].next, s[1..], t, q);
    }
  }

  // --------------------------------------------------------------- the invariant

  ghost function Preds(m: Mem, id: Id): set<Id> {
    set q | q in m && m[q].next == To(id)
  }

  ghost predicate LinkIn(m: Mem, q: Id)
    requires q in m
  {
    m[q].next.To? ==> m[q].next.id in m
  }

  ghost predicate Closed(m: Mem, handles: multiset<Id>) {
    && (forall q {:trigger LinkIn(m, q)} :: q in m ==> LinkIn(m, q))
    && (forall h :: h in handles ==> h in m)
  }

  /** ref is the number of references: handles, and links from other pbufs. */
  ghost predicate CountedAt(m: Mem, handles: multiset<Id>, id: Id)
    requires id in m
  {
    0 < m[id].ref && m[id].ref == handles[id] + |Preds(m, id)|
  }

  ghost predicate Counted(m: Mem, handles: multiset<Id>) {
    forall id {:trigger CountedAt(m, handles, id)} :: id in m ==> CountedAt(m, handles, id)
  }

  ghost predicate Acyclic(m: Mem) {
    forall id {:trigger HasPath(m, To(id))} :: id in m ==> HasPath(m, To(id))
  }

  ghost predicate HasPath(m: Mem, l: Link) {
    exists s :: Path(m, l, s)
  }

  ghost predicate Inv(m: Mem, handles: multiset<Id>) {
    Closed(m, handles) && Counted(m, handles) && Acyclic(m)
  }

  // ---------------------------------------------- what the invariant comes to

  ghost function Elems(s: seq<Id>): set<Id> {
    set x | x in s
  }

  lemma {:induction false} PathFits(m: Mem, l: Link, s: seq<Id>)
    requires Path(m, l, s)
    ensures |s| <= |m|
  {
    PathIn(m, l, s);
    forall i, j | 0 <= i < j < |s| ensures s[i] != s[j] { PathDistinct(m, l, s, i, j); }
    DistinctSize(s);
    Subset(Elems(s), m.Keys);
  }

  lemma {:induction false} DistinctSize(s: seq<Id>)
    requires forall i, j :: 0 <= i < j < |s| ==> s[i] != s[j]
    ensures |Elems(s)| == |s|
  {
    if s != [] {
      DistinctSize(s[1..]);
      assert Elems(s) == Elems(s[1..]) + {s[0]};
    }
  }

  lemma {:induction false} Subset(a: set<Id>, b: set<Id>)
    requires a <= b
    ensures |a| <= |b|
  {
    if x :| x in a { Subset(a - {x}, b - {x}); }
  }

  /** `id` is on the chain of some handle. */
  ghost predicate Reached(m: Mem, handles: multiset<Id>, id: Id) {
    exists h, s :: h in handles && Path(m, To(h), s) && id in s
  }

  lemma {:induction false} ReachNext(m: Mem, handles: multiset<Id>, q: Id, id: Id)
    requires Reached(m, handles, q) && q in m && m[q].next == To(id)
    ensures Reached(m, handles, id)
  {
    var h, t :| h in handles && Path(m, To(h), t) && q in t;
    var k :| 0 <= k < |t| && t[k] == q;
    PathFrom(m, To(h), t, k);
    assert t[k + 1..][0] == id;
    assert t[k + 1] == id && id in t;
    assert h in handles && Path(m, To(h), t) && id in t;
  }

  /** No leak: every pbuf in the pool is on the chain of some handle. */
  lemma {:induction false} NothingLeaks(m: Mem, handles: multiset<Id>, id: Id, s: seq<Id>)
    requires Inv(m, handles) && id in m && Path(m, To(id), s)
    ensures Reached(m, handles, id)
    decreases |m| - |s|
  {
    if handles[id] == 0 {
      var q := SomePred(m, handles, id);
      hide Inv;
      assert ([q] + s)[1..] == s;
      assert Path(m, To(q), [q] + s);
      PathFits(m, To(q), [q] + s);
      NothingLeaks(m, handles, q, [q] + s);
      ReachNext(m, handles, q, id);
    } else {
      assert id == s[0] && id in s;
    }
  }

  lemma {:induction false} SomePred(m: Mem, handles: multiset<Id>, id: Id) returns (q: Id)
    requires Inv(m, handles) && id in m && handles[id] == 0
    ensures q in m && m[q].next == To(id)
  {
    assert CountedAt(m, handles, id);
    assert |Preds(m, id)| > 0;
    q :| q in Preds(m, id);
  }

  /** Once every handle has been released, the pool is empty. */
  lemma {:induction false} AllReleased(m: Mem)
    requires Inv(m, multiset{})
    ensures m == map[]
  {
    forall id | id in m ensures false {
      assert HasPath(m, To(id));
      var s :| Path(m, To(id), s);
      NothingLeaks(m, multiset{}, id, s);
    }
    assert m.Keys == {};
  }

  /** What a pbuf is apart from its count. */
  ghost predicate Same(a: Pbuf, b: Pbuf) {
    a.next == b.next && a.payload == b.payload && a.tot == b.tot
  }

  lemma {:induction false} SamePath(m: Mem, m': Mem, l: Link, s: seq<Id>)
    requires Path(m, l, s) && (l.To? ==> l.id in m')
    requires forall q {:trigger LinkIn(m', q)} :: q in m' ==> LinkIn(m', q)
    requires forall x :: x in m && x in m' ==> Same(m[x], m'[x])
    ensures forall x :: x in s ==> x in m'
    decreases |s|
  {
    if l.To? {
      assert LinkIn(m', l.id);
      SamePath(m, m', m[l.id].next, s[1..]);
      assert s == [s[0]] + s[1..];
    }
  }

  lemma {:induction false} NoneExtra(m: Mem, m': Mem, handles: multiset<Id>)
    requires Inv(m, handles) && Inv(m', handles)
    requires forall x :: x in m && x in m' ==> Same(m[x], m'[x])
    ensures m.Keys <= m'.Keys
  {
    forall x | x in m ensures x in m' {
      assert HasPath(m, To(x));
      var s :| Path(m, To(x), s);
      NothingLeaks(m, handles, x, s);
      var h, t :| h in handles && Path(m, To(h), t) && x in t;
      SamePath(m, m', To(h), t);
    }
  }

  /** The pool is determined by the handles and the pbufs' links and data: which
      pbufs exist, and every count, follow. */
  lemma {:induction false} PoolDetermined(m: Mem, m': Mem, handles: multiset<Id>)
    requires Inv(m, handles) && Inv(m', handles)
    requires forall x :: x in m && x in m' ==> Same(m[x], m'[x])
    ensures m == m'
  {
    NoneExtra(m, m', handles);
    NoneExtra(m', m, handles);
    forall x | x in m ensures m[x] == m'[x] {
      assert Same(m[x], m'[x]) && CountedAt(m, handles, x) && CountedAt(m', handles, x);
      assert Preds(m, x) == Preds(m', x) by {
        forall q ensures q in Preds(m, x) <==> q in Preds(m', x) { assert q in m ==> Same(m[q], m'[q]); }
      }
    }
  }

  // ---------------------------------------------------- one reference at a time

  /** Cutting a link turns it into a handle on what it led to. */
  lemma {:induction false} CutKeeps(m: Mem, handles: multiset<Id>, p: Id)
    requires Inv(m, handles) && p in m && m[p].next.To?
    ensures Inv(m[p := m[p].(next := None)], handles + multiset{m[p].next.id})
  {
    hide Preds, Path;
    var m' := m[p := m[p].(next := None)];
    var handles' := handles + multiset{m[p].next.id};
    CutPreds(m, p);
    forall id | id in m' ensures CountedAt(m', handles', id) { assert CountedAt(m, handles, id); }
    forall x | x in m' ensures LinkIn(m', x) { assert LinkIn(m, x) && LinkIn(m, p); }
    forall id | id in m' ensures HasPath(m', To(id)) {
      assert HasPath(m, To(id));
      var s :| Path(m, To(id), s);
      CutPath(m, p, To(id), s);
    }
  }

  lemma {:induction false} CutPreds(m: Mem, p: Id)
    requires p in m && m[p].next.To?
    ensures var m' := m[p := m[p].(next := None)];
      forall id :: |Preds(m, id)| == |Preds(m', id)| + if id == m[p].next.id then 1 else 0
  {
    var m' := m[p := m[p].(next := None)];
    forall id ensures |Preds(m, id)| == |Preds(m', id)| + if id == m[p].next.id then 1 else 0 {
      if id == m[p].next.id {
        assert Preds(m, id) == Preds(m', id) + {p};
      } else {
        assert Preds(m, id) == Preds(m', id);
      }
    }
  }

  lemma {:induction false} CutPath(m: Mem, p: Id, l: Link, s: seq<Id>)
    requires p in m && Path(m, l, s)
    ensures HasPath(m[p := m[p].(next := None)], l)
  {
    hide Path;
    var m' := m[p := m[p].(next := None)];
    if k :| 0 <= k < |s| && s[k] == p {
      forall x | x in s[..k] && x in m ensures x in m' && m'[x].next == m[x].next {
        var j :| 0 <= j < k && s[j] == x;
        PathDistinct(m, l, s, j, k);
      }
      PathCut(m, m', l, s, k);
    } else {
      PathFrame(m, m', l, s);
    }
  }

  /** Tying the end of a chain to another one's head uses up a handle on that. */
  lemma {:induction false} TieKeeps(m: Mem, handles: multiset<Id>, p: Id, q: Id, t: seq<Id>)
    requires Inv(m, handles) && p in m && m[p].next == None
    requires q in handles && Path(m, To(q), t) && p !in t
    ensures Inv(m[p := m[p].(next := To(q))], handles - multiset{q})
  {
    hide Preds, Path;
    var m' := m[p := m[p].(next := To(q))];
    var handles' := handles - multiset{q};
    TiePreds(m, p, q);
    forall id | id in m' ensures CountedAt(m', handles', id) { assert CountedAt(m, handles, id); }
    forall x | x in m' ensures LinkIn(m', x) { assert LinkIn(m, x) && LinkIn(m, p); }
    forall id | id in m' ensures HasPath(m', To(id)) {
      assert HasPath(m, To(id));
      var s :| Path(m, To(id), s);
      TiePath(m, p, q, t, To(id), s);
    }
  }

  lemma {:induction false} TiePreds(m: Mem, p: Id, q: Id)
    requires p in m && m[p].next == None
    ensures var m' := m[p := m[p].(next := To(q))];
      forall id :: |Preds(m', id)| == |Preds(m, id)| + if id == q then 1 else 0
  {
    var m' := m[p := m[p].(next := To(q))];
    forall id ensures |Preds(m', id)| == |Preds(m, id)| + if id == q then 1 else 0 {
      if id == q {
        assert Preds(m', id) == Preds(m, id) + {p};
      } else {
        assert Preds(m, id) == Preds(m', id);
      }
    }
  }

  lemma {:induction false} TiePath(m: Mem, p: Id, q: Id, t: seq<Id>, l: Link, s: seq<Id>)
    requires p in m && m[p].next == None && Path(m, l, s) && Path(m, To(q), t) && p !in t
    ensures var m' := m[p := m[p].(next := To(q))];
      && (p in s ==> Path(m', l, s + t)) && (p !in s ==> Path(m', l, s)) && HasPath(m', l)
  {
    var m' := m[p := m[p].(next := To(q))];
    PathFrame(m, m', To(q), t);
    if k :| 0 <= k < |s| && s[k] == p {
      PathFrom(m, l, s, k);
      assert s[k + 1..] == [];
      PathJoin(m, m', l, s, t, To(q));
    } else {
      PathFrame(m, m', l, s);
    }
  }

  /** One handle more ... */
  lemma {:induction false} RetainKeeps(m: Mem, handles: multiset<Id>, p: Id)
    requires Inv(m, handles) && p in m && m[p].ref < 0xff
    ensures Inv(m[p := m[p].(ref := m[p].ref + 1)], handles + multiset{p})
  {
    hide Preds, HasPath, Path;
    var m' := m[p := m[p].(ref := m[p].ref + 1)];
    LinksAlike(m, m');
    forall id | id in m' ensures CountedAt(m', handles + multiset{p}, id) { assert CountedAt(m, handles, id); }
    forall x | x in m' ensures LinkIn(m', x) { assert LinkIn(m, x); }
    forall id | id in m' ensures HasPath(m', To(id)) { assert HasPath(m, To(id)); }
  }

  /** ... and one less of several. */
  lemma {:induction false} ReleaseKeeps(m: Mem, handles: multiset<Id>, p: Id)
    requires Inv(m, handles) && p in handles && p in m && 1 < m[p].ref
    ensures Inv(m[p := m[p].(ref := m[p].ref - 1)], handles - multiset{p})
  {
    hide Preds, HasPath, Path;
    var m' := m[p := m[p].(ref := m[p].ref - 1)];
    LinksAlike(m, m');
    forall id | id in m' ensures CountedAt(m', handles - multiset{p}, id) { assert CountedAt(m, handles, id); }
    forall x | x in m' ensures LinkIn(m', x) { assert LinkIn(m, x); }
    forall id | id in m' ensures HasPath(m', To(id)) { assert HasPath(m, To(id)); }
  }

  lemma {:induction false} LinksAlike(m: Mem, m': Mem)
    requires m.Keys == m'.Keys && forall x :: x in m ==> m[x].next == m'[x].next
    ensures forall id :: Preds(m, id) == Preds(m', id)
    ensures forall l :: HasPath(m, l) ==> HasPath(m', l)
  {
    forall l | HasPath(m, l) ensures HasPath(m', l) {
      var s :| Path(m, l, s);
      PathFrame(m, m', l, s);
    }
  }

  /** The last reference to a pbuf without successor takes it out of the pool. */
  lemma {:induction false} DeleteKeeps(m: Mem, handles: multiset<Id>, p: Id)
    requires Inv(m, handles) && p in handles && m[p].next == None && m[p].ref == 1
    ensures Inv(m - {p}, handles - multiset{p})
  {
    var m' := m - {p};
    var handles' := handles - multiset{p};
    assert CountedAt(m, handles, p);
    assert |Preds(m, p)| == 0 && handles[p] == 1;
    assert forall q :: q in m ==> q !in Preds(m, p);
    forall id | id in m' ensures CountedAt(m', handles', id) {
      assert CountedAt(m, handles, id);
      assert Preds(m, id) == Preds(m', id);
    }
    forall x | x in m' ensures LinkIn(m', x) { assert LinkIn(m, x) && x !in Preds(m, p); }
    forall id | id in m' ensures HasPath(m', To(id)) {
      assert HasPath(m, To(id));
      var s :| Path(m, To(id), s);
      NoPredOnPath(m, To(id), s, p);
      PathIn(m, To(id), s);
      PathFrame(m, m', To(id), s);
    }
  }

  lemma {:induction false} NoPredOnPath(m: Mem, l: Link, s: seq<Id>, p: Id)
    requires Path(m, l, s) && l != To(p) && forall q :: q in m ==> m[q].next != To(p)
    ensures p !in s
    decreases |s|
  {
    if l.To? { NoPredOnPath(m, m[l.id].next, s[1..], p); }
  }

  /** A pbuf just allocated, with its one handle. */
  lemma {:induction false} NewKeeps(m: Mem, handles: multiset<Id>, p: Id, b: Pbuf)
    requires Inv(m, handles) && p !in m && b.next == None && b.ref == 1
    ensures Inv(m[p := b], handles + multiset{p})
  {
    var m' := m[p := b];
    var handles' := handles + multiset{p};
    forall x | x in m ensures LinkIn(m', x) && m[x].next != To(p) { assert LinkIn(m, x); }
    assert handles[p] == 0;
    assert Preds(m', p) == {};
    forall id | id in m' ensures CountedAt(m', handles', id) {
      if id != p {
        assert CountedAt(m, handles, id);
        assert Preds(m, id) == Preds(m', id);
      }
    }
    assert Path(m', To(p), [p]);
    forall id | id in m' && id != p ensures HasPath(m', To(id)) {
      assert HasPath(m, To(id));
      var s :| Path(m, To(id), s);
      PathFrame(m, m', To(id), s);
    }
  }

  /** The references a link stands for. */
  ghost function Held(l: Link): multiset<Id> {
    match l case None => multiset{} case To(q) => multiset{q}
  }

  /** Deallocating a pbuf on its last reference passes that reference on. */
  lemma {:induction false} FreeOneKeeps(m: Mem, handles: multiset<Id>, p: Id)
    requires Inv(m, handles) && p in handles && p in m && m[p].ref == 1
    ensures Inv(m - {p}, handles - multiset{p} + Held(m[p].next))
  {
    hide Inv;
    if m[p].next.To? {
      var m' := m[p := m[p].(next := None)];
      CutKeeps(m, handles, p);
      DeleteKeeps(m', handles + Held(m[p].next), p);
      assert m' - {p} == m - {p};
      assert handles + Held(m[p].next) - multiset{p} == handles - multiset{p} + Held(m[p].next);
    } else {
      DeleteKeeps(m, handles, p);
      assert handles - multiset{p} + Held(None) == handles - multiset{p};
    }
  }

  /** Neither data nor length fields matter to the invariant. */
  lemma {:induction false} ShapeKeeps(m: Mem, m': Mem, handles: multiset<Id>)
    requires Inv(m, handles) && m.Keys == m'.Keys
    requires forall x :: x in m ==> m[x].next == m'[x].next && m[x].ref == m'[x].ref
    ensures Inv(m', handles)
  {
    hide Preds, HasPath, Path;
    LinksAlike(m, m');
    forall id | id in m' ensures CountedAt(m', handles, id) { assert CountedAt(m, handles, id); }
    forall x | x in m' ensures LinkIn(m', x) { assert LinkIn(m, x); }
    forall id | id in m' ensures HasPath(m', To(id)) { assert HasPath(m, To(id)); }
  }

  /** `m` has nothing that `m0` has not, but for the counts. */
  ghost predicate Within(m: Mem, m0: Mem) {
    forall x :: x in m ==> x in m0 && Same(m[x], m0[x])
  }

  lemma {:induction false} WithinLess(m: Mem, m0: Mem, q: Id)
    requires Within(m, m0)
    ensures Within(m - {q}, m0)
  {
  }

  lemma {:induction false} WithinRef(m: Mem, m0: Mem, q: Id, ref: byte)
    requires Within(m, m0) && q in m
    ensures Within(m[q := m[q].(ref := ref)], m0) && |m[q := m[q].(ref := ref)]| == |m|
  {
    assert m[q := m[q].(ref := ref)].Keys == m.Keys;
  }

  lemma {:induction false} OneLess(m: Mem, q: Id)
    requires q in m
    ensures |m - {q}| == |m| - 1
  {
    assert (m - {q}).Keys == m.Keys - {q};
  }

  /** The invariant, but that a reference through `l` is still to be dropped. */
  ghost predicate Owing(m: Mem, handles: multiset<Id>, l: Link) {
    Inv(m, handles + Held(l))
  }

  lemma {:induction false} NothingOwed(m: Mem, handles: multiset<Id>)
    requires Owing(m, handles, None)
    ensures Inv(m, handles)
  {
    assert handles + Held(None) == handles;
  }

  lemma {:induction false} FreeStart(m: Mem, handles: multiset<Id>, p: Link)
    requires Inv(m, handles) && (p.To? ==> p.id in handles)
    ensures Owing(m, handles - Held(p), p) && Within(m, m) && (p.To? ==> p.id in m)
  {
    assert handles - Held(p) + Held(p) == handles;
  }

  /** pbuf_free's loop body: the reference owed to `q` is dropped, and if it was
      the last one, what q held is owed next. */
  lemma {:induction false} FreeStep(m: Mem, m0: Mem, handles: multiset<Id>, q: Id)
    requires Owing(m, handles, To(q)) && Within(m, m0)
    ensures q in m && 0 < m[q].ref
    ensures m[q].ref == 1 ==> Owing(m - {q}, handles, m[q].next) && Within(m - {q}, m0) && |m - {q}| == |m| - 1
    ensures var m' := m[q := m[q].(ref := m[q].ref - 1)];
      m[q].ref > 1 ==> Owing(m', handles, None) && Within(m', m0) && |m'| == |m|
  {
    hide Inv, Within;
    HandleLives(m, handles + Held(To(q)), q);
    if m[q].ref == 1 {
      FreeOneKeeps(m, handles + Held(To(q)), q);
      assert handles + Held(To(q)) - multiset{q} + Held(m[q].next) == handles + Held(m[q].next);
      OneLess(m, q);
      WithinLess(m, m0, q);
    } else {
      ReleaseKeeps(m, handles + Held(To(q)), q);
      assert handles + Held(To(q)) - multiset{q} == handles + Held(None);
      WithinRef(m, m0, q, m[q].ref - 1);
    }
  }

  // ------------------------------------------------ which pbufs pbuf_free takes

  /** How many pbufs at the front of the chain have one reference only. */
  ghost function Lone(m: Mem, s: seq<Id>): (k: nat)
    ensures k <= |s|
  {
    if s == [] || s[0] !in m || m[s[0]].ref != 1 then 0 else 1 + Lone(m, s[1..])
  }

  ghost function Without(m: Mem, xs: seq<Id>): Mem {
    m - Elems(xs)
  }

  /** The pool after a reference to the chain `s` has been given up: the front
      of single references is gone, and the pbuf behind it has one count less. */
  ghost function Released(m: Mem, s: seq<Id>): Mem {
    var k := Lone(m, s);
    var m1 := Without(m, s[..k]);
    if k < |s| && s[k] in m && m[s[k]].ref > 0 then m1[s[k] := m[s[k]].(ref := m[s[k]].ref - 1)] else m1
  }

  lemma {:induction false} LoneIs(m: Mem, s: seq<Id>, k: nat)
    requires k <= |s| && (forall j :: 0 <= j < k ==> s[j] in m && m[s[j]].ref == 1)
    requires k < |s| ==> s[k] in m && m[s[k]].ref != 1
    ensures Lone(m, s) == k
  {
    if k > 0 { LoneIs(m, s[1..], k - 1); }
  }

  lemma {:induction false} LoneNone(m: Mem, s: seq<Id>)
    ensures s == [] ==> Lone(m, s) == 0
  {
  }

  lemma {:induction false} LoneFrame(m: Mem, m': Mem, s: seq<Id>)
    requires forall x :: x in s ==> x in m && x in m' && m[x].ref == m'[x].ref
    ensures Lone(m, s) == Lone(m', s)
  {
    if s != [] { LoneFrame(m, m', s[1..]); }
  }

  /** pbuf_free's walk, `k` pbufs down the chain. */
  lemma {:induction false} FreeWalk(m: Mem, l: Link, s: seq<Id>, k: nat)
    requires Path(m, l, s) && k < |s|
    ensures s[k] in m && s[k] in Without(m, s[..k]) && Without(m, s[..k])[s[k]] == m[s[k]]
    ensures Without(m, s[..k]) - {s[k]} == Without(m, s[..k + 1])
    ensures m[s[k]].next == if k + 1 < |s| then To(s[k + 1]) else None
  {
    LastHasNoNext(m, l, s, k);
    assert s[k] !in s[..k] by {
      forall j | 0 <= j < k ensures s[..k][j] != s[k] { PathDistinct(m, l, s, j, k); }
    }
    assert s[..k + 1] == s[..k] + [s[k]];
  }

  /** Where pbuf_free stands: `k` pbufs of the chain are gone, each on its last
      reference, and `cur` is the next one to lose a reference. */
  ghost predicate Walking(m0: Mem, m: Mem, p: Link, s: seq<Id>, k: nat, cur: Link) {
    && Path(m0, p, s) && k <= |s|
    && (forall j :: 0 <= j < k ==> s[j] in m0 && m0[s[j]].ref == 1)
    && if cur.To? then k < |s| && cur.id == s[k] && m == Without(m0, s[..k])
       else m == Released(m0, s) && k == Lone(m0, s)
  }

  lemma {:induction false} WalkStarts(m: Mem, p: Link, s: seq<Id>)
    requires Path(m, p, s)
    ensures Walking(m, m, p, s, 0, p)
  {
    assert s[..0] == [];
    assert Without(m, s[..0]) == m;
    if p.None? { assert Released(m, s) == m; }
  }

  lemma {:induction false} WalkGoesOn(m0: Mem, m: Mem, p: Link, s: seq<Id>, k: nat, q: Id)
    requires Walking(m0, m, p, s, k, To(q)) && q in m && 0 < m[q].ref
    ensures m[q].ref == 1 ==> Walking(m0, m - {q}, p, s, k + 1, m[q].next)
    ensures m[q].ref > 1 ==> Walking(m0, m[q := m[q].(ref := m[q].ref - 1)], p, s, k, None)
  {
    FreeWalk(m0, p, s, k);
    hide Path;
    if m[q].ref == 1 && k + 1 == |s| { LoneIs(m0, s, k + 1); }
    if m[q].ref > 1 { LoneIs(m0, s, k); }
  }

  lemma {:induction false} WalkEnds(m0: Mem, m: Mem, p: Link, s: seq<Id>, k: nat)
    requires Walking(m0, m, p, s, k, None)
    ensures forall t :: Path(m0, p, t) ==> k == Lone(m0, t) && m == Released(m0, t)
  {
    ThePath(m0, p, s);
  }

  lemma {:induction false} ThePath(m: Mem, p: Link, s: seq<Id>)
    requires Path(m, p, s)
    ensures forall t :: Path(m, p, t) ==> t == s
  {
    forall t | Path(m, p, t) ensures t == s { PathUnique(m, p, s, t); }
  }

  /** Off the chain nothing changes. */
  ghost predicate OffChain(m: Mem, m': Mem, s: seq<Id>) {
    forall x :: x !in s ==> (x in m <==> x in m') && (x in m && x in m' ==> m[x] == m'[x])
  }

  lemma {:induction false} OffSelf(m: Mem, s: seq<Id>)
    ensures OffChain(m, m, s)
  {
  }

  lemma {:induction false} OffOne(m0: Mem, m: Mem, s: seq<Id>, p: Id, b: Pbuf)
    requires OffChain(m0, m, s) && p in s && p in m
    ensures OffChain(m0, m[p := b], s)
  {
  }

  lemma {:induction false} ReleasedOffChain(m: Mem, s: seq<Id>)
    ensures OffChain(m, Released(m, s), s)
  {
    var k := Lone(m, s);
    assert forall x :: x in s[..k] ==> x in s;
  }

  lemma {:induction false} NextCount(n: nat)
    ensures (n % 0x100 + 1) % 0x100 == (n + 1) % 0x100
  {
  }

  lemma {:induction false} HandleLives(m: Mem, handles: multiset<Id>, h: Id)
    requires Inv(m, handles) && h in handles
    ensures h in m && 0 < m[h].ref && HasPath(m, To(h))
  {
    assert CountedAt(m, handles, h);
    assert HasPath(m, To(h));
  }

  lemma {:induction false} ChainOf(m: Mem, handles: multiset<Id>, p: Link) returns (s: seq<Id>)
    requires Inv(m, handles) && (p.To? ==> p.id in m)
    ensures Path(m, p, s)
  {
    s := [];
    if p.To? {
      assert HasPath(m, p);
      s :| Path(m, p, s);
    }
  }

  lemma {:induction false} NextLives(m: Mem, handles: multiset<Id>, p: Id)
    requires Inv(m, handles) && p in m
    ensures m[p].next.To? ==> m[p].next.id in m && 0 < m[m[p].next.id].ref
  {
    assert LinkIn(m, p);
    if m[p].next.To? { assert CountedAt(m, handles, m[p].next.id); }
  }

  // --------------------------------------------------- chains as flat bytes

  ghost function Bytes(m: Mem, s: seq<Id>): seq<byte> {
    if s == [] || s[0] !in m then [] else m[s[0]].payload + Bytes(m, s[1..])
  }

  /** Every tot_len on the chain is the length of the chain from there. */
  ghost predicate Proper(m: Mem, s: seq<Id>) {
    s == [] || (s[0] in m && m[s[0]].tot == |Bytes(m, s)| && Proper(m, s[1..]))
  }

  lemma {:induction false} BytesFrame(m: Mem, m': Mem, s: seq<Id>)
    requires forall x :: x in s ==> x in m && x in m' && m[x].payload == m'[x].payload
    ensures Bytes(m, s) == Bytes(m', s)
  {
    if s != [] { BytesFrame(m, m', s[1..]); }
  }

  lemma {:induction false} ProperFrame(m: Mem, m': Mem, s: seq<Id>)
    requires forall x :: x in s ==> x in m && x in m' && m[x].payload == m'[x].payload && m[x].tot == m'[x].tot
    requires Proper(m, s)
    ensures Proper(m', s)
  {
    if s != [] {
      BytesFrame(m, m', s);
      ProperFrame(m, m', s[1..]);
    }
  }

  lemma {:induction false} BytesConcat(m: Mem, s: seq<Id>, t: seq<Id>)
    requires forall x :: x in s ==> x in m
    ensures Bytes(m, s + t) == Bytes(m, s) + Bytes(m, t)
  {
    if s == [] {
      assert s + t == t;
    } else {
      BytesConcat(m, s[1..], t);
      assert (s + t)[1..] == s[1..] + t;
    }
  }

  /** Chains tied together, with the head's totals raised by the tail's. */
  lemma {:induction false} ProperJoin(m: Mem, m': Mem, s: seq<Id>, t: seq<Id>, d: nat)
    requires forall x :: x in s ==> x in m && x in m' && m[x].payload == m'[x].payload
    requires forall x :: x in s && x in m && x in m' ==> m'[x].tot == (m[x].tot + d) % 0x1_0000
    requires Proper(m, s) && Proper(m', t) && d == |Bytes(m', t)| && |Bytes(m, s)| + d <= 0xffff
    ensures Proper(m', s + t)
  {
    if s == [] {
      assert s + t == t;
    } else {
      assert s[0] in s && m[s[0]].tot == |Bytes(m, s)|;
      assert |Bytes(m, s[1..])| <= |Bytes(m, s)|;
      ProperJoin(m, m', s[1..], t, d);
      assert (s + t)[1..] == s[1..] + t && (s + t)[0] == s[0];
      BytesFrame(m, m', s);
      BytesConcat(m', s, t);
      hide Bytes;
    }
  }

  /** From a pbuf on a path, the path's last pbuf is reached. */
  lemma {:induction false} LastReached(m: Mem, l: Link, s: seq<Id>, x: Id, t: seq<Id>)
    requires Path(m, l, s) && x in s && Path(m, To(x), t)
    ensures s[|s| - 1] in t
  {
    var k :| 0 <= k < |s| && s[k] == x;
    PathFrom(m, l, s, k);
    PathUnique(m, To(x), t, s[k..]);
    assert s[k..][|s| - 1 - k] == s[|s| - 1];
  }

  lemma {:induction false} LastHasNoNext(m: Mem, l: Link, s: seq<Id>, k: nat)
    requires Path(m, l, s) && k < |s|
    ensures s[k] in m && (m[s[k]].next == None <==> k == |s| - 1)
    ensures k < |s| - 1 ==> m[s[k]].next == To(s[k + 1])
  {
    PathFrom(m, l, s, k);
    if k < |s| - 1 { assert s[k + 1..][0] == s[k + 1]; }
  }

  /** The pool with `d` added to the totals of `xs`, in sixteen bits. */
  ghost function Raised(m: Mem, xs: seq<Id>, d: int): Mem {
    map x | x in m :: if x in xs then m[x].(tot := (m[x].tot + d) % 0x1_0000) else m[x]
  }

  lemma {:induction false} RaisedMore(m: Mem, l: Link, s: seq<Id>, k: nat, d: int)
    requires Path(m, l, s) && k < |s|
    ensures s[k] in m && s[k] in Raised(m, s[..k], d) && Raised(m, s[..k], d)[s[k]] == m[s[k]]
    ensures Raised(m, s[..k + 1], d) == Raised(m, s[..k], d)[s[k] := m[s[k]].(tot := (m[s[k]].tot + d) % 0x1_0000)]
  {
    PathIn(m, l, s);
    assert s[k] in s;
    assert s[k] !in s[..k] by {
      forall j | 0 <= j < k ensures s[..k][j] != s[k] { PathDistinct(m, l, s, j, k); }
    }
    assert s[..k + 1] == s[..k] + [s[k]];
  }

  lemma {:induction false} RaisedNone(m: Mem, s: seq<Id>, d: int)
    ensures Raised(m, s[..0], d) == m
  {
  }

  lemma {:induction false} RaisedOther(m: Mem, xs: seq<Id>, d: int, x: Id)
    requires x in m && x !in xs
    ensures x in Raised(m, xs, d) && Raised(m, xs, d)[x] == m[x]
  {
  }

  lemma {:induction false} PathHead(m: Mem, l: Link, s: seq<Id>)
    requires Path(m, l, s) && l.To?
    ensures s != [] && s[0] == l.id && l.id in m
  {
  }

  /** A chain that does not run into the end of `s` starts outside it. */
  lemma {:induction false} NotOnPath(m: Mem, l: Link, s: seq<Id>, t: Id, ts: seq<Id>)
    requires Path(m, l, s) && l.To? && Path(m, To(t), ts) && s[|s| - 1] !in ts
    ensures t in m && forall x :: x in ts ==> x !in s
  {
    forall x | x in ts ensures x !in s {
      if x in s {
        var k :| 0 <= k < |ts| && ts[k] == x;
        PathFrom(m, To(t), ts, k);
        LastReached(m, l, s, x, ts[k..]);
      }
    }
  }

  /** The chain `ts` has been put behind the chain `s` from `l`. */
  ghost predicate Joined(m: Mem, m': Mem, l: Link, s: seq<Id>, ts: seq<Id>) {
    && Path(m', l, s + ts)
    && m'.Keys == m.Keys
    && (forall x :: x in m ==> m'[x].ref == m[x].ref && m'[x].payload == m[x].payload)
    && (forall x :: x in m && x !in s ==> m'[x] == m[x])
    && Bytes(m', s + ts) == Bytes(m, s) + Bytes(m, ts)
    && (Proper(m, s) && Proper(m, ts) ==> (Proper(m', s + ts) <==> |Bytes(m, s)| + |Bytes(m, ts)| <= 0xffff))
  }

  /** Unless the first chain ends on the second, it goes on with it now. */
  ghost predicate Tied(m: Mem, m': Mem, h: Id, t: Id) {
    forall s, ts :: Path(m, To(h), s) && Path(m, To(t), ts) && s[|s| - 1] !in ts ==> Path(m', To(h), s + ts)
  }

  lemma {:induction false} JoinedPath(m: Mem, m': Mem, l: Link, s: seq<Id>, ts: seq<Id>)
    requires Joined(m, m', l, s, ts)
    ensures Path(m', l, s + ts)
  {
  }

  /** pbuf_cat's writes, all together. */
  ghost function Catted(m: Mem, s: seq<Id>, t: Id): Mem
    requires s != [] && s[|s| - 1] in m && t in m
  {
    var m1 := Raised(m, s, m[t].tot);
    var last := s[|s| - 1];
    m1[last := m1[last].(next := To(t))]
  }

  lemma {:induction false} CattedKeeps(m: Mem, handles: multiset<Id>, l: Link, s: seq<Id>, t: Id, ts: seq<Id>)
    requires Inv(m, handles) && Path(m, l, s) && l.To? && Path(m, To(t), ts) && t in handles && s[|s| - 1] !in ts
    ensures t in m && s[|s| - 1] in m
    ensures Inv(Catted(m, s, t), handles - multiset{t}) && Path(Catted(m, s, t), l, s + ts)
  {
    hide Inv, Path;
    PathHead(m, l, s);
    var last := s[|s| - 1];
    NotOnPath(m, l, s, t, ts);
    LastHasNoNext(m, l, s, |s| - 1);
    var m1 := Raised(m, s, m[t].tot);
    ShapeKeeps(m, m1, handles);
    PathFrame(m, m1, l, s);
    PathFrame(m, m1, To(t), ts);
    hide Raised;
    TieKeeps(m1, handles, last, t, ts);
    TiePath(m1, last, t, ts, l, s);
    assert last in s;
  }

  lemma {:induction false} CattedFacts(m: Mem, s: seq<Id>, t: Id)
    requires s != [] && s[|s| - 1] in m && t in m && forall x :: x in s ==> x in m
    ensures var m' := Catted(m, s, t);
      && m'.Keys == m.Keys
      && (forall x :: x in m ==> m'[x].ref == m[x].ref && m'[x].payload == m[x].payload)
      && (forall x :: x in m && x !in s ==> m'[x] == m[x])
      && (forall x :: x in s && x in m && x in m' ==> m'[x].tot == (m[x].tot + m[t].tot) % 0x1_0000)
  {
    assert s[|s| - 1] in s;
  }

  lemma {:induction false} CattedJoins(m: Mem, handles: multiset<Id>, l: Link, s: seq<Id>, t: Id, ts: seq<Id>)
    requires Inv(m, handles) && Path(m, l, s) && l.To? && Path(m, To(t), ts) && t in handles && s[|s| - 1] !in ts
    ensures t in m && s[|s| - 1] in m
    ensures Inv(Catted(m, s, t), handles - multiset{t}) && Joined(m, Catted(m, s, t), l, s, ts)
  {
    hide Inv, Path, Proper, Bytes, Catted, Raised;
    PathHead(m, l, s);
    CattedKeeps(m, handles, l, s, t, ts);
    NotOnPath(m, l, s, t, ts);
    PathIn(m, l, s);
    PathIn(m, To(t), ts);
    CattedFacts(m, s, t);
    PathHead(m, To(t), ts);
    CattedBytes(m, Catted(m, s, t), s, t, ts);
  }

  lemma {:induction false} CattedBytes(m: Mem, m': Mem, s: seq<Id>, t: Id, ts: seq<Id>)
    requires m'.Keys == m.Keys && s != [] && ts != [] && ts[0] == t && t in m
    requires (forall x :: x in s ==> x in m) && (forall x :: x in ts ==> x in m && x !in s)
    requires forall x :: x in m ==> m'[x].payload == m[x].payload
    requires forall x :: x in m && x !in s ==> m'[x] == m[x]
    requires forall x :: x in s && x in m && x in m' ==> m'[x].tot == (m[x].tot + m[t].tot) % 0x1_0000
    ensures Bytes(m', s + ts) == Bytes(m, s) + Bytes(m, ts)
    ensures Proper(m, s) && Proper(m, ts) ==> (Proper(m', s + ts) <==> |Bytes(m, s)| + |Bytes(m, ts)| <= 0xffff)
  {
    hide Proper, Bytes;
    BytesFrame(m, m', s);
    BytesFrame(m, m', ts);
    BytesConcat(m', s, ts);
    if Proper(m, s) && Proper(m, ts) {
      ProperFrame(m, m', ts);
      ProperHead(m, ts);
      if |Bytes(m, s)| + |Bytes(m, ts)| <= 0xffff {
        ProperJoin(m, m', s, ts, m[t].tot);
      } else if Proper(m', s + ts) {
        ProperHead(m', s + ts);
      }
    }
  }

  /** One step of pbuf_cat's walk to the end of the chain `s`. */
  lemma {:induction false} CatStep(m: Mem, l: Link, s: seq<Id>, k: nat, t: Id)
    requires Path(m, l, s) && k < |s| && t in m && t !in s
    ensures var d := m[t].tot; var m1 := Raised(m, s[..k], d);
      && s[k] in m && s[k] in m1 && m1[s[k]] == m[s[k]] && t in m1 && m1[t] == m[t]
      && Raised(m, s[..k + 1], d) == m1[s[k] := m[s[k]].(tot := (m[s[k]].tot + d) % 0x1_0000)]
      && (m[s[k]].next == None <==> k == |s| - 1)
      && (k < |s| - 1 ==> m[s[k]].next == To(s[k + 1]))
  {
    RaisedMore(m, l, s, k, m[t].tot);
    LastHasNoNext(m, l, s, k);
    assert t !in s[..k];
    RaisedOther(m, s[..k], m[t].tot, t);
  }

  lemma {:induction false} CattedIs(m: Mem, l: Link, s: seq<Id>, t: Id)
    requires Path(m, l, s) && l.To? && s != [] && s[|s| - 1] in m && t in m && t !in s
    ensures var m1 := Raised(m, s[..|s| - 1], m[t].tot); var p := s[|s| - 1];
      && p in m1 && t in m1
      && Catted(m, s, t) == m1[p := m1[p].(tot := (m1[p].tot + m1[t].tot) % 0x1_0000, next := To(t))]
  {
    hide Path, Raised;
    CatStep(m, l, s, |s| - 1, t);
    assert s[..|s| - 1 + 1] == s;
  }

  lemma {:induction false} ProperHead(m: Mem, s: seq<Id>)
    requires Proper(m, s) && s != []
    ensures s[0] in m && m[s[0]].tot == |Bytes(m, s)| <= 0xffff
  {
  }

  /** No pbuf is its own successor. */
  lemma {:induction false} NotOwnNext(m: Mem, handles: multiset<Id>, p: Id)
    requires Inv(m, handles) && p in m
    ensures m[p].next != To(p)
  {
    assert HasPath(m, To(p));
    var s :| Path(m, To(p), s);
    if m[p].next == To(p) { PathUnique(m, To(p), s, s[1..]); }
  }

  /** pbuf_dechain's writes, before it frees the tail. */
  lemma {:induction false} DechainKeeps(m: Mem, handles: multiset<Id>, p: Id, pb: Pbuf, qb: Pbuf)
    requires Inv(m, handles) && p in m && m[p].next.To? && m[p].next.id in m && m[p].next.id != p
    requires pb.ref == m[p].ref && pb.next == None
    requires qb.ref == m[m[p].next.id].ref && qb.next == m[m[p].next.id].next
    ensures Inv(m[m[p].next.id := qb][p := pb], handles + multiset{m[p].next.id})
  {
    hide Inv;
    var q := m[p].next.id;
    var m1 := m[q := qb][p := pb.(next := To(q))];
    ShapeKeeps(m, m1, handles);
    CutKeeps(m1, handles, p);
    assert m1[p := m1[p].(next := None)] == m[q := qb][p := pb];
  }

  /** pbuf_dechain's writes: both length fields and the link ... */
  ghost function Parted(m: Mem, p: Id): Mem
    requires p in m && m[p].next.To? && m[p].next.id in m
  {
    var q := m[p].next.id;
    m[q := m[q].(tot := (m[p].tot - |m[p].payload|) % 0x1_0000)]
     [p := m[p].(next := None, tot := |m[p].payload| % 0x1_0000)]
  }

  /** ... and then one reference to the tail `t` given up. */
  ghost function Dechained(m: Mem, p: Id, t: seq<Id>): Mem
    requires p in m
  {
    if m[p].next.To? && m[p].next.id in m then Released(Parted(m, p), t) else m
  }

  lemma {:induction false} PathEmpty(m: Mem, l: Link, s: seq<Id>)
    requires Path(m, l, s)
    ensures s == [] <==> l == None
    ensures l.To? ==> s[0] == l.id && l.id in m
  {
  }

  lemma {:induction false} DechainedIs(m: Mem, handles: multiset<Id>, p: Id, t: seq<Id>)
    requires Inv(m, handles) && p in m && Path(m, m[p].next, t) && t != []
    ensures m[p].next == To(t[0]) && t[0] in m && Path(Parted(m, p), m[p].next, t)
    ensures Lone(Parted(m, p), t) == Lone(m, t)
    ensures t[0] in Released(Parted(m, p), t) <==> Lone(m, t) == 0
  {
    PathEmpty(m, m[p].next, t);
    assert Path(m, To(p), [p] + t) by { assert ([p] + t)[1..] == t; }
    forall j | 0 <= j < |t| ensures t[j] != p { PathDistinct(m, To(p), [p] + t, 0, j + 1); }
    PathIn(m, m[p].next, t);
    PathFrame(m, Parted(m, p), m[p].next, t);
    LoneFrame(m, Parted(m, p), t);
    forall j | 0 < j < |t| ensures t[j] != t[0] { PathDistinct(m, m[p].next, t, 0, j); }
    hide Path;
    ReleasedHead(Parted(m, p), t);
  }

  /** A chain's first pbuf goes with its only reference, and not otherwise. */
  /** With right totals before, both parts have right totals afterwards: the first pbuf by itself, and what is left of
      its tail. */
  lemma {:induction false} DechainedProper(m: Mem, p: Id, t: seq<Id>)
    requires p in m && Path(m, m[p].next, t) && Proper(m, [p] + t)
    ensures var m' := Dechained(m, p, t);
      && p in m' && m'[p].payload == m[p].payload && m'[p].tot == |m[p].payload|
      && Proper(m', t[Lone(m, t)..])
  {
    hide Path, Lone, Released, Proper, Bytes;
    PathEmpty(m, m[p].next, t);
    PathCons(m, p, t);
    TotalsApart(m, p, t);
    if t == [] {
      assert t[Lone(m, t)..] == [];
      NothingProper(m);
    } else {
      forall j | 0 <= j < |t| ensures t[j] != p { PathDistinct(m, To(p), [p] + t, 0, j + 1); }
      PathIn(m, m[p].next, t);
      var m1 := Parted(m, p);
      LoneFrame(m, m1, t);
      ProperFrame(m, m1, t);
      PathFrame(m, m1, m[p].next, t);
      ReleasedProper(m1, m[p].next, t);
      ReleasedOffChain(m1, t);
    }
  }

  lemma {:induction false} TotalsApart(m: Mem, p: Id, t: seq<Id>)
    requires Proper(m, [p] + t)
    ensures p in m && m[p].tot == |m[p].payload| + |Bytes(m, t)| && Proper(m, t) && (t != [] ==> t[0] in m && m[t[0]].tot == |Bytes(m, t)|)
  {
    assert ([p] + t)[1..] == t;
  }

  lemma {:induction false} NothingProper(m: Mem)
    ensures Proper(m, []) && Bytes(m, []) == []
  {
  }

  lemma {:induction false} ReleasedProper(m: Mem, l: Link, t: seq<Id>)
    requires Path(m, l, t) && Proper(m, t)
    ensures Proper(Released(m, t), t[Lone(m, t)..])
  {
    hide Path, Lone, Proper, Bytes;
    var k, m' := Lone(m, t), Released(m, t);
    PathIn(m, l, t);
    forall i, j | 0 <= i < j < |t| ensures t[i] != t[j] { PathDistinct(m, l, t, i, j); }
    forall j | k <= j < |t| ensures t[j] in m' && m'[t[j]].tot == m[t[j]].tot && m'[t[j]].payload == m[t[j]].payload {
      assert t[j] !in t[..k];
    }
    ProperFrom(m, t, k);
    ProperFrame(m, m', t[k..]);
  }

  lemma {:induction false} PathCons(m: Mem, p: Id, t: seq<Id>)
    requires p in m && Path(m, m[p].next, t)
    ensures Path(m, To(p), [p] + t)
  {
    assert ([p] + t)[1..] == t;
  }

  lemma {:induction false} ReleasedHead(m: Mem, s: seq<Id>)
    requires s != [] && s[0] in m && forall j :: 0 < j < |s| ==> s[j] != s[0]
    ensures s[0] in Released(m, s) <==> Lone(m, s) == 0
  {
    var k := Lone(m, s);
    if k > 0 { assert s[..k][0] == s[0]; }
  }

  lemma {:induction false} NoBytes(m: Mem, s: seq<Id>)
    ensures Bytes(m, s[..0]) == []
  {
  }

  lemma {:induction false} BytesUpTo(m: Mem, s: seq<Id>, k: nat)
    requires k < |s| && forall x :: x in s ==> x in m
    ensures s[k] in m && Bytes(m, s[..k + 1]) == Bytes(m, s[..k]) + m[s[k]].payload
    ensures Bytes(m, s) == Bytes(m, s[..k]) + m[s[k]].payload + Bytes(m, s[k + 1..])
  {
    assert s[k] in s;
    assert s[..k + 1] == s[..k] + [s[k]] && s == s[..k + 1] + s[k + 1..];
    BytesConcat(m, s[..k], [s[k]]);
    assert [s[k]][1..] == [];
    assert Bytes(m, [s[k]]) == m[s[k]].payload;
    BytesConcat(m, s[..k + 1], s[k + 1..]);
  }

  lemma {:induction false} ReallocStep(m: Mem, l: Link, s: seq<Id>, k: nat, shrink: u16, newLen: u16, rem: u16)
    requires Path(m, l, s) && k < |s| && newLen <= |Bytes(m, s)| && |Bytes(m, s[..k])| + rem == newLen
    requires s[k] in m && rem > |m[s[k]].payload|
    ensures k + 1 < |s| && m[s[k]].next == To(s[k + 1])
    ensures s[k] in Raised(m, s[..k], 0 - shrink) && Raised(m, s[..k], 0 - shrink)[s[k]] == m[s[k]]
    ensures Raised(m, s[..k + 1], 0 - shrink) == Raised(m, s[..k], 0 - shrink)[s[k] := m[s[k]].(tot := (m[s[k]].tot - shrink) % 0x1_0000)]
    ensures s[k + 1] in m && s[k + 1] in Raised(m, s[..k + 1], 0 - shrink)
    ensures Raised(m, s[..k + 1], 0 - shrink)[s[k + 1]] == m[s[k + 1]]
    ensures |Bytes(m, s[..k + 1])| + (rem - |m[s[k]].payload|) == newLen
  {
    hide Path, Bytes, Raised;
    PathIn(m, l, s);
    BytesUpTo(m, s, k);
    RaisedMore(m, l, s, k, 0 - shrink);
    LastHasNoNext(m, l, s, k);
    assert s[|s|..] == s[|s|..][..0];
    NoBytes(m, s[|s|..]);
    RaisedMore(m, l, s, k + 1, 0 - shrink);
  }

  /** The pbufs of `xs` have kept their data and lost `shrink` in their totals. */
  ghost predicate Lowered(m: Mem, m': Mem, xs: seq<Id>, shrink: nat) {
    forall x :: x in xs ==>
      x in m && x in m' && m'[x].payload == m[x].payload && m'[x].tot == (m[x].tot - shrink) % 0x1_0000
  }

  lemma {:induction false} PrefixProper(m: Mem, m': Mem, s: seq<Id>, k: nat, rem: nat, shrink: nat, newLen: nat)
    requires k < |s| && Lowered(m, m', s[..k], shrink) && forall x :: x in s ==> x in m
    requires s[k] in m && s[k] in m' && rem <= |m[s[k]].payload|
    requires m'[s[k]].payload == m[s[k]].payload[..rem] && m'[s[k]].tot == rem
    requires newLen == |Bytes(m, s[..k])| + rem
    ensures newLen <= |Bytes(m, s)| && Bytes(m', s[..k + 1]) == Bytes(m, s)[..newLen]
    ensures Proper(m, s) && |Bytes(m, s)| - shrink == newLen ==> Proper(m', s[..k + 1])
  {
    hide Lowered, Bytes, Proper;
    assert s[0] in s && s == [s[0]] + s[1..];
    ProperCons(m, s[0], s[1..]);
    if Proper(m, s) { ProperUncons(m, s); }
    var b, c := m[s[0]].payload, Bytes(m, s[1..]);
    if k == 0 {
      assert s[..1] == [s[0]] + [];
      ProperCons(m', s[0], []);
      ProperNone(m', s[..0]);
      ProperNone(m, s[..0]);
    } else {
      PrefixHead(m, m', s, k, shrink);
      assert s[..k] == [s[0]] + s[1..][..k - 1] && s[..k + 1] == [s[0]] + s[1..][..k];
      ProperCons(m, s[0], s[1..][..k - 1]);
      PrefixProper(m, m', s[1..], k - 1, rem, shrink, newLen - |b|);
      assert (b + c)[..newLen] == b + c[..newLen - |b|];
      ProperCons(m', s[0], s[1..][..k]);
      if Proper(m, s) && |Bytes(m, s)| - shrink == newLen { ModSmall(m[s[0]].tot - shrink); }
    }
  }

  lemma {:induction false} ProperNone(m: Mem, s: seq<Id>)
    requires s == []
    ensures Bytes(m, s) == [] && Proper(m, s)
  {
  }

  lemma {:induction false} ProperUncons(m: Mem, s: seq<Id>)
    requires Proper(m, s) && s != []
    ensures s[0] in m && Bytes(m, s) == m[s[0]].payload + Bytes(m, s[1..]) && m[s[0]].tot == |Bytes(m, s)| && Proper(m, s[1..])
  {
  }

  lemma {:induction false} ProperCons(m: Mem, x: Id, t: seq<Id>)
    requires x in m
    ensures Bytes(m, [x] + t) == m[x].payload + Bytes(m, t)
    ensures Proper(m, t) && m[x].tot == |m[x].payload| + |Bytes(m, t)| ==> Proper(m, [x] + t)
  {
    assert ([x] + t)[1..] == t;
  }

  lemma {:induction false} PrefixHead(m: Mem, m': Mem, s: seq<Id>, k: nat, shrink: nat)
    requires 0 < k < |s| && Lowered(m, m', s[..k], shrink)
    ensures Lowered(m, m', s[1..][..k - 1], shrink)
    ensures s[0] in m && s[0] in m' && m'[s[0]].payload == m[s[0]].payload
    ensures m'[s[0]].tot == (m[s[0]].tot - shrink) % 0x1_0000
  {
    assert s[..k] == [s[0]] + s[1..][..k - 1];
    assert s[0] in s[..k];
  }

  lemma {:induction false} ModSmall(x: int)
    requires 0 <= x <= 0xffff
    ensures x % 0x1_0000 == x
  {
  }

  /** What pbuf_realloc has written before it frees the rest of the chain. */
  lemma {:induction false} ReallocKeeps(m: Mem, handles: multiset<Id>, p: Id, s: seq<Id>, k: nat, shrink: u16, rem: u16, qb: Pbuf)
    requires Inv(m, handles) && Path(m, To(p), s) && k < |s| && s[k] in m && rem <= |m[s[k]].payload|
    requires qb == m[s[k]].(payload := m[s[k]].payload[..rem], tot := rem, next := None)
    ensures var m' := Raised(m, s[..k], 0 - shrink)[s[k] := qb]; var newLen := |Bytes(m, s[..k])| + rem;
      && Inv(m', handles + Held(m[s[k]].next)) && Path(m', To(p), s[..k + 1])
      && Path(m', m[s[k]].next, s[k + 1..]) && OffChain(m, m', s)
      && newLen <= |Bytes(m, s)| && Bytes(m', s[..k + 1]) == Bytes(m, s)[..newLen]
      && (Proper(m, s) && |Bytes(m, s)| - shrink == newLen ==> Proper(m', s[..k + 1]))
  {
    hide Inv, Path, Proper, Bytes, OffChain, Raised;
    var q := s[k];
    var m' := Raised(m, s[..k], 0 - shrink)[q := qb];
    ReallocShape(m, handles, p, s, k, shrink, qb);
    ReallocPaths(m, m', p, s, k);
    RaisedOffChain(m, s, k, 0 - shrink, qb);
    PrefixProper(m, m', s, k, rem, shrink, |Bytes(m, s[..k])| + rem);
  }

  lemma {:induction false} ReallocShape(m: Mem, handles: multiset<Id>, p: Id, s: seq<Id>, k: nat, shrink: u16, qb: Pbuf)
    requires Inv(m, handles) && Path(m, To(p), s) && k < |s| && s[k] in m && qb.next == None && qb.ref == m[s[k]].ref
    ensures var m' := Raised(m, s[..k], 0 - shrink)[s[k] := qb];
      && Inv(m', handles + Held(m[s[k]].next)) && Lowered(m, m', s[..k], shrink)
      && (forall x :: x in s ==> x in m && x in m' && (x != s[k] ==> m'[x].next == m[x].next))
  {
    hide Inv, Path;
    var q := s[k];
    var m1 := Raised(m, s[..k], 0 - shrink)[q := qb.(next := m[q].next)];
    PathIn(m, To(p), s);
    RaisedMore(m, To(p), s, k, 0 - shrink);
    ShapeKeeps(m, m1, handles);
    if m[q].next.To? { CutKeeps(m1, handles, q); } else { assert handles + Held(None) == handles; }
    assert m1[q := m1[q].(next := None)] == Raised(m, s[..k], 0 - shrink)[q := qb];
    forall j | 0 <= j < k ensures s[..k][j] != q && s[..k][j] in s { PathDistinct(m, To(p), s, j, k); }
  }

  lemma {:induction false} ReallocPaths(m: Mem, m': Mem, p: Id, s: seq<Id>, k: nat)
    requires Path(m, To(p), s) && k < |s| && s[k] in m && s[k] in m' && m'[s[k]].next == None
    requires forall x :: x in s ==> x in m && x in m' && (x != s[k] ==> m'[x].next == m[x].next)
    ensures Path(m', To(p), s[..k + 1]) && Path(m', m[s[k]].next, s[k + 1..])
  {
    hide Path;
    forall j | 0 <= j < k ensures s[..k][j] != s[k] && s[..k][j] in s { PathDistinct(m, To(p), s, j, k); }
    PathCut(m, m', To(p), s, k);
    var t := s[k + 1..];
    forall j | 0 <= j < |t| ensures t[j] != s[k] && t[j] in s { PathDistinct(m, To(p), s, k, k + 1 + j); }
    PathFrom(m, To(p), s, k);
    PathFrame(m, m', m[s[k]].next, t);
  }

  lemma {:induction false} RaisedOffChain(m: Mem, s: seq<Id>, k: nat, d: int, b: Pbuf)
    requires k < |s|
    ensures OffChain(m, Raised(m, s[..k], d)[s[k] := b], s)
  {
    assert s[k] in s && forall x :: x in s[..k] ==> x in s;
  }

  lemma {:induction false} OffMore(m: Mem, m1: Mem, m': Mem, s: seq<Id>, t: seq<Id>)
    requires OffChain(m, m1, s) && OffChain(m1, m', t) && forall x :: x in t ==> x in s
    ensures OffChain(m, m', s)
  {
  }

  /** A chain with a handle survives what pbuf_free does elsewhere. */
  lemma {:induction false} Survives(m: Mem, m': Mem, handles: multiset<Id>, l: Link, s: seq<Id>)
    requires Path(m, l, s) && Within(m', m) && Inv(m', handles) && (l.To? ==> l.id in m')
    ensures Path(m', l, s) && Bytes(m', s) == Bytes(m, s) && (Proper(m, s) ==> Proper(m', s))
    ensures forall x :: x in s ==> x in m && x in m' && Same(m[x], m'[x])
  {
    PathIn(m, l, s);
    SamePath(m, m', l, s);
    PathFrame(m, m', l, s);
    BytesFrame(m, m', s);
    if Proper(m, s) { ProperFrame(m, m', s); }
  }

  /** The pbufs of `s` are as they were, but for their counts. */
  ghost predicate Intact(m0: Mem, m: Mem, s: seq<Id>) {
    forall x :: x in s ==> x in m0 && x in m && Same(m0[x], m[x])
  }

  /** A handle on `a` has been exchanged for one on `b`. */
  ghost function Passed(handles: multiset<Id>, a: Link, b: Link): multiset<Id> {
    handles - Held(a) + Held(b)
  }

  lemma {:induction false} PassedOn(handles: multiset<Id>, q: Link, p: Id, next: Link)
    ensures p in Passed(handles, q, To(p))
    ensures Passed(Passed(handles, q, To(p)), To(p), next) == Passed(handles, q, next)
  {
  }

  /** The chain `s'` holds what follows the first `size` bytes of `s`. */
  ghost predicate Beheaded(m0: Mem, m: Mem, s: seq<Id>, s': seq<Id>, size: nat) {
    && Bytes(m, s') == (if size < |Bytes(m0, s)| then Bytes(m0, s)[size..] else [])
    && (Proper(m0, s) ==> Proper(m, s'))
  }

  lemma {:induction false} HeadCut(m: Mem, handles: multiset<Id>, p: Id, t: seq<Id>)
    requires Inv(m, handles) && p in handles && p in m && Path(m, To(p), t)
    ensures var m' := m[p := m[p].(next := None)];
      Inv(m', handles + Held(m[p].next)) && Path(m', m[p].next, t[1..]) && p !in t[1..]
  {
    hide Inv;
    var m' := m[p := m[p].(next := None)];
    if m[p].next.To? {
      CutKeeps(m, handles, p);
    } else {
      assert m' == m && handles + Held(None) == handles;
    }
    assert p !in t[1..] by {
      forall j | 0 <= j < |t[1..]| ensures t[1..][j] != p { PathDistinct(m, To(p), t, 0, j + 1); }
    }
    PathFrame(m, m', m[p].next, t[1..]);
  }

  lemma {:induction false} AloneOffChain(m: Mem, m1: Mem, p: Id)
    requires p in m && m1 == m[p := m[p].(next := None)]
    ensures Path(m1, To(p), [p]) && OffChain(m, Released(m1, [p]), [p])
  {
    assert [p][1..] == [];
    ReleasedOffChain(m1, [p]);
  }

  lemma {:induction false} TailIntact(m: Mem, m1: Mem, m': Mem, handles: multiset<Id>, next: Link, t: seq<Id>)
    requires t != [] && t[0] in m && m1 == m[t[0] := m[t[0]].(next := None)] && t[0] !in t[1..]
    requires Path(m1, next, t[1..]) && Within(m', m1) && Inv(m', handles) && (next.To? ==> next.id in handles)
    ensures Path(m', next, t[1..]) && Intact(m, m', t[1..])
  {
    if next.To? { HandleLives(m', handles, next.id); }
    hide Inv;
    Survives(m1, m', handles, next, t[1..]);
    forall x | x in t[1..] ensures x in m && x in m' && Same(m[x], m'[x]) { assert m1[x] == m[x]; }
  }

  lemma {:induction false} IntactTail(m0: Mem, m: Mem, m': Mem, s: seq<Id>, k: nat)
    requires k < |s| && Intact(m0, m, s[k..]) && Intact(m, m', s[k..][1..])
    ensures Intact(m0, m', s[k + 1..]) && s[k..][1..] == s[k + 1..]
  {
    assert s[k..] == [s[k]] + s[k + 1..];
  }

  lemma {:induction false} HeaderStart(m: Mem, handles: multiset<Id>, q: Link, s: seq<Id>)
    requires Inv(m, handles) && (q.To? ==> q.id in handles) && Path(m, q, s)
    ensures s[0..] == s && Path(m, q, s[0..]) && Intact(m, m, s[0..]) && Bytes(m, s[..0]) == []
    ensures handles == Passed(handles, q, q)
  {
    PathIn(m, q, s);
    assert s[0..] == s;
  }

  lemma {:induction false} HeaderStep(m0: Mem, m: Mem, q: Link, p: Id, s: seq<Id>, k: nat)
    requires Path(m0, q, s) && k <= |s| && Path(m, To(p), s[k..]) && Intact(m0, m, s[k..])
    ensures k < |s| && s[k] == p && p in m && s[k..][1..] == s[k + 1..]
    ensures |Bytes(m0, s[..k + 1])| == |Bytes(m0, s[..k])| + |m[p].payload|
  {
    PathIn(m0, q, s);
    PathHead(m, To(p), s[k..]);
    assert s[k] == s[k..][0] && s[k] in s[k..];
    BytesUpTo(m0, s, k);
  }

  lemma {:induction false} ProperFrom(m: Mem, s: seq<Id>, k: nat)
    requires Proper(m, s) && k <= |s|
    ensures Proper(m, s[k..])
  {
    if k == 0 {
      assert s[0..] == s;
    } else {
      ProperFrom(m, s[1..], k - 1);
      assert s[1..][k - 1..] == s[k..];
    }
  }

  lemma {:induction false} BytesFrom(m0: Mem, m: Mem, q: Link, s: seq<Id>, k: nat)
    requires Path(m0, q, s) && k <= |s| && Intact(m0, m, s[k..])
    ensures Bytes(m0, s) == Bytes(m0, s[..k]) + Bytes(m, s[k..])
    ensures Proper(m0, s) ==> Proper(m, s[k..])
  {
    hide Path, Bytes, Proper;
    PathIn(m0, q, s);
    assert s == s[..k] + s[k..];
    BytesConcat(m0, s[..k], s[k..]);
    BytesFrame(m0, m, s[k..]);
    if Proper(m0, s) {
      ProperFrom(m0, s, k);
      ProperFrame(m0, m, s[k..]);
    }
  }

  /** pbuf_remove_header on the first pbuf that is not dropped. */
  lemma {:induction false} RemoveHeader(m0: Mem, m: Mem, handles: multiset<Id>, q: Link, p: Id, s: seq<Id>, k: nat, left: u16)
    requires Inv(m, handles) && Path(m0, q, s) && k < |s| && s[k] == p && Intact(m0, m, s[k..])
    requires Path(m, To(p), s[k..]) && p in m && left < |m[p].payload|
    ensures var m' := m[p := m[p].(payload := m[p].payload[left..], tot := (m[p].tot - left) % 0x1_0000)];
      && Inv(m', handles) && Path(m', To(p), s[k..])
      && Beheaded(m0, m', s, s[k..], |Bytes(m0, s[..k])| + left)
  {
    hide Inv, Path, Intact;
    var m' := m[p := m[p].(payload := m[p].payload[left..], tot := (m[p].tot - left) % 0x1_0000)];
    ShapeKeeps(m, m', handles);
    PathFrame(m, m', To(p), s[k..]);
    BytesFrom(m0, m, q, s, k);
    var t := s[k..];
    HeadOff(m, m', t, p, left) by {
      PathIn(m, To(p), t);
      forall j | 0 <= j < |t[1..]| ensures t[1..][j] != p { PathDistinct(m, To(p), t, 0, j + 1); }
      PathHead(m, To(p), t);
    }
  }

  lemma {:induction false} HeadOff(m: Mem, m': Mem, t: seq<Id>, p: Id, left: u16)
    requires t != [] && t[0] == p && p !in t[1..] && (forall x :: x in t ==> x in m) && p in m && left <= |m[p].payload|
    requires m' == m[p := m[p].(payload := m[p].payload[left..], tot := (m[p].tot - left) % 0x1_0000)]
    ensures left <= |Bytes(m, t)| && |m[p].payload| <= |Bytes(m, t)|
    ensures Bytes(m', t) == Bytes(m, t)[left..]
    ensures Proper(m, t) ==> Proper(m', t)
  {
    BytesFrame(m, m', t[1..]);
    if Proper(m, t) { ProperFrame(m, m', t[1..]); }
  }

  lemma {:induction false} HeaderEnd(m0: Mem, m: Mem, q: Link, r: Link, s: seq<Id>, k: nat, left: u16, size: u16)
    requires Path(m0, q, s) && k <= |s| && Intact(m0, m, s[k..]) && Path(m, r, s[k..])
    requires left + |Bytes(m0, s[..k])| == size && (left == 0 || r == None)
    ensures Beheaded(m0, m, s, s[k..], size)
  {
    BytesFrom(m0, m, q, s, k);
  }

  /** A chain under construction, with `rem` bytes still to be appended. */
  ghost predicate Planned(m: Mem, s: seq<Id>, rem: nat) {
    s == [] || (s[0] in m && m[s[0]].tot == |Bytes(m, s)| + rem && Planned(m, s[1..], rem))
  }

  lemma {:induction false} PlannedDone(m: Mem, s: seq<Id>)
    requires Planned(m, s, 0)
    ensures Proper(m, s)
  {
    if s != [] { PlannedDone(m, s[1..]); }
  }

  lemma {:induction false} PlannedMore(m: Mem, m': Mem, s: seq<Id>, q: Id, rem: nat)
    requires forall x :: x in s ==> x in m && x in m' && m'[x].payload == m[x].payload && m'[x].tot == m[x].tot
    requires Planned(m, s, rem) && q in m' && m'[q].tot == rem && |m'[q].payload| <= rem
    ensures Planned(m', s + [q], rem - |m'[q].payload|)
    ensures Bytes(m', s + [q]) == Bytes(m, s) + m'[q].payload
  {
    if s == [] {
      assert s + [q] == [q] && [q][1..] == [];
    } else {
      PlannedMore(m, m', s[1..], q, rem);
      assert (s + [q])[1..] == s[1..] + [q];
    }
  }

  /** A new pbuf tied to the end of the chain that is being built. */
  ghost function Extended(m: Mem, last: Id, q: Id, b: Pbuf): Mem
    requires last in m
  {
    m[q := b][last := m[last].(next := To(q))]
  }

  lemma {:induction false} ExtendKeeps(m: Mem, handles: multiset<Id>, p: Id, s: seq<Id>, q: Id, b: Pbuf, rem: nat)
    requires Inv(m, handles) && Path(m, To(p), s) && q !in m && b.next == None && b.ref == 1
    requires Planned(m, s, rem) && b.tot == rem && |b.payload| <= rem
    ensures s != [] && s[|s| - 1] in m
    ensures var m' := Extended(m, s[|s| - 1], q, b);
      && Inv(m', handles) && Path(m', To(p), s + [q])
      && Planned(m', s + [q], rem - |b.payload|) && Bytes(m', s + [q]) == Bytes(m, s) + b.payload
  {
    hide Inv, Planned, Bytes;
    PathHead(m, To(p), s);
    LastHasNoNext(m, To(p), s, |s| - 1);
    PathIn(m, To(p), s);
    var last := s[|s| - 1];
    var m1 := m[q := b];
    NewKeeps(m, handles, q, b);
    PathFrame(m, m1, To(p), s);
    assert Path(m1, To(q), [q]);
    TieKeeps(m1, handles + multiset{q}, last, q, [q]);
    assert handles + multiset{q} - multiset{q} == handles;
    TiePath(m1, last, q, [q], To(p), s);
    assert last in s;
    PlannedMore(m, Extended(m, last, q, b), s, q, rem);
  }

  lemma {:induction false} ExtendedIs(m: Mem, last: Id, q: Id, b: Pbuf)
    requires last in m && q !in m
    ensures Extended(m, last, q, b) == m[q := b][last := m[last].(next := To(q))]
    ensures Extended(m, last, q, b).Keys == m.Keys + {q}
  {
  }

  lemma {:induction false} FirstPbuf(m: Mem, q: Id, b: Pbuf, rem: nat)
    requires q !in m && b.next == None && b.tot == rem && |b.payload| <= rem
    ensures var m' := m[q := b];
      Path(m', To(q), [q]) && Planned(m', [q], rem - |b.payload|) && Bytes(m', [q]) == b.payload && Beside(m, m', [q])
  {
    var m', t := m[q := b], [q][1..];
    assert t == [] && Bytes(m', t) == [] && Planned(m', t, rem - |b.payload|);
    assert Bytes(m', [q]) == b.payload + Bytes(m', t);
  }

  /** What pbuf_alloc has built leaves the rest of the pool alone. */
  ghost predicate Beside(m0: Mem, m: Mem, s: seq<Id>) {
    && (forall x :: x in m0 ==> x in m && m[x] == m0[x])
    && (forall x :: x in s ==> x !in m0)
  }

  lemma {:induction false} ExtendBeside(m0: Mem, m: Mem, s: seq<Id>, q: Id, b: Pbuf)
    requires Beside(m0, m, s) && s != [] && s[|s| - 1] in m && q !in m
    ensures Beside(m0, Extended(m, s[|s| - 1], q, b), s + [q])
  {
    assert s[|s| - 1] in s;
  }

  /** Giving back a half-built chain restores the pool. */
  lemma {:induction false} RolledBack(m0: Mem, m: Mem, m': Mem, handles: multiset<Id>, s: seq<Id>)
    requires Inv(m0, handles) && Inv(m', handles) && Beside(m0, m, s) && Within(m', m)
    ensures m' == m0
  {
    hide Inv;
    PoolDetermined(m0, m', handles);
  }

  /** pbuf_alloc's progress: the chain `s` from `p`, with `rem` of `length` to go. */
  /** How many pbufs hold `rem` bytes when the first has `space` and the others `room`. */
  function Needed(rem: nat, space: nat, room: nat): nat
    requires room > 0 && space > 0
  {
    1 + if rem <= space then 0 else Needed(rem - space, room, room)
  }

  ghost predicate Building(m0: Mem, h0: multiset<Id>, m: Mem, handles: multiset<Id>, p: Link, s: seq<Id>, last: Id,
                           rem: nat, length: nat)
  {
    && Inv(m, handles) && handles == h0 + Held(p)
    && match p
       case None => m == m0 && rem == length && s == []
       case To(_) =>
         && Path(m, p, s) && s != [] && last == s[|s| - 1] && last in m
         && Planned(m, s, rem) && |Bytes(m, s)| + rem == length && Beside(m0, m, s)
  }

  lemma {:induction false} BuildStart(m: Mem, handles: multiset<Id>, last: Id, length: nat)
    requires Inv(m, handles)
    ensures Building(m, handles, m, handles, None, [], last, length, length) && handles + Held(None) == handles
  {
    assert handles + Held(None) == handles;
  }

  lemma {:induction false} BuildEnd(m0: Mem, h0: multiset<Id>, m: Mem, handles: multiset<Id>, p: Link, s: seq<Id>, last: Id, length: nat)
    requires p.To? && Building(m0, h0, m, handles, p, s, last, 0, length)
    ensures Inv(m, handles) && handles == h0 + Held(p)
    ensures Path(m, p, s) && Proper(m, s) && |Bytes(m, s)| == length && Beside(m0, m, s)
  {
    PlannedDone(m, s);
  }

  /** One call of a program that uses packet buffers; numbers pick handles it
      holds.  CatOp is pbuf_chain if the program keeps its handle. */
  datatype Op =
    | AllocOp(at: Link, payload: seq<byte>)
    | PoolOp(length: u16, first: u16, room: u16, ids: seq<Id>)
    | RefOp(k: nat)
    | FreeOp(k: nat)
    | CatOp(i: nat, j: nat, keep: bool)
    | DechainOp(k: nat)
    | ReallocOp(k: nat, newLen: u16)
    | HeaderOp(k: nat, size: u16)

  /** Addresses that memory can hand out one after the other. */
  predicate Fresh(m: Mem, ids: seq<Id>) {
    && (forall i :: 0 <= i < |ids| ==> ids[i] !in m)
    && (forall i, j :: 0 <= i < j < |ids| ==> ids[i] != ids[j])
  }

  lemma {:induction false} InHeld(held: seq<Id>, k: nat)
    requires k < |held|
    ensures held[k] in multiset(held)
    ensures multiset(held[..k] + held[k + 1..]) == multiset(held) - multiset{held[k]}
    ensures forall x :: multiset(held[..k] + [x] + held[k + 1..]) == multiset(held) - multiset{held[k]} + multiset{x}
  {
    var a, b := held[..k], held[k + 1..];
    assert held == a + [held[k]] + b;
    assert multiset(a + b) == multiset(a) + multiset(b);
    forall x ensures multiset(a + [x] + b) == multiset(a + b) + multiset{x} { OneMore(a, x, b); }
    OneMore(a, held[k], b);
  }

  lemma {:induction false} OneMore(a: seq<Id>, x: Id, b: seq<Id>)
    ensures multiset(a + [x] + b) == multiset(a + b) + multiset{x}
  {
    assert multiset(a + [x] + b) == multiset(a) + multiset([x]) + multiset(b);
  }

  // ------------------------------------------------------------- the program

  class Pool {
    var mem: Mem
    ghost var handles: multiset<Id>

    ghost predicate Valid()
      reads this
    {
      Inv(mem, handles)
    }

    constructor ()
      ensures Valid() && mem == map[] && handles == multiset{}
    {
      mem, handles := map[], multiset{};
    }

    /** A new pbuf of `payload` at a free address, if there is one */
    method AllocOne(at: Link, payload: seq<byte>, tot: u16) returns (r: Link)
      requires Valid() && (at.To? ==> at.id !in mem)
      modifies this
      ensures Valid() && r == at && handles == old(handles) + Held(at)
      ensures mem == if at.To? then old(mem)[at.id := Pbuf(None, 1, payload, tot)] else old(mem)
    {
      r := at;
      if at.To? {
        NewKeeps(mem, handles, at.id, Pbuf(None, 1, payload, tot));
        mem := mem[at.id := Pbuf(None, 1, payload, tot)];
        handles := handles + multiset{at.id};
      }
    }

    /** pbuf_ref.  `tripped` is the failed assertion on a count that has wrapped
        around to zero. */
    method Ref(p: Link) returns (tripped: bool)
      requires Valid() && (p.To? ==> p.id in mem)
      modifies this
      ensures tripped <==> p.To? && old(mem)[p.id].ref == 0xff
      ensures if tripped then handles == old(handles) else Valid() && handles == old(handles) + Held(p)
      ensures mem == if p.To? then old(mem)[p.id := old(mem)[p.id].(ref := (old(mem)[p.id].ref + 1) % 0x100)] else old(mem)
    {
      hide Inv;
      tripped := false;
      if p.To? {
        if mem[p.id].ref < 0xff { RetainKeeps(mem, handles, p.id); }
        mem := mem[p.id := mem[p.id].(ref := (mem[p.id].ref + 1) % 0x100)];
        tripped := mem[p.id].ref == 0;
        if !tripped { handles := handles + multiset{p.id}; }
      }
    }

    /** pbuf_free.  `count` is eight bits wide; `freed` is the true number. */
    method Free(p: Link) returns (count: byte, ghost freed: nat)
      requires Valid() && (p.To? ==> p.id in handles)
      modifies this
      ensures Valid() && handles == old(handles) - Held(p)
      ensures forall s :: Path(old(mem), p, s) ==> freed == Lone(old(mem), s) && mem == Released(old(mem), s)
      ensures Within(mem, old(mem)) && count == freed % 0x100
    {
      hide Inv, Path, Within, Owing, Same, Walking, Released, Lone;
      count, freed := 0, 0;
      var cur := p;
      FreeStart(mem, handles, p);
      ghost var s := ChainOf(mem, handles, p);
      WalkStarts(mem, p, s);
      handles := handles - Held(p);
      ghost var m, h := mem, handles;
      while cur.To?
        invariant Owing(mem, h, cur) && handles == h && Within(mem, m)
        invariant Walking(m, mem, p, s, freed, cur) && count == freed % 0x100
        decreases |mem| + (if cur.To? then 1 else 0)
      {
        var q := cur.id;
        FreeStep(mem, m, h, q);
        WalkGoesOn(m, mem, p, s, freed, q);
        NextCount(freed);
        var ref := mem[q].ref - 1;
        if ref == 0 {
          cur := mem[q].next;
          mem := mem - {q};
          count, freed := (count + 1) % 0x100, freed + 1;
        } else {
          mem := mem[q := mem[q].(ref := ref)];
          cur := None;
        }
      }
      NothingOwed(mem, h);
      WalkEnds(m, mem, p, s, freed);
    }

    /** pbuf_cat; `s` and `ts` are the chains of h and t */
    method Cat(h: Link, t: Link, ghost s: seq<Id>, ghost ts: seq<Id>)
      requires Valid()
      requires h.To? && t.To? ==> Path(mem, h, s) && Path(mem, t, ts) && t.id in handles && s[|s| - 1] !in ts
      modifies this
      ensures Valid()
      ensures h == None || t == None ==> mem == old(mem) && handles == old(handles)
      ensures h.To? && t.To? ==> handles == old(handles) - Held(t) && Joined(old(mem), mem, h, s, ts)
    {
      hide Inv, Path, Raised, Joined, Catted;
      if h.None? || t.None? { return; }
      ghost var m := mem;
      NotOnPath(m, h, s, t.id, ts);
      PathHead(m, h, s);
      PathHead(m, t, ts);
      CattedJoins(m, handles, h, s, t.id, ts);
      CattedIs(m, h, s, t.id);
      var p := WalkToLast(h.id, t.id, s);
      mem := mem[p := mem[p].(tot := (mem[p].tot + mem[t.id].tot) % 0x1_0000, next := t)];
      handles := handles - multiset{t.id};
    }

    /** pbuf_cat's loop: every pbuf before the last gets t's total */
    method WalkToLast(h: Id, t: Id, ghost s: seq<Id>) returns (p: Id)
      requires Path(mem, To(h), s) && t in mem && t !in s
      modifies this`mem
      ensures s != [] && p == s[|s| - 1] && p in mem && t in mem
      ensures mem == Raised(old(mem), s[..|s| - 1], old(mem)[t].tot)
    {
      hide Path, Raised;
      ghost var m := mem;
      PathHead(m, To(h), s);
      RaisedNone(m, s, m[t].tot);
      CatStep(m, To(h), s, 0, t);
      p := h;
      ghost var k := 0;
      while mem[p].next.To?
        invariant k < |s| && p == s[k] && p in mem && mem == Raised(m, s[..k], m[t].tot)
        invariant t in mem && mem[t].tot == m[t].tot
        invariant p in m && mem[p] == m[p] && (m[p].next == None <==> k == |s| - 1)
        decreases |s| - k
      {
        CatStep(m, To(h), s, k, t);
        CatStep(m, To(h), s, k + 1, t);
        var next := mem[p].next;
        mem := mem[p := mem[p].(tot := (mem[p].tot + mem[t].tot) % 0x1_0000)];
        p := next.id;
        k := k + 1;
      }
    }

    /** pbuf_chain: as pbuf_cat, but the caller keeps its handle on t */
    method Chain(h: Link, t: Link, ghost s: seq<Id>, ghost ts: seq<Id>) returns (tripped: bool)
      requires Valid() && h.To? && t.To?
      requires Path(mem, h, s) && Path(mem, t, ts) && t.id in handles && s[|s| - 1] !in ts
      requires t.id in mem
      modifies this
      ensures tripped <==> old(mem)[t.id].ref == 0xff
      ensures !tripped ==> Valid() && handles == old(handles)
      // but for one count more on t, all is as after pbuf_cat
      ensures t.id in mem && mem[t.id].ref == (old(mem)[t.id].ref + 1) % 0x100
      ensures Joined(old(mem), mem[t.id := mem[t.id].(ref := old(mem)[t.id].ref)], h, s, ts)
      ensures Path(mem, h, s + ts)
    {
      hide Inv, Path, Bytes, Proper;
      Cat(h, t, s, ts);
      ghost var m := mem;
      assert handles + Held(t) == old(handles);
      tripped := Ref(t);
      assert mem[t.id := mem[t.id].(ref := old(mem)[t.id].ref)] == m;
      PathFrame(m, mem, h, s + ts);
    }

    /** pbuf_dechain; `t` is the tail.  NULL is promised for a tail that has been
        deallocated; it is returned all the same exactly when the pbufs that go
        are a multiple of 256. */
    method Dechain(p: Id, ghost t: seq<Id>) returns (r: Link)
      requires Valid() && p in handles && p in mem && Path(mem, mem[p].next, t)
      modifies this
      ensures Valid() && handles == old(handles) && p in mem
      ensures mem == Dechained(old(mem), p, t)
      ensures var k := Lone(old(mem), t);
        && (r == None <==> t == [] || k % 0x100 != 0) && (r.To? ==> r == old(mem)[p].next)
        && (t != [] ==> (t[0] in mem <==> k == 0))
        && (r.To? && r.id !in mem <==> k > 0 && k % 0x100 == 0)
      // right totals stay right: that of the first pbuf, and of what is left of the tail
      ensures old(Proper(mem, [p] + t)) ==> mem[p].tot == |mem[p].payload| && Proper(mem, t[Lone(old(mem), t)..])
    {
      hide Inv, Path, Within, Released, Lone, Proper;
      if Proper(mem, [p] + t) { DechainedProper(mem, p, t); }
      r := None;
      PathEmpty(mem, mem[p].next, t);
      LoneNone(mem, t);
      var q := mem[p].next;
      if q.To? {
        ghost var m := mem;
        DechainedIs(m, handles, p, t);
        NextLives(m, handles, p);
        NotOwnNext(m, handles, p);
        var pb := mem[p].(next := None, tot := |mem[p].payload| % 0x1_0000);
        var qb := mem[q.id].(tot := (mem[p].tot - |mem[p].payload|) % 0x1_0000);
        DechainKeeps(m, handles, p, pb, qb);
        mem := mem[q.id := qb][p := pb];
        handles := handles + multiset{q.id};
        var gone;
        ghost var freed;
        gone, freed := Free(q);
        assert handles == old(handles);
        HandleLives(mem, handles, p);
        r := if gone > 0 then None else q;
      }
    }

    /** pbuf_realloc; `s` is the chain of p before, `s'` after */
    method Realloc(p: Id, newLen: u16, ghost s: seq<Id>) returns (ghost s': seq<Id>)
      requires Valid() && p in handles && p in mem && Path(mem, To(p), s)
      // otherwise the walk runs off the chain, which the source asserts against
      requires newLen < mem[p].tot ==> newLen <= |Bytes(mem, s)|
      modifies this
      ensures Valid() && handles == old(handles)
      ensures Path(mem, To(p), s') && (old(Proper(mem, s)) ==> Proper(mem, s')) && OffChain(old(mem), mem, s)
      ensures newLen >= old(mem)[p].tot ==> mem == old(mem) && s' == s
      ensures newLen < old(mem)[p].tot ==> Bytes(mem, s') == old(Bytes(mem, s))[..newLen]
    {
      hide Inv, Path, Proper, Bytes, Within, Raised, Released, OffChain;
      PathHead(mem, To(p), s);
      s' := s;
      OffSelf(mem, s);
      if newLen >= mem[p].tot { return; }
      if Proper(mem, s) { ProperHead(mem, s); }
      ghost var m := mem;
      var shrink: u16 := mem[p].tot - newLen;
      var q, rem;
      ghost var k;
      q, rem, k := ShrinkWalk(p, newLen, shrink, s);
      s' := s[..k + 1];
      var next := mem[q].next;
      var qb := mem[q].(payload := mem[q].payload[..rem], tot := rem, next := None);
      ReallocKeeps(m, handles, p, s, k, shrink, rem, qb);
      ghost var m1 := mem[q := qb];
      mem := mem[q := qb];
      handles := handles + Held(next);
      var count;
      ghost var freed;
      count, freed := Free(next);
      assert handles == old(handles);
      HandleLives(mem, handles, p);
      Survives(m1, mem, handles, To(p), s');
      ReleasedOffChain(m1, s[k + 1..]);
      OffMore(m, m1, mem, s, s[k + 1..]);
    }

    /** pbuf_realloc's loop, over the pbufs that stay whole */
    method ShrinkWalk(p: Id, newLen: u16, shrink: u16, ghost s: seq<Id>) returns (q: Id, rem: u16, ghost k: nat)
      requires Path(mem, To(p), s) && newLen <= |Bytes(mem, s)|
      modifies this`mem
      ensures k < |s| && q == s[k] && q in old(mem) && q in mem
      ensures mem == Raised(old(mem), s[..k], 0 - shrink) && mem[q] == old(mem)[q]
      ensures |Bytes(old(mem), s[..k])| + rem == newLen && rem <= |old(mem)[q].payload|
    {
      hide Path, Bytes, Raised;
      ghost var m := mem;
      q, rem, k := p, newLen, 0;
      RaisedNone(m, s, 0 - shrink);
      PathHead(m, To(p), s);
      NoBytes(m, s);
      while rem > |mem[q].payload|
        invariant k < |s| && q == s[k] && q in m && q in mem && mem[q] == m[q]
        invariant mem == Raised(m, s[..k], 0 - shrink)
        invariant |Bytes(m, s[..k])| + rem == newLen
        decreases |s| - k
      {
        ReallocStep(m, To(p), s, k, shrink, newLen, rem);
        rem := rem - |mem[q].payload|;
        mem := mem[q := mem[q].(tot := (mem[q].tot - shrink) % 0x1_0000)];
        q := mem[q].next.id;
        k := k + 1;
      }
    }

    /** pbuf_free_header, for a pbuf that goes entirely: its link becomes the
        caller's handle on the next one */
    method DropHead(p: Id, ghost t: seq<Id>) returns (next: Link)
      requires Valid() && p in handles && p in mem && Path(mem, To(p), t)
      modifies this
      ensures Valid() && next == old(mem)[p].next && handles == Passed(old(handles), To(p), next)
      ensures t != [] && Path(mem, next, t[1..]) && Intact(old(mem), mem, t[1..]) && OffChain(old(mem), mem, [p])
    {
      hide Inv, Path, Within, Intact, Released, OffChain;
      PathHead(mem, To(p), t);
      next := mem[p].next;
      ghost var m := mem;
      HeadCut(m, handles, p, t);
      mem := mem[p := mem[p].(next := None)];
      handles := handles + Held(next);
      ghost var m1 := mem;
      var count;
      ghost var freed;
      count, freed := Free(To(p));
      assert handles == Passed(old(handles), To(p), next);
      TailIntact(m, m1, mem, handles, next, t);
      AloneOffChain(m, m1, p);
    }

    /** pbuf_free_header; `s` is the chain of q before, `s'` that of the result */
    method FreeHeader(q: Link, size: u16, ghost s: seq<Id>) returns (r: Link, ghost s': seq<Id>)
      requires Valid() && (q.To? ==> q.id in handles) && Path(mem, q, s)
      modifies this
      ensures Valid() && handles == Passed(old(handles), q, r)
      ensures Path(mem, r, s') && Beheaded(old(mem), mem, s, s', size) && OffChain(old(mem), mem, s)
    {
      hide Inv, Path, Proper, Bytes, Within, Intact, Passed, Beheaded, OffChain;
      OffSelf(mem, s);
      ghost var m0, k: nat := mem, 0;
      r := q;
      var left: u16 := size;
      HeaderStart(mem, handles, q, s);
      while left > 0 && r.To?
        invariant Inv(mem, handles) && handles == Passed(old(handles), q, r)
        invariant k <= |s| && Path(mem, r, s[k..]) && Intact(m0, mem, s[k..])
        invariant left + |Bytes(m0, s[..k])| == size && OffChain(m0, mem, s)
        decreases |s| - k
      {
        var p := r.id;
        HeaderStep(m0, mem, q, p, s, k);
        if left >= |mem[p].payload| {
          left := left - |mem[p].payload|;
          ghost var m := mem;
          PassedOn(old(handles), q, p, mem[p].next);
          r := DropHead(p, s[k..]);
          IntactTail(m0, m, mem, s, k);
          assert s[k] in s;
          OffMore(m0, m, mem, s, [p]);
          k := k + 1;
        } else {
          RemoveHeader(m0, mem, handles, q, p, s, k, left);
          assert s[k] in s;
          OffOne(m0, mem, s, p, mem[p].(payload := mem[p].payload[left..], tot := (mem[p].tot - left) % 0x1_0000));
          mem := mem[p := mem[p].(payload := mem[p].payload[left..], tot := (mem[p].tot - left) % 0x1_0000)];
          s' := s[k..];
          return;
        }
      }
      s' := s[k..];
      HeaderEnd(m0, mem, q, r, s, k, left, size);
    }

    /**
     * pbuf_alloc(PBUF_POOL).  The n-th memp_malloc returns supply(n); a pbuf has
     * room for `first` bytes behind the headers, or for `room` in the chain's rest.
     */
    method AllocPool(length: u16, first: u16, room: u16, supply: nat -> Link) returns (p: Link, ghost s: seq<Id>)
      requires Valid() && 0 < first && 0 < room
      requires forall n :: supply(n).To? ==> supply(n).id !in mem
      requires forall m, n :: m != n && supply(m).To? ==> supply(m) != supply(n)
      modifies this
      ensures Valid() && handles == old(handles) + Held(p)
      ensures p == None ==> mem == old(mem)
      // NULL exactly when memory runs out before there are as many as are needed
      ensures p.To? <==> forall n: nat :: n < Needed(length, first, room) ==> supply(n).To?
      ensures p.To? ==> |s| == Needed(length, first, room) && forall n :: 0 <= n < |s| ==> supply(n) == To(s[n])
      ensures p.To? ==> Path(mem, p, s) && Proper(mem, s) && |Bytes(mem, s)| == length && Beside(old(mem), mem, s)
    {
      hide Inv, Path, Proper, Bytes, Within, Beside, Building;
      p, s := None, [];
      var rem: u16, space: u16, n: nat := length, first, 0;
      var last: Id := 0;
      BuildStart(mem, handles, last, length);
      while p.None? || rem > 0
        invariant Building(old(mem), old(handles), mem, handles, p, s, last, rem, length)
        invariant 0 < space && (forall k :: k >= n && supply(k).To? ==> supply(k).id !in mem)
        invariant n == |s| && (forall k :: 0 <= k < n ==> supply(k) == To(s[k]))
        invariant n + (if p.None? || rem > 0 then Needed(rem, space, room) else 0) == Needed(length, first, room)
        decreases p.None?, rem
      {
        var q := supply(n);
        if q.None? {
          GiveUp(p, old(mem), old(handles), s, last, rem, length);
          p := None;
          return;
        }
        var qlen: u16 := if rem < space then rem else space;
        p := Append(p, last, q.id, seq(qlen, _ => 0), rem, old(mem), old(handles), s, length);
        s, last := s + [q.id], q.id;
        rem, space, n := rem - qlen, room, n + 1;
      }
      BuildEnd(old(mem), old(handles), mem, handles, p, s, last, length);
    }

    /** Another pbuf at the end of the chain that pbuf_alloc is building */
    method Append(p: Link, last: Id, q: Id, payload: seq<byte>, rem: u16,
                  ghost m0: Mem, ghost h0: multiset<Id>, ghost s: seq<Id>, ghost length: nat) returns (r: Link)
      requires Building(m0, h0, mem, handles, p, s, last, rem, length) && q !in mem && |payload| <= rem
      modifies this
      ensures r.To? && Building(m0, h0, mem, handles, r, s + [q], q, rem - |payload|, length)
      ensures mem.Keys == old(mem).Keys + {q}
    {
      hide Inv, Path, Bytes, Planned, Beside, Extended;
      var b := Pbuf(None, 1, payload, rem);
      if p.None? {
        FirstPbuf(mem, q, b, rem);
        assert handles + Held(To(q)) == h0 + Held(To(q));
        assert s + [q] == [q];
        r := AllocOne(To(q), payload, rem);
      } else {
        ExtendKeeps(mem, handles, p.id, s, q, b, rem);
        ExtendBeside(m0, mem, s, q, b);
        ExtendedIs(mem, last, q, b);
        mem := mem[q := b][last := mem[last].(next := To(q))];
        r := p;
      }
    }

    /** pbuf_alloc on an empty pool: what has been built is freed */
    method GiveUp(p: Link, ghost m0: Mem, ghost h0: multiset<Id>, ghost s: seq<Id>, ghost last: Id,
                  ghost rem: nat, ghost length: nat)
      requires Inv(m0, h0) && Building(m0, h0, mem, handles, p, s, last, rem, length)
      modifies this
      ensures mem == m0 && handles == h0
    {
      hide Inv, Path, Bytes, Planned, Beside, Within;
      ghost var m := mem;
      if p.To? {
        var count;
        ghost var freed;
        count, freed := Free(p);
        assert handles == h0;
        RolledBack(m0, m, mem, handles, s);
      } else {
        assert handles == h0;
      }
    }

    /** The last pbuf of a chain */
    method LastOf(h: Id) returns (last: Id)
      requires Valid() && h in mem
      ensures forall s :: Path(mem, To(h), s) ==> s != [] && last == s[|s| - 1]
    {
      hide Inv, Path;
      ghost var s := ChainOf(mem, handles, To(h));
      ThePath(mem, To(h), s);
      PathHead(mem, To(h), s);
      last := h;
      ghost var k := 0;
      LastHasNoNext(mem, To(h), s, 0);
      while mem[last].next.To?
        invariant k < |s| && last == s[k] && last in mem && (mem[last].next == None <==> k == |s| - 1)
        decreases |s| - k
      {
        LastHasNoNext(mem, To(h), s, k);
        LastHasNoNext(mem, To(h), s, k + 1);
        last := mem[last].next.id;
        k := k + 1;
      }
    }

    /** Whether x is on the chain of t */
    method OnChain(t: Id, x: Id) returns (b: bool)
      requires Valid() && t in mem
      ensures forall s :: Path(mem, To(t), s) ==> (b <==> x in s)
    {
      hide Inv, Path;
      ghost var s := ChainOf(mem, handles, To(t));
      ThePath(mem, To(t), s);
      PathHead(mem, To(t), s);
      var cur := To(t);
      ghost var k := 0;
      while cur.To? && cur.id != x
        invariant k <= |s| && (cur.To? ==> k < |s| && cur.id == s[k]) && (cur == None ==> k == |s|)
        invariant forall j :: 0 <= j < k ==> s[j] != x
        decreases |s| - k
      {
        LastHasNoNext(mem, To(t), s, k);
        cur := mem[cur.id].next;
        k := k + 1;
      }
      b := cur.To?;
    }

    /** The number of bytes on a chain */
    method ChainLength(p: Id) returns (n: nat)
      requires Valid() && p in mem
      ensures forall s :: Path(mem, To(p), s) ==> n == |Bytes(mem, s)|
    {
      hide Inv, Path, Bytes;
      ghost var s := ChainOf(mem, handles, To(p));
      ThePath(mem, To(p), s);
      PathHead(mem, To(p), s);
      PathIn(mem, To(p), s);
      NoBytes(mem, s);
      var cur := To(p);
      n := 0;
      ghost var k := 0;
      while cur.To?
        invariant k <= |s| && (cur.To? ==> k < |s| && cur.id == s[k]) && (cur == None ==> k == |s|)
        invariant n == |Bytes(mem, s[..k])|
        decreases |s| - k
      {
        LastHasNoNext(mem, To(p), s, k);
        BytesUpTo(mem, s, k);
        n := n + |mem[cur.id].payload|;
        cur := mem[cur.id].next;
        k := k + 1;
      }
      assert s[..k] == s;
    }

    /**
     * Any program of allocations, references, concatenations, cuts and frees on
     * the handles it holds, up to a count that overflows.  `held` are the handles
     * it has at the end.
     */
    method Run(ops: seq<Op>, start: seq<Id>) returns (held: seq<Id>, halted: bool, done: nat)
      requires Valid() && multiset(start) == handles
      modifies this
      ensures done <= |ops| && (halted ==> done > 0) && (!halted ==> done == |ops|)
      ensures !halted ==> Valid() && multiset(held) == handles
      ensures !halted ==> forall x :: x in mem ==> Reached(mem, handles, x)
    {
      hide Inv, Reached;
      held, halted, done := start, false, 0;
      while done < |ops|
        invariant done <= |ops| && Valid() && multiset(held) == handles && !halted
      {
        held, halted := Apply(ops[done], held);
        done := done + 1;
        if halted { return; }
      }
      forall x | x in mem ensures Reached(mem, handles, x) {
        ghost var s := ChainOf(mem, handles, To(x));
        NothingLeaks(mem, handles, x, s);
      }
    }

    /** One call; it is made only as its callers may make it: a chain is not tied
        to itself. */
    method Apply(op: Op, held: seq<Id>) returns (held': seq<Id>, halted: bool)
      requires Valid() && multiset(held) == handles
      modifies this
      ensures !halted ==> Valid() && multiset(held') == handles
      ensures halted ==> exists x :: x in old(mem) && old(mem)[x].ref == 0xff
      // the handles the program has afterwards
      ensures op.AllocOp? && |op.payload| <= 0xffff && op.at.To? && op.at.id !in old(mem) ==> held' == held + [op.at.id]
      ensures op.RefOp? && op.k < |held| && !halted ==> held' == held + [held[op.k]]
      ensures op.FreeOp? && op.k < |held| ==> held' == held[..op.k] + held[op.k + 1..]
      ensures op.CatOp? && op.i < |held| && op.j < |held| && op.i != op.j ==>
        Tied(old(mem), mem, held[op.i], held[op.j]) && (!halted ==> held' == held || held' == held[..op.j] + held[op.j + 1..])
    {
      hide Inv, Tied;
      held', halted := held, false;
      match op {
        case AllocOp(at, payload) =>
          if |payload| <= 0xffff && (at.To? ==> at.id !in mem) {
            var r := AllocOne(at, payload, |payload|);
            held' := if r.To? then held + [r.id] else held;
          }
        case PoolOp(length, first, room, ids) =>
          if 0 < first && 0 < room && Fresh(mem, ids) { held' := ApplyPool(length, first, room, ids, held); }
        case RefOp(k) =>
          if k < |held| { held', halted := ApplyRef(held, k); }
        case FreeOp(k) =>
          if k < |held| { held' := FreeHeld(held, k); }
        case CatOp(i, j, keep) =>
          if i < |held| && j < |held| && i != j { held', halted := ApplyCat(held, i, j, keep); }
        case DechainOp(k) =>
          if k < |held| { ApplyDechain(held, k); }
        case ReallocOp(k, newLen) =>
          if k < |held| { ApplyRealloc(held, k, newLen); }
        case HeaderOp(k, size) =>
          if k < |held| { held' := ApplyHeader(held, k, size); }
      }
    }

    method ApplyPool(length: u16, first: u16, room: u16, ids: seq<Id>, held: seq<Id>) returns (held': seq<Id>)
      requires Valid() && multiset(held) == handles && 0 < first && 0 < room && Fresh(mem, ids)
      modifies this
      ensures Valid() && multiset(held') == handles
    {
      hide Inv, Path, Proper, Bytes, Beside;
      var r;
      ghost var s;
      r, s := AllocPool(length, first, room, (n: nat) => if n < |ids| then To(ids[n]) else None);
      held' := if r.To? then held + [r.id] else held;
    }

    method ApplyRef(held: seq<Id>, k: nat) returns (held': seq<Id>, halted: bool)
      requires Valid() && multiset(held) == handles && k < |held|
      modifies this
      ensures !halted ==> Valid() && multiset(held') == handles
      ensures halted ==> exists x :: x in old(mem) && old(mem)[x].ref == 0xff
      ensures !halted ==> held' == held + [held[k]]
    {
      hide Inv;
      held' := held;
      InHeld(held, k);
      HandleLives(mem, handles, held[k]);
      halted := Ref(To(held[k]));
      held' := if halted then held else held + [held[k]];
    }

    method FreeHeld(held: seq<Id>, k: nat) returns (held': seq<Id>)
      requires Valid() && multiset(held) == handles && k < |held|
      modifies this
      ensures Valid() && multiset(held') == handles && held' == held[..k] + held[k + 1..]
    {
      hide Inv, Path, Released, Lone, Within;
      InHeld(held, k);
      var count;
      ghost var freed;
      count, freed := Free(To(held[k]));
      held' := held[..k] + held[k + 1..];
    }

    method ApplyCat(held: seq<Id>, i: nat, j: nat, keep: bool) returns (held': seq<Id>, halted: bool)
      requires Valid() && multiset(held) == handles && i < |held| && j < |held| && i != j
      modifies this
      ensures !halted ==> Valid() && multiset(held') == handles
      ensures halted ==> exists x :: x in old(mem) && old(mem)[x].ref == 0xff
      ensures Tied(old(mem), mem, held[i], held[j]) && (!halted ==> held' == held || held' == held[..j] + held[j + 1..])
    {
      hide Inv, Path, Joined, Proper, Bytes;
      held', halted := held, false;
      var h, t := held[i], held[j];
      InHeld(held, i);
      InHeld(held, j);
      HandleLives(mem, handles, h);
      HandleLives(mem, handles, t);
      ghost var s := ChainOf(mem, handles, To(h));
      ghost var ts := ChainOf(mem, handles, To(t));
      PathHead(mem, To(h), s);
      ThePath(mem, To(h), s);
      ThePath(mem, To(t), ts);
      ghost var m := mem;
      var last := LastOf(h);
      var meets := OnChain(t, last);
      if !meets && keep {
        halted := Chain(To(h), To(t), s, ts);
      } else if !meets {
        Cat(To(h), To(t), s, ts);
        JoinedPath(m, mem, To(h), s, ts);
        held' := held[..j] + held[j + 1..];
      }
    }

    method ApplyDechain(held: seq<Id>, k: nat)
      requires Valid() && multiset(held) == handles && k < |held|
      modifies this
      ensures Valid() && multiset(held) == handles
    {
      hide Inv, Path, Dechained, Lone;
      InHeld(held, k);
      HandleLives(mem, handles, held[k]);
      NextLives(mem, handles, held[k]);
      ghost var t := ChainOf(mem, handles, mem[held[k]].next);
      var r := Dechain(held[k], t);
    }

    method ApplyRealloc(held: seq<Id>, k: nat, newLen: u16)
      requires Valid() && multiset(held) == handles && k < |held|
      modifies this
      ensures Valid() && multiset(held) == handles
    {
      hide Inv, Path, Proper, Bytes, OffChain;
      InHeld(held, k);
      HandleLives(mem, handles, held[k]);
      ghost var s := ChainOf(mem, handles, To(held[k]));
      var n := ChainLength(held[k]);
      if newLen <= n || newLen >= mem[held[k]].tot { ghost var s' := Realloc(held[k], newLen, s); }
    }

    method ApplyHeader(held: seq<Id>, k: nat, size: u16) returns (held': seq<Id>)
      requires Valid() && multiset(held) == handles && k < |held|
      modifies this
      ensures Valid() && multiset(held') == handles
    {
      hide Inv, Path, Proper, Bytes, OffChain, Beheaded;
      InHeld(held, k);
      HandleLives(mem, handles, held[k]);
      ghost var s := ChainOf(mem, handles, To(held[k]));
      var r;
      ghost var s';
      r, s' := FreeHeader(To(held[k]), size, s);
      held' := held[..k] + (if r.To? then [r.id] else []) + held[k + 1..];
    }

    /** When every handle is given back, nothing is left */
    method ReleaseAll(held: seq<Id>)
      requires Valid() && multiset(held) == handles
      modifies this
      ensures Valid() && handles == multiset{} && mem == map[]
    {
      hide Inv;
      var rest := held;
      while rest != []
        invariant Valid() && multiset(rest) == handles
        decreases |rest|
      {
        rest := FreeHeld(rest, 0);
      }
      AllReleased(mem);
    }
  }

  // ------------------------------------------ where the eight-bit count wraps

  function Ids(n: nat): (r: set<Id>)
    ensures |r| == n && forall i: nat :: i in r <==> i < n
  {
    if n == 0 then {} else Ids(n - 1) + {n - 1}
  }

  /** A chain of n empty pbufs. */
  function Straight(n: nat): Mem {
    map i | i in Ids(n) :: Pbuf(if i + 1 < n then To(i + 1) else None, 1, [], 0)
  }

  lemma {:induction false} StraightPath(n: nat, i: nat) returns (s: seq<Id>)
    requires i <= n
    ensures Path(Straight(n), if i < n then To(i) else None, s) && Lone(Straight(n), s) == |s| == n - i
    decreases n - i
  {
    s := [];
    if i < n {
      s := StraightPath(n, i + 1);
      assert ([i] + s)[1..] == s;
      s := [i] + s;
    }
  }

  lemma {:induction false} StraightInv(n: nat)
    requires 0 < n
    ensures Inv(Straight(n), multiset{0})
  {
    var m := Straight(n);
    forall id | id in m ensures CountedAt(m, multiset{0}, id) {
      assert Preds(m, id) == if id == 0 then {} else {id - 1};
    }
    forall id | id in m ensures HasPath(m, To(id)) {
      var s := StraightPath(n, id);
    }
  }

  /** A tail of 256 pbufs that is deallocated and returned. */
  method DechainLongTail() returns (r: Link, gone: bool)
    ensures r == To(1) && gone
  {
    hide Inv, Straight, Dechained;
    var pool := new Pool();
    StraightInv(257);
    StraightHead(257);
    ghost var t := StraightPath(257, 1);
    pool.mem, pool.handles := Straight(257), multiset{0};
    r := pool.Dechain(0, t);
    gone := 1 !in pool.mem;
  }

  lemma {:induction false} StraightHead(n: nat)
    requires 1 < n
    ensures 0 in Straight(n) && Straight(n)[0].next == To(1)
  {
  }
}
