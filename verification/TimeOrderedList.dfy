/** The time-ordered list of the payload event queue: a singly linked list that ends in a sentinel,
    and a free list of recycled elements. */
module TimeOrderedList {

  /** A transaction pointer with its protocol phase. */
  datatype Payload = Payload(trans: nat, phase: nat)

  datatype Entry = Entry(p: Payload, t: nat)

  ghost predicate Sorted(s: seq<Entry>) {
    forall i, j :: 0 <= i < j < |s| ==> s[i].t <= s[j].t
  }

  /** Insertion behind every entry that is not later. */
  function StableInsert(s: seq<Entry>, e: Entry): (r: seq<Entry>)
    ensures |r| == |s| + 1
  {
    if s == [] || s[0].t > e.t then [e] + s else [s[0]] + StableInsert(s[1..], e)
  }

  lemma SortedTail(s: seq<Entry>)
    requires Sorted(s) && s != []
    ensures Sorted(s[1..])
  {
  }

  /** The payloads that carry time t, in list order. */
  function At(s: seq<Entry>, t: nat): seq<Payload> {
    if s == [] then [] else (if s[0].t == t then [s[0].p] else []) + At(s[1..], t)
  }

  /** s with e at position k. */
  function Spliced<T>(s: seq<T>, e: T, k: nat): (r: seq<T>)
    requires k <= |s|
    ensures |r| == |s| + 1
    ensures forall i :: 0 <= i <= |s| ==> r[i] == if i < k then s[i] else if i == k then e else s[i - 1]
  {
    s[..k] + [e] + s[k..]
  }

  lemma {:induction false} StableInsertAt(s: seq<Entry>, e: Entry, k: nat)
    requires k <= |s|
    requires forall i :: 0 <= i < k ==> s[i].t <= e.t
    requires k < |s| ==> s[k].t > e.t
    ensures StableInsert(s, e) == Spliced(s, e, k)
  {
    if k == 0 {
      assert Spliced(s, e, k) == [e] + s;
    } else {
      StableInsertAt(s[1..], e, k - 1);
      assert [s[0]] + Spliced(s[1..], e, k - 1) == Spliced(s, e, k);
    }
  }

  /** Where StableInsert puts e. */
  function Slot(s: seq<Entry>, e: Entry): (k: nat)
    ensures k <= |s|
    ensures forall i :: 0 <= i < k ==> s[i].t <= e.t
    ensures k < |s| ==> s[k].t > e.t
  {
    if s == [] || s[0].t > e.t then 0 else 1 + Slot(s[1..], e)
  }

  lemma StableInsertSorted(s: seq<Entry>, e: Entry)
    requires Sorted(s)
    ensures Sorted(StableInsert(s, e))
  {
    StableInsertAt(s, e, Slot(s, e));
    SplicedSorted(s, e, Slot(s, e));
  }

  lemma SplicedSorted(s: seq<Entry>, e: Entry, k: nat)
    requires Sorted(s) && k <= |s|
    requires forall i :: 0 <= i < k ==> s[i].t <= e.t
    requires k < |s| ==> s[k].t > e.t
    ensures Sorted(Spliced(s, e, k))
  {
    var r := Spliced(s, e, k);
    forall i, j | 0 <= i < j < |r|
      ensures r[i].t <= r[j].t
    {
      assert r[i] == if i < k then s[i] else if i == k then e else s[i - 1];
      assert r[j] == if j < k then s[j] else if j == k then e else s[j - 1];
    }
  }

  lemma {:induction false} AtAppend(a: seq<Entry>, b: seq<Entry>, t: nat)
    ensures At(a + b, t) == At(a, t) + At(b, t)
  {
    if a == [] {
      assert a + b == b;
    } else {
      AtAppend(a[1..], b, t);
      assert (a + b)[1..] == a[1..] + b;
      var head := if a[0].t == t then [a[0].p] else [];
      assert head + (At(a[1..], t) + At(b, t)) == (head + At(a[1..], t)) + At(b, t);
    }
  }

  lemma {:induction false} AtLate(s: seq<Entry>, t: nat)
    requires forall i :: 0 <= i < |s| ==> s[i].t > t
    ensures At(s, t) == []
  {
    if s == [] {
    } else {
      AtLate(s[1..], t);
    }
  }

  /** Stability: an insertion goes to the back of its own time and disturbs no other. */
  lemma {:induction false} StableInsertFifo(s: seq<Entry>, e: Entry, t: nat)
    requires Sorted(s)
    ensures At(StableInsert(s, e), t) == At(s, t) + if e.t == t then [e.p] else []
  {
    if s == [] {
    } else if s[0].t > e.t {
      AtCons(e, s, t);
      if e.t == t {
        AtLate(s, t);
      }
    } else {
      SortedTail(s);
      StableInsertFifo(s[1..], e, t);
      AtCons(s[0], StableInsert(s[1..], e), t);
    }
  }

  lemma AtCons(e: Entry, s: seq<Entry>, t: nat)
    ensures At([e] + s, t) == (if e.t == t then [e.p] else []) + At(s, t)
  {
    assert ([e] + s)[1..] == s;
  }

  // ------------------------------------------------------------------ the list

  /** Elements live in a store indexed by address; address 0 is the null pointer. */
  type Ptr = nat

  const NULL: Ptr := 0

  datatype Element = Element(next: Ptr, x: Entry, d: nat)

  type Store = map<Ptr, Element>

  /** Node i of a chain, or what the chain ends in. */
  function NodeAt(s: seq<Ptr>, i: nat, end: Ptr): Ptr {
    if i < |s| then s[i] else end
  }

  ghost predicate Linked(h: Store, s: seq<Ptr>, end: Ptr) {
    && (forall i :: 0 <= i < |s| ==> s[i] in h)
    && forall i {:trigger h[s[i]]} :: 0 <= i < |s| ==> h[s[i]].next == NodeAt(s, i + 1, end)
  }

  ghost predicate Holds(h: Store, s: seq<Ptr>, c: seq<Entry>)
    requires forall i :: 0 <= i < |s| ==> s[i] in h
  {
    |c| == |s| && forall i :: 0 <= i < |s| ==> h[s[i]].x == c[i]
  }

  ghost predicate Distinct(s: seq<Ptr>) {
    forall i, j :: 0 <= i < j < |s| ==> s[i] != s[j]
  }

  ghost predicate Disjoint(s: seq<Ptr>, r: seq<Ptr>) {
    forall i, j :: 0 <= i < |s| && 0 <= j < |r| ==> s[i] != r[j]
  }

  /** The list proper: acyclic, ending in the sentinel and holding exactly c. */
  ghost predicate ListShape(h: Store, s: seq<Ptr>, c: seq<Entry>, nill: Ptr) {
    Linked(h, s, nill) && Holds(h, s, c) && Distinct(s + [nill])
  }

  /** The free list: acyclic and ending in null. */
  ghost predicate FreeShape(h: Store, f: seq<Ptr>) {
    Linked(h, f, NULL) && Distinct(f + [NULL])
  }

  /** Nothing is lost: every allocated element is the sentinel or in one of the two chains. */
  ghost predicate Covered(h: Store, s: seq<Ptr>, f: seq<Ptr>, nill: Ptr) {
    nill in h && forall e :: e in h ==> e in s || e in f || e == nill
  }

  /** The whole invariant of the two chains. */
  ghost predicate Shape(h: Store, s: seq<Ptr>, f: seq<Ptr>, c: seq<Entry>, nill: Ptr) {
    && ListShape(h, s, c, nill) && FreeShape(h, f)
    && Disjoint(s + [nill], f + [NULL]) && Covered(h, s, f, nill)
  }

  /** What a splice in front of position k writes. */
  function SplicedStore(h: Store, s: seq<Ptr>, nill: Ptr, e: Ptr, x: Entry, d: nat, k: nat): Store
    requires k <= |s| && forall i :: 0 <= i < |s| ==> s[i] in h
  {
    var h1 := h[e := Element(NodeAt(s, k, nill), x, d)];
    if k == 0 then h1 else h1[s[k - 1] := h[s[k - 1]].(next := e)]
  }

  /** The link of old element i after the splice. */
  lemma SpliceLinkAt(h: Store, s: seq<Ptr>, nill: Ptr, e: Ptr, x: Entry, d: nat, k: nat, i: nat)
    requires Linked(h, s, nill) && Distinct(s) && k <= |s| && i < |s| && s[i] != e
    ensures SplicedStore(h, s, nill, e, x, d, k)[s[i]].next == if i == k - 1 then e else NodeAt(s, i + 1, nill)
  {
    assert h[s[i]].next == NodeAt(s, i + 1, nill);
  }

  lemma SpliceLinks(h: Store, s: seq<Ptr>, nill: Ptr, e: Ptr, x: Entry, d: nat, k: nat)
    requires Linked(h, s, nill) && Distinct(s) && k <= |s|
    requires forall i :: 0 <= i < |s| ==> s[i] != e
    ensures Linked(SplicedStore(h, s, nill, e, x, d, k), Spliced(s, e, k), nill)
  {
    var h' := SplicedStore(h, s, nill, e, x, d, k);
    var r := Spliced(s, e, k);
    assert h'[e].next == NodeAt(s, k, nill);
    forall i | 0 <= i < |s|
      ensures s[i] in h' && h'[s[i]].next == if i == k - 1 then e else NodeAt(s, i + 1, nill)
    {
      SpliceLinkAt(h, s, nill, e, x, d, k, i);
    }
    SplicedLinked(h', s, nill, e, k);
  }

  lemma SplicedLinked(h': Store, s: seq<Ptr>, nill: Ptr, e: Ptr, k: nat)
    requires k <= |s| && e in h' && h'[e].next == NodeAt(s, k, nill)
    requires forall i :: 0 <= i < |s| ==> s[i] in h'
    requires forall i {:trigger h'[s[i]]} :: 0 <= i < |s| ==>
      h'[s[i]].next == if i == k - 1 then e else NodeAt(s, i + 1, nill)
    ensures Linked(h', Spliced(s, e, k), nill)
  {
    var r := Spliced(s, e, k);
    forall i {:trigger h'[r[i]]} | 0 <= i < |r|
      ensures h'[r[i]].next == NodeAt(r, i + 1, nill)
    {
      if i < k {
        assert h'[s[i]].next == if i == k - 1 then e else NodeAt(s, i + 1, nill);
      } else if i > k {
        assert h'[s[i - 1]].next == NodeAt(s, i, nill);
      }
    }
  }

  lemma SpliceHolds(h: Store, s: seq<Ptr>, c: seq<Entry>, nill: Ptr, e: Ptr, x: Entry, d: nat, k: nat)
    requires (forall i :: 0 <= i < |s| ==> s[i] in h) && Holds(h, s, c) && k <= |s|
    requires forall i :: 0 <= i < |s| ==> s[i] != e
    ensures forall i :: 0 <= i <= |s| ==> Spliced(s, e, k)[i] in SplicedStore(h, s, nill, e, x, d, k)
    ensures Holds(SplicedStore(h, s, nill, e, x, d, k), Spliced(s, e, k), Spliced(c, x, k))
  {
  }

  /** Rewriting elements outside the free list, and dropping its first one. */
  lemma PopFree(h: Store, h': Store, f: seq<Ptr>)
    requires FreeShape(h, f) && f != []
    requires forall i :: 1 <= i < |f| ==> f[i] in h' && h'[f[i]] == h[f[i]]
    ensures FreeShape(h', f[1..])
    ensures f[0] in h && h[f[0]].next == NodeAt(f[1..], 0, NULL)
  {
    var g := f[1..];
    assert h[f[0]].next == NodeAt(f, 1, NULL);
    assert g + [NULL] == (f + [NULL])[1..];
    forall i {:trigger h'[g[i]]} | 0 <= i < |g|
      ensures h'[g[i]].next == NodeAt(g, i + 1, NULL)
    {
      assert h[f[i + 1]].next == NodeAt(f, i + 2, NULL);
    }
  }

  lemma SpliceApart(s: seq<Ptr>, f: seq<Ptr>, nill: Ptr, k: nat)
    requires Distinct(s + [nill]) && Distinct(f + [NULL]) && Disjoint(s + [nill], f + [NULL])
    requires k <= |s| && f != []
    ensures Distinct(s) && forall i :: 1 <= i < |f| ==> f[i] != f[0]
    ensures forall i, j :: 0 <= i < |s| && 0 <= j < |f| ==> s[i] != f[j]
    ensures Distinct(Spliced(s, f[0], k) + [nill])
    ensures Disjoint(Spliced(s, f[0], k) + [nill], f[1..] + [NULL])
  {
    var a, b := s + [nill], f + [NULL];
    assert forall i :: 0 <= i < |s| ==> a[i] == s[i];
    assert forall i :: 0 <= i < |f| ==> b[i] == f[i];
    assert a[|s|] == nill;
    var r := Spliced(s, f[0], k) + [nill];
    assert forall i :: 0 <= i < |r| ==> r[i] == if i < k then a[i] else if i == k then b[0] else a[i - 1];
    assert f[1..] + [NULL] == b[1..];
  }

  lemma SpliceCovers(h: Store, s: seq<Ptr>, f: seq<Ptr>, nill: Ptr, x: Entry, d: nat, k: nat)
    requires Linked(h, s, nill) && Covered(h, s, f, nill)
    requires k <= |s| && f != []
    ensures Covered(SplicedStore(h, s, nill, f[0], x, d, k), Spliced(s, f[0], k), f[1..], nill)
  {
    var r := Spliced(s, f[0], k);
    forall e | e in SplicedStore(h, s, nill, f[0], x, d, k)
      ensures e in r || e in f[1..] || e == nill
    {
      assert r[k] == f[0];
      if e != f[0] {
        assert e in h;
        if e in s {
          var i :| 0 <= i < |s| && s[i] == e;
          assert r[if i < k then i else i + 1] == e;
        } else if e in f {
          var j :| 0 <= j < |f| && f[j] == e;
          assert f[1..][j - 1] == e;
        }
      }
    }
  }

  /** Everything a splice of the first free element keeps. */
  lemma SpliceShape(h: Store, s: seq<Ptr>, f: seq<Ptr>, c: seq<Entry>, nill: Ptr, x: Entry, d: nat, k: nat)
    requires Shape(h, s, f, c, nill) && k <= |s| && f != []
    ensures f[0] in h && h[f[0]].next == NodeAt(f[1..], 0, NULL)
    ensures Shape(SplicedStore(h, s, nill, f[0], x, d, k), Spliced(s, f[0], k), f[1..], Spliced(c, x, k), nill)
  {
    hide Holds, Distinct, Disjoint, Covered;
    SpliceApart(s, f, nill, k);
    SpliceLinks(h, s, nill, f[0], x, d, k);
    SpliceHolds(h, s, c, nill, f[0], x, d, k);
    PopFree(h, SplicedStore(h, s, nill, f[0], x, d, k), f);
    SpliceCovers(h, s, f, nill, x, d, k);
  }

  lemma PopList(h: Store, s: seq<Ptr>, c: seq<Entry>, nill: Ptr, h': Store)
    requires ListShape(h, s, c, nill) && s != []
    requires forall i :: 1 <= i < |s| ==> s[i] in h' && h'[s[i]] == h[s[i]]
    ensures ListShape(h', s[1..], c[1..], nill)
    ensures s[0] in h && h[s[0]].next == NodeAt(s[1..], 0, nill)
  {
    var r := s[1..];
    assert h[s[0]].next == NodeAt(s, 1, nill);
    assert r + [nill] == (s + [nill])[1..];
    forall i {:trigger h'[r[i]]} | 0 <= i < |r|
      ensures h'[r[i]].next == NodeAt(r, i + 1, nill)
    {
      assert h[s[i + 1]].next == NodeAt(s, i + 2, nill);
    }
  }

  lemma PushFree(h: Store, h': Store, f: seq<Ptr>, e: Ptr)
    requires FreeShape(h, f) && e != NULL && forall i :: 0 <= i < |f| ==> f[i] != e
    requires e in h' && h'[e].next == NodeAt(f, 0, NULL)
    requires forall i :: 0 <= i < |f| ==> f[i] in h' && h'[f[i]] == h[f[i]]
    ensures FreeShape(h', [e] + f)
  {
    var g := [e] + f;
    assert g + [NULL] == [e] + (f + [NULL]);
    forall i {:trigger h'[g[i]]} | 0 <= i < |g|
      ensures h'[g[i]].next == NodeAt(g, i + 1, NULL)
    {
      if i > 0 {
        assert h[f[i - 1]].next == NodeAt(f, i, NULL);
      }
    }
  }

  lemma PopApart(s: seq<Ptr>, f: seq<Ptr>, nill: Ptr)
    requires Distinct(s + [nill]) && Disjoint(s + [nill], f + [NULL]) && s != []
    ensures s[0] != NULL && s[0] != nill
    ensures forall i :: 1 <= i < |s| ==> s[i] != s[0]
    ensures forall j :: 0 <= j < |f| ==> f[j] != s[0]
    ensures Disjoint(s[1..] + [nill], [s[0]] + f + [NULL])
  {
    var a, b := s + [nill], f + [NULL];
    assert forall i :: 0 <= i < |s| ==> a[i] == s[i];
    assert forall i :: 0 <= i < |f| ==> b[i] == f[i];
    assert a[|s|] == nill && b[|f|] == NULL;
    assert s[1..] + [nill] == a[1..];
    assert [s[0]] + f + [NULL] == [a[0]] + b;
  }

  /** Everything that moving the first element to the free list keeps. */
  lemma PopShape(h: Store, s: seq<Ptr>, f: seq<Ptr>, c: seq<Entry>, nill: Ptr)
    requires Shape(h, s, f, c, nill) && s != []
    ensures s[0] in h && h[s[0]].next == NodeAt(s[1..], 0, nill)
    ensures Shape(h[s[0] := h[s[0]].(next := NodeAt(f, 0, NULL))], s[1..], [s[0]] + f, c[1..], nill)
  {
    PopApart(s, f, nill);
    var h' := h[s[0] := h[s[0]].(next := NodeAt(f, 0, NULL))];
    PopList(h, s, c, nill, h');
    PushFree(h, h', f, s[0]);
    assert s == [s[0]] + s[1..];
  }

  /** A new element in an empty free list. */
  lemma GrowShape(h: Store, s: seq<Ptr>, c: seq<Entry>, nill: Ptr, e: Ptr, x: Element)
    requires Shape(h, s, [], c, nill) && e !in h && e != NULL && x.next == NULL
    ensures Shape(h[e := x], s, [e], c, nill)
  {
    hide ListShape, FreeShape, Disjoint, Covered;
    GrowList(h, s, c, nill, e, x);
    GrowFree(h, e, x);
    CoveredSentinel(h, s, [], nill);
    GrowApart(h, s, c, nill, e);
    GrowCovers(h, s, nill, e, x);
  }

  lemma GrowList(h: Store, s: seq<Ptr>, c: seq<Entry>, nill: Ptr, e: Ptr, x: Element)
    requires ListShape(h, s, c, nill) && e !in h
    ensures ListShape(h[e := x], s, c, nill)
  {
    var h' := h[e := x];
    forall i {:trigger h'[s[i]]} | 0 <= i < |s|
      ensures h'[s[i]].next == NodeAt(s, i + 1, nill)
    {
      assert h[s[i]].next == NodeAt(s, i + 1, nill);
    }
  }

  lemma GrowFree(h: Store, e: Ptr, x: Element)
    requires e != NULL && x.next == NULL
    ensures FreeShape(h[e := x], [e])
  {
    assert [e] + [NULL] == [e, NULL];
  }

  lemma GrowApart(h: Store, s: seq<Ptr>, c: seq<Entry>, nill: Ptr, e: Ptr)
    requires ListShape(h, s, c, nill) && nill in h && e !in h && Disjoint(s + [nill], [] + [NULL])
    ensures Disjoint(s + [nill], [e] + [NULL])
  {
    var a, none := s + [nill], [] + [NULL];
    assert none[0] == NULL;
    forall i, j | 0 <= i < |a| && 0 <= j < |[e] + [NULL]| ensures a[i] != ([e] + [NULL])[j] {
      assert a[i] == if i < |s| then s[i] else nill;
      assert a[i] in h && a[i] != none[0];
    }
  }

  lemma GrowCovers(h: Store, s: seq<Ptr>, nill: Ptr, e: Ptr, x: Element)
    requires Covered(h, s, [], nill)
    ensures Covered(h[e := x], s, [e], nill)
  {
    assert [e][0] == e;
  }

  lemma CoveredSentinel(h: Store, s: seq<Ptr>, f: seq<Ptr>, nill: Ptr)
    requires Covered(h, s, f, nill)
    ensures nill in h
  {
  }

  /** Addresses from limit on have not been handed out. */
  ghost predicate Below(used: set<Ptr>, limit: Ptr) {
    forall e :: e in used ==> e < limit
  }

  class List {
    var mem: Store
    var brk: Ptr
    var nill: Ptr
    var empties: Ptr
    var list: Ptr
    var size: nat
    /** The elements in use and the elements in the free list, in link order. */
    ghost var spine: seq<Ptr>
    ghost var free: seq<Ptr>
    ghost var Contents: seq<Entry>

    ghost predicate Valid()
      reads this
    {
      && brk != NULL && Below(mem.Keys, brk)
      && size == |spine| == |Contents|
      && list == NodeAt(spine, 0, nill)
      && empties == NodeAt(free, 0, NULL)
      && Shape(mem, spine, free, Contents, nill)
      && Sorted(Contents)
    }

    constructor ()
      ensures Valid()
      ensures Contents == [] && free == []
    {
      mem := map[1 := Element(NULL, Entry(Payload(0, 0), 0), 0)];
      brk := 2;
      nill := 1;
      empties := NULL;
      list := 1;
      size := 0;
      spine, free, Contents := [], [], [];
    }

    /** Puts a new element in an empty free list. */
    method Grow()
      requires Valid() && empties == NULL
      modifies this
      ensures Valid() && free == [old(brk)] && empties == old(brk)
      ensures mem.Keys == old(mem.Keys) + {old(brk)} && Contents == old(Contents)
    {
      hide Shape, Sorted;
      ChainFacts(mem, spine, free, Contents, nill, 0);
      var e := Element(NULL, Entry(Payload(0, 0), 0), 0);
      GrowShape(mem, spine, Contents, nill, brk, e);
      mem := mem[brk := e];
      empties := brk;
      free := [brk];
      brk := brk + 1;
    }

    /** The last element that is not later than t, the element after it, and the latter's position. */
    method Search(t: nat) returns (ancestor: Ptr, current: Ptr, ghost k: nat)
      requires Valid()
      ensures k <= |spine|
      ensures current == NodeAt(spine, k, nill)
      ensures ancestor == if k == 0 then nill else spine[k - 1]
      ensures forall i :: 0 <= i < k ==> Contents[i].t <= t
      ensures k < |spine| ==> Contents[k].t > t
    {
      hide Shape, Sorted;
      ancestor := nill;
      current := list;
      k := 0;
      ChainFacts(mem, spine, free, Contents, nill, k);
      while current != nill && mem[current].x.t <= t
        invariant k <= |spine|
        invariant current == NodeAt(spine, k, nill)
        invariant ancestor == if k == 0 then nill else spine[k - 1]
        invariant forall i :: 0 <= i < k ==> Contents[i].t <= t
        decreases |spine| - k
      {
        ChainFacts(mem, spine, free, Contents, nill, k);
        ancestor := current;
        current := mem[current].next;
        k := k + 1;
      }
      ChainFacts(mem, spine, free, Contents, nill, k);
    }

    /** Inserts behind every entry that is not later, in a recycled element when there is one. */
    method Insert(p: Payload, t: nat, delta: nat)
      requires Valid()
      modifies this
      ensures Valid()
      ensures Contents == StableInsert(old(Contents), Entry(p, t))
      ensures old(free) != [] ==> mem.Keys == old(mem.Keys) && free == old(free)[1..]
      ensures old(free) == [] ==> mem.Keys == old(mem.Keys) + {old(brk)} && free == []
    {
      if empties == NULL {
        ChainFacts(mem, spine, free, Contents, nill, 0);
        Grow();
      }
      var ancestor, current, k := Search(t);
      LinkBefore(p, t, delta, ancestor, current, k);
    }

    /** Takes the first free element and links it in front of position k. */
    method LinkBefore(p: Payload, t: nat, delta: nat, ancestor: Ptr, current: Ptr, ghost k: nat)
      requires Valid() && empties != NULL && k <= |spine|
      requires current == NodeAt(spine, k, nill)
      requires ancestor == if k == 0 then nill else spine[k - 1]
      requires forall i :: 0 <= i < k ==> Contents[i].t <= t
      requires k < |spine| ==> Contents[k].t > t
      modifies this
      ensures Valid() && mem.Keys == old(mem.Keys) && brk == old(brk)
      ensures Contents == StableInsert(old(Contents), Entry(p, t)) && free == old(free)[1..]
    {
      hide Shape, Sorted, StableInsert, Below;
      var x := Entry(p, t);
      ghost var f1 := free[1..];
      ghost var m, s1, c1 := LinkFacts(mem, spine, free, Contents, nill, x, delta, k);
      assert empties == free[0] && (k > 0 ==> ancestor == spine[k - 1]) && (k == 0 ==> ancestor == nill);
      var e := empties;
      empties := mem[empties].next;
      if ancestor == nill {
        mem := mem[e := Element(list, x, delta)];
        list := e;
        assert mem == m && list == NodeAt(s1, 0, nill);
      } else {
        mem := mem[e := Element(current, x, delta)];
        mem := mem[ancestor := mem[ancestor].(next := e)];
        assert mem == m && list == NodeAt(s1, 0, nill);
      }
      size := size + 1;
      spine, free, Contents := s1, f1, c1;
    }

    /** Unlinks the first element and recycles it; an empty list is left alone. */
    method DeleteTop()
      requires Valid()
      modifies this
      ensures Valid() && mem.Keys == old(mem.Keys)
      ensures Contents == if old(Contents) == [] then [] else old(Contents)[1..]
      ensures old(Contents) != [] ==> free == [old(spine)[0]] + old(free)
    {
      hide Shape, Sorted;
      ChainFacts(mem, spine, free, Contents, nill, 0);
      if list != nill {
        PopShape(mem, spine, free, Contents, nill);
        SortedTail(Contents);
        var e := list;
        list := mem[list].next;
        mem := mem[e := mem[e].(next := empties)];
        empties := e;
        size := size - 1;
        spine, free, Contents := spine[1..], [e] + free, Contents[1..];
      }
    }

    /** Recycles every element. */
    method Reset()
      requires Valid()
      modifies this
      ensures Valid() && mem.Keys == old(mem.Keys)
      ensures Contents == []
      ensures |free| == old(|free| + |Contents|)
    {
      while size > 0
        invariant Valid() && mem.Keys == old(mem.Keys)
        invariant |free| + |Contents| == old(|free| + |Contents|)
        decreases |Contents|
      {
        DeleteTop();
      }
    }

    method GetSize() returns (n: nat)
      requires Valid()
      ensures n == |Contents|
    {
      n := size;
    }

    method Top() returns (p: Payload)
      requires Valid() && Contents != []
      ensures p == Contents[0].p
    {
      p := mem[list].x.p;
    }

    /** On an empty list this reads the sentinel, whose time means nothing. */
    method TopTime() returns (t: nat)
      requires Valid()
      ensures Contents != [] ==> t == Contents[0].t
    {
      assert nill in mem;
      t := mem[list].x.t;
    }
  }

  /** What linking the first free element in front of position k leads to. */
  lemma LinkFacts(h: Store, s: seq<Ptr>, f: seq<Ptr>, c: seq<Entry>, nill: Ptr, x: Entry, d: nat, k: nat)
    returns (h': Store, s': seq<Ptr>, c': seq<Entry>)
    requires Shape(h, s, f, c, nill) && Sorted(c) && k <= |s| == |c| && f != []
    requires forall i :: 0 <= i < k ==> c[i].t <= x.t
    requires k < |s| ==> c[k].t > x.t
    ensures f[0] in h && h[f[0]].next == NodeAt(f[1..], 0, NULL)
    ensures k > 0 ==> s[k - 1] in h && s[k - 1] != f[0] && s[k - 1] != nill
    ensures Shape(h', s', f[1..], c', nill) && Sorted(c') && c' == StableInsert(c, x)
    ensures |s'| == |c'| == |s| + 1 && h'.Keys == h.Keys
    ensures NodeAt(s', 0, nill) == (if k == 0 then f[0] else NodeAt(s, 0, nill))
    ensures h' == if k == 0 then h[f[0] := Element(NodeAt(s, 0, nill), x, d)]
                  else h[f[0] := Element(NodeAt(s, k, nill), x, d)][s[k - 1] := h[s[k - 1]].(next := f[0])]
  {
    h', s', c' := SplicedStore(h, s, nill, f[0], x, d, k), Spliced(s, f[0], k), Spliced(c, x, k);
    StableInsertAt(c, x, k);
    SplicedSorted(c, x, k);
    SpliceShape(h, s, f, c, nill, x, d, k);
    ChainFacts(h, s, f, c, nill, k);
    hide Shape, Sorted, StableInsert;
    assert h'.Keys == h.Keys;
  }

  lemma ChainFacts(h: Store, s: seq<Ptr>, f: seq<Ptr>, c: seq<Entry>, nill: Ptr, k: nat)
    requires Shape(h, s, f, c, nill) && k <= |s|
    ensures nill in h && |c| == |s|
    ensures forall i :: 0 <= i < |s| ==> s[i] in h && s[i] != nill
    ensures f != [] ==> f[0] in h && f[0] != NULL && forall i :: 0 <= i < |s| ==> s[i] != f[0]
    ensures k < |s| ==> h[s[k]].x == c[k] && h[s[k]].next == NodeAt(s, k + 1, nill)
  {
    var a, b := s + [nill], f + [NULL];
    assert a[|s|] == nill && b[|f|] == NULL;
    assert forall i :: 0 <= i < |s| ==> a[i] == s[i];
    assert forall i :: 0 <= i < |f| ==> b[i] == f[i];
  }
}
