/** Netbufs, lwip-1.3.1/src/api/netbuf.c:55-233, with pbuf_free and pbuf_cat, lwip-1.3.1/src/core/pbuf.c:498-636. */
module Netbufs {
  import opened Bytes
  import opened NetbufBooks
  import opened Pbufs

  const ERR_OK := 0
  const ERR_MEM := -1
  const ERR_BUF := -2
  const ERR_ARG := -10

  // ----- Chains with reference counts and total lengths -----

  function Join(a: View, b: View): View {
    View(a.chain + b.chain, a.lens + b.lens, a.tots + b.tots, a.mem + b.mem)
  }

  predicate Shape(v: View) {
    && |v.chain| == |v.lens| == |v.tots| == |v.mem|
    && forall i :: 0 <= i < |v.lens| ==> v.lens[i] <= v.mem[i].Length && v.lens[i] < 0x1_0000
  }

  ghost predicate SegmentLaid(q: Pbuf, len: nat, tot: nat, mem: array<byte>)
    reads q
  {
    q.ref == 1 && q.len == len && q.totLen == tot && q.payload == mem
  }

  ghost predicate Laid(p: Pbuf?, v: View)
    reads v.chain
  {
    && Shape(v) && IsChain(p, v.chain)
    && forall i {:trigger v.chain[i]} :: 0 <= i < |v.chain| ==> SegmentLaid(v.chain[i], v.lens[i], v.tots[i], v.mem[i])
  }

  /** The lengths from segment i on, added up. */
  function Rest(lens: seq<nat>, i: nat): nat
    decreases |lens| - i
  {
    if i >= |lens| then 0 else lens[i] + Rest(lens, i + 1)
  }

  /** Sixteen-bit totals that count from each segment to the end of the chain. */
  predicate TotalsRight(lens: seq<nat>, tots: seq<nat>) {
    |tots| == |lens| && forall i :: 0 <= i < |lens| ==> tots[i] == U16(Rest(lens, i))
  }

  /** The data of a chain, segment by segment. */
  ghost function Segments(v: View): (r: seq<seq<byte>>)
    requires Shape(v)
    reads v.mem
    ensures |r| == |v.mem|
  {
    seq(|v.mem|, i requires 0 <= i < |v.mem| && Shape(v) reads v.mem => v.mem[i][..v.lens[i]])
  }

  /** How many pbufs at the head of a chain have no other reference. */
  ghost function Unshared(chain: seq<Pbuf>): (n: nat)
    reads chain
    ensures n <= |chain| && (n < |chain| ==> chain[n].ref != 1)
    ensures forall i :: 0 <= i < n ==> chain[i].ref == 1
  {
    if chain == [] || chain[0].ref != 1 then 0 else 1 + Unshared(chain[1..])
  }

  lemma U16Is(x: nat, q: nat, r: nat)
    requires x == 0x1_0000 * q + r && r < 0x1_0000
    ensures U16(x) == r
  {
  }

  lemma U16Sum(x: nat, y: nat)
    ensures U16(U16(x) + U16(y)) == U16(x + y)
  {
    var a, b, r := x / 0x1_0000, y / 0x1_0000, x % 0x1_0000 + y % 0x1_0000;
    assert x + y == 0x1_0000 * (a + b) + r;
    if r < 0x1_0000 {
      U16Is(r, 0, r);
      U16Is(x + y, a + b, r);
    } else {
      U16Is(r, 1, r - 0x1_0000);
      U16Is(x + y, a + b + 1, r - 0x1_0000);
    }
  }

  lemma {:induction false} RestAppend(a: seq<nat>, b: seq<nat>, i: nat)
    requires i <= |a| + |b|
    ensures Rest(a + b, i) == if i <= |a| then Rest(a, i) + Rest(b, 0) else Rest(b, i - |a|)
    decreases |a| + |b| - i
  {
    if i < |a| + |b| {
      RestAppend(a, b, i + 1);
    }
  }

  /** The totals when the first k have been raised by x. */
  predicate Raised(tots: seq<nat>, raised: seq<nat>, x: nat, k: nat) {
    && |raised| == |tots|
    && forall i :: 0 <= i < |tots| ==> raised[i] == if i < k then U16(tots[i] + x) else tots[i]
  }

  lemma RaisedPlain(tots: seq<nat>, raised: seq<nat>, x: nat)
    requires Raised(tots, raised, x, |tots|)
    ensures forall i :: 0 <= i < |tots| ==> raised[i] == (tots[i] + x) % 0x1_0000
  {
  }

  /** What pbuf_cat adds to the totals of the head is what makes the joined totals right. */
  lemma JoinedTotals(lens: seq<nat>, tots: seq<nat>, raised: seq<nat>, lens': seq<nat>, tots': seq<nat>)
    requires TotalsRight(lens, tots) && TotalsRight(lens', tots') && lens' != []
    requires Raised(tots, raised, tots'[0], |tots|)
    ensures TotalsRight(lens + lens', raised + tots')
  {
    forall i | 0 <= i < |lens| + |lens'| ensures (raised + tots')[i] == U16(Rest(lens + lens', i)) {
      RestAppend(lens, lens', i);
      if i < |lens| {
        U16Sum(Rest(lens, i), Rest(lens', 0));
      } else {
        RestAppend(lens, lens', |lens|);
      }
    }
  }

  // ----- pbuf_cat -----

  method RaiseOne(p: Pbuf, x: nat, ghost h: Pbuf, ghost v: View, ghost was: seq<nat>, ghost k: nat)
    returns (ghost raised: seq<nat>)
    requires Raised(v.tots, was, x, k) && Laid(h, v.(tots := was)) && k < |v.chain| && p == v.chain[k]
    modifies p`totLen
    ensures Raised(v.tots, raised, x, k + 1) && Laid(h, v.(tots := raised))
  {
    p.totLen := U16(p.totLen + x);
    raised := was[k := p.totLen];
  }

  /** The walk to the last pbuf of the head, adding to every total length on the way. */
  method RaiseTotals(h: Pbuf, t: Pbuf, ghost v: View) returns (last: Pbuf, ghost raised: seq<nat>)
    requires Laid(h, v) && t !in v.chain
    modifies v.chain
    ensures last == v.chain[|v.chain| - 1]
    ensures Raised(v.tots, raised, t.totLen, |v.chain|) && Laid(h, v.(tots := raised))
  {
    ghost var k;
    last, k, raised := RaiseFront(h, t, v);
    raised := RaiseOne(last, t.totLen, h, v, raised, k);
  }

  method RaiseFront(h: Pbuf, t: Pbuf, ghost v: View) returns (last: Pbuf, ghost k: nat, ghost raised: seq<nat>)
    requires Laid(h, v) && t !in v.chain
    modifies v.chain
    ensures k == |v.chain| - 1 && last == v.chain[k]
    ensures Raised(v.tots, raised, t.totLen, k) && Laid(h, v.(tots := raised))
    ensures t.totLen == old(t.totLen)
  {
    last, k, raised := h, 0, v.tots;
    while last.next != null
      invariant k < |v.chain| && last == v.chain[k]
      invariant Raised(v.tots, raised, t.totLen, k) && Laid(h, v.(tots := raised))
      decreases |v.chain| - k
    {
      raised := RaiseOne(last, t.totLen, h, v, raised, k);
      last := last.next;
      k := k + 1;
    }
  }

  lemma JoinedIsChain(h: Pbuf, t: Pbuf?, a: seq<Pbuf>, b: seq<Pbuf>)
    requires a != [] && h == a[0] && NoRepeats(a) && IsChain(t, b)
    requires forall q :: q in a ==> q !in b
    requires forall i {:trigger a[i].next} :: 0 <= i < |a| ==> a[i].next == if i + 1 < |a| then a[i + 1] else t
    ensures IsChain(h, a + b)
  {
    var c := a + b;
    forall i, j | 0 <= i < j < |c| ensures c[i] != c[j] {
      if i < |a| <= j {
        assert c[i] in a && c[j] in b;
      }
    }
    forall i | 0 <= i < |c| ensures c[i].next == if i + 1 < |c| then c[i + 1] else null {
      if i >= |a| {
        assert c[i].next == b[i - |a|].next;
      } else {
        assert c[i].next == a[i].next;
      }
    }
  }

  method Link(h: Pbuf, last: Pbuf, t: Pbuf, ghost a: View, ghost b: View)
    requires Laid(h, a) && Laid(t, b) && a.chain != [] && last == a.chain[|a.chain| - 1]
    requires forall q :: q in a.chain ==> q !in b.chain
    modifies last`next
    ensures Laid(h, Join(a, b)) && last.next == t
    ensures forall i :: 0 <= i < |a.chain| ==> a.chain[i].totLen == a.tots[i]
  {
    assert last in a.chain;
    last.next := t;
    assert forall i :: 0 <= i < |b.chain| ==> b.chain[i] in b.chain;
    JoinedIsChain(h, t, a.chain, b.chain);
    ghost var c := Join(a, b);
    forall i | 0 <= i < |c.chain| ensures SegmentLaid(c.chain[i], c.lens[i], c.tots[i], c.mem[i]) {
      if i >= |a.chain| {
        assert c.chain[i] == b.chain[i - |a.chain|];
      }
    }
  }

  /** Both phases of it on two chains: the totals, then the link. */
  method CatBoth(h: Pbuf, t: Pbuf, ghost a: View, ghost b: View) returns (ghost raised: seq<nat>)
    requires Laid(h, a) && Laid(t, b)
    requires forall q :: q in a.chain ==> q !in b.chain
    modifies a.chain
    ensures Raised(a.tots, raised, b.tots[0], |a.tots|) && Laid(h, Join(a.(tots := raised), b))
    ensures a.chain[|a.chain| - 1].next == t
    ensures forall i :: 0 <= i < |a.chain| ==> a.chain[i].totLen == raised[i]
  {
    assert forall i :: 0 <= i < |b.chain| ==> b.chain[i] in b.chain && b.chain[i] !in a.chain;
    var last;
    last, raised := RaiseTotals(h, t, a);
    Link(h, last, t, a.(tots := raised), b);
  }

  /** pbuf_cat: two chains become one, with the right totals; a missing chain makes it do nothing. */
  method PbufCat(h: Pbuf?, t: Pbuf?, ghost a: View, ghost b: View) returns (ghost c: View)
    requires Laid(h, a) && Laid(t, b) && TotalsRight(a.lens, a.tots) && TotalsRight(b.lens, b.tots)
    requires forall q :: q in a.chain ==> q !in b.chain
    modifies a.chain
    ensures Laid(h, c) && TotalsRight(c.lens, c.tots)
    ensures if h == null || t == null then c == a
            else c.chain == a.chain + b.chain && c.lens == a.lens + b.lens && c.mem == a.mem + b.mem
    ensures h != null && t != null ==>
              && a.chain[|a.chain| - 1].next == t
              && forall i :: 0 <= i < |a.chain| ==> a.chain[i].totLen == (a.tots[i] + b.tots[0]) % 0x1_0000
  {
    c := a;
    if h != null && t != null {
      ghost var raised := CatBoth(h, t, a, b);
      RaisedPlain(a.tots, raised, b.tots[0]);
      JoinedTotals(a.lens, a.tots, raised, b.lens, b.tots);
      c := Join(a.(tots := raised), b);
    }
  }

  /** What remains of an int stored in a u8_t. */
  function U8(x: nat): nat {
    x % 256
  }

  lemma U8Step(x: nat)
    ensures U8(U8(x) + 1) == U8(x + 1)
  {
  }

  twostate predicate LostOneReference(q: Pbuf)
    reads q
  {
    && q.ref == old(q.ref) - 1
    && q.next == old(q.next) && q.payload == old(q.payload) && q.len == old(q.len) && q.totLen == old(q.totLen)
  }

  ghost predicate Held(nb: Netbuf, v: View)
    reads nb`p, v.chain
  {
    Laid(nb.p, v) && TotalsRight(v.lens, v.tots)
  }

  lemma EmptyHeld(nb: Netbuf)
    requires nb.p == null
    ensures Held(nb, NO_PBUFS)
  {
  }

  lemma OneHeld(nb: Netbuf, q: Pbuf, size: nat, payload: array<byte>)
    requires nb.p == q && q.ref == 1 && q.next == null && q.len == q.totLen == size && q.payload == payload
    requires size <= payload.Length && size < 0x1_0000
    ensures Held(nb, View([q], [size], [size], [payload]))
  {
    assert Rest([size], 0) == size + Rest([size], 1);
  }

  /** An empty pbuf made to point at the caller's memory. */
  method RefPbuf(dataptr: array<byte>, size: nat) returns (q: Pbuf)
    ensures fresh(q) && q.ref == 1 && q.next == null && q.len == q.totLen == size && q.payload == dataptr
  {
    var nothing := new byte[0];
    q := new Pbuf(nothing, 0, 0);
    q.payload := dataptr;
    q.totLen := size;
    q.len := q.totLen;
  }

  /** The memory of netbufs and pbufs. */
  class Pool {
    ghost var books: Books
    ghost var freed: seq<Pbuf>

    ghost predicate Valid()
      reads this, books.views.Keys, set nb, i | nb in books.views && 0 <= i < |books.views[nb].chain| :: books.views[nb].chain[i]
    {
      && Accounted(books) && freed == books.freed
      && forall nb :: nb in books.views ==> Held(nb, books.views[nb])
    }

    constructor ()
      ensures Valid() && books == Books(map[], map[], {}, [])
    {
      books, freed := Books(map[], map[], {}, []), [];
    }

    /** memp_free or mem_free of one pbuf: from here on its fields hold anything. */
    method Release(p: Pbuf)
      modifies p, this`freed
      ensures freed == old(freed) + [p]
    {
      modify p;
      freed := freed + [p];
    }

    /** One pass of pbuf_free's loop: a pbuf loses a reference and, with its last one, its memory. */
    method Dereference(p: Pbuf) returns (next: Pbuf?, gone: bool)
      requires p.ref > 0
      modifies p, this`freed
      ensures gone <==> old(p.ref) == 1
      ensures next == if gone then old(p.next) else null
      ensures freed == old(freed) + if gone then [p] else []
      ensures !gone ==> LostOneReference(p)
    {
      p.ref := p.ref - 1;
      if p.ref == 0 {
        next, gone := p.next, true;
        Release(p);
      } else {
        next, gone := null, false;
      }
    }

    /** pbuf_free: gives back the unshared pbufs at the head of the chain, takes one reference from the
        first shared one and leaves the rest alone; the result is an 8-bit count. */
    method PbufFree(first: Pbuf?, ghost chain: seq<Pbuf>) returns (count: nat)
      requires IsChain(first, chain) && forall i :: 0 <= i < |chain| ==> chain[i].ref > 0
      modifies chain, this`freed
      ensures var n := old(Unshared(chain));
              && freed == old(freed) + chain[..n]
              && count == n % 256
              && (n < |chain| ==> LostOneReference(chain[n]) && chain[n].ref == old(chain[n].ref) - 1)
              && forall i :: n < i < |chain| ==> unchanged(chain[i])
    {
      var p := first;
      count := 0;
      ghost var k := 0;
      ghost var n := Unshared(chain);
      while p != null
        invariant k <= n && p == if k < |chain| then chain[k] else null
        invariant forall i :: k <= i < |chain| ==> unchanged(chain[i])
        invariant freed == old(freed) + chain[..k] && count == U8(k)
        decreases |chain| - k
      {
        var next, gone := Dereference(p);
        p := next;
        if !gone {
          break;
        }
        U8Step(k);
        count := U8(count + 1);
        k := k + 1;
      }
    }

    /** The packet of a netbuf, if it has one, is freed. */
    method FreePacket(buf: Netbuf, ghost v: View)
      requires Laid(buf.p, v)
      modifies this`freed, buf`p, v.chain
      ensures freed == old(freed) + v.chain && buf.p == null
    {
      if buf.p != null {
        AllUnshared(v.chain);
        var count := PbufFree(buf.p, v.chain);
      }
      buf.p := null;
    }

    /** The same among other netbufs that share nothing with this one: they keep what they hold. */
    method FreeAmongOthers(buf: Netbuf, ghost v: View, ghost others: map<Netbuf, View>)
      requires Laid(buf.p, v) && buf !in others
      requires forall nb :: nb in others ==> Held(nb, others[nb])
      requires forall nb, i :: nb in others && 0 <= i < |others[nb].chain| ==> others[nb].chain[i] !in v.chain
      modifies this`freed, buf`p, v.chain
      ensures freed == old(freed) + v.chain && buf.p == null
      ensures forall nb :: nb in others ==> Held(nb, others[nb])
    {
      FreePacket(buf, v);
      forall nb | nb in others ensures Held(nb, others[nb]) {
        assert nb.p == old(nb.p) && unchanged(others[nb].chain);
        assert Held(nb, others[nb]) == old(Held(nb, others[nb]));
      }
    }

    /** The same, with the books kept: four of the functions start with it. */
    method Drop(buf: Netbuf)
      requires Valid() && buf in books.views
      modifies this, buf`p, books.views[buf].chain
      ensures Valid() && books == Emptied(old(books), buf) && buf.p == null && Made(books) == Made(old(books))
      ensures books.views[buf].chain == [] && freed == old(freed) + old(books.views[buf].chain)
    {
      assert Held(buf, books.views[buf]);
      EmptiedAccounted(books, buf);
      ghost var others := books.views - {buf};
      Apart(books, buf, others);
      FreeAmongOthers(buf, books.views[buf], others);
      EmptyHeld(buf);
      ghost var b := Emptied(books, buf);
      forall nb | nb in b.views && nb != buf ensures b.views[nb] == others[nb] && nb in others { }
      SetBooks(b);
    }

    /** New books, when everything they say is so. */
    ghost method SetBooks(b: Books)
      requires Accounted(b) && freed == b.freed
      requires forall nb :: nb in b.views ==> Held(nb, b.views[nb])
      modifies this`books
      ensures Valid() && books == b
    {
      books := b;
    }

    /** memp_free of a netbuf that has left the books: from here on its fields hold anything. */
    method FreeNetbuf(nb: Netbuf)
      requires Valid() && nb !in books.views
      modifies nb
      ensures Valid()
    {
      modify nb;
    }

    /** Cursors are no part of the books. */
    method SetPtr(buf: Netbuf, ptr: Pbuf?)
      requires Valid()
      modifies buf`ptr
      ensures Valid() && buf.ptr == ptr
    {
      buf.ptr := ptr;
    }

    // ----- The functions of netbuf.c -----

    ghost predicate CursorOk(nb: Netbuf)
      reads this, nb
    {
      nb in books.views && (nb.ptr == null || nb.ptr in books.views[nb].chain)
    }

    method New(granted: bool) returns (buf: Netbuf?)
      requires Valid()
      modifies this`books
      ensures Valid() && (buf == null <==> !granted)
      ensures buf == null ==> books == old(books)
      ensures buf != null ==> fresh(buf) && books == Opened(old(books), buf) && CursorOk(buf)
      ensures buf != null ==> buf.p == null && buf.ptr == null && books.views[buf].chain == [] && freed == old(freed)
    {
      if !granted { return null; }
      buf := new Netbuf();
      OpenedAccounted(books, buf);
      EmptyHeld(buf);
      SetBooks(Opened(books, buf));
    }

    /** netbuf_delete */
    method Delete(buf: Netbuf?)
      requires Valid() && (buf != null ==> buf in books.views)
      modifies this, if buf == null then {} else {buf}, if buf == null then [] else books.views[buf].chain
      ensures Valid() && books == if buf == null then old(books) else Closed(Emptied(old(books), buf), buf)
      ensures buf != null ==> buf !in books.views && freed == old(freed) + old(books.views[buf].chain)
    {
      if buf != null {
        Drop(buf);
        ClosedAccounted(books, buf);
        SetBooks(Closed(books, buf));
        FreeNetbuf(buf);
      }
    }

    /** netbuf_free */
    method Free(buf: Netbuf?)
      requires Valid() && (buf != null ==> buf in books.views)
      modifies this, if buf == null then {} else {buf}, if buf == null then [] else books.views[buf].chain
      ensures Valid() && books == if buf == null then old(books) else Emptied(old(books), buf)
      ensures buf != null ==> buf.p == null && buf.ptr == null && freed == old(freed) + old(books.views[buf].chain)
    {
      if buf == null { return; }
      Drop(buf);
      SetPtr(buf, null);
    }

    /** A pbuf the books have never seen. */
    method MakePbuf(payload: array<byte>, len: nat) returns (q: Pbuf)
      requires Valid()
      ensures Valid() && fresh(q) && q !in Made(books)
      ensures q.ref == 1 && q.next == null && q.len == q.totLen == len && q.payload == payload
    {
      q := new Pbuf(payload, len, len);
    }

    method MakeRef(dataptr: array<byte>, size: nat) returns (q: Pbuf)
      requires Valid()
      ensures Valid() && fresh(q) && q !in Made(books)
      ensures q.ref == 1 && q.next == null && q.len == q.totLen == size && q.payload == dataptr
    {
      q := RefPbuf(dataptr, size);
    }

    /** A new pbuf becomes the packet of an empty netbuf. */
    method Fill(buf: Netbuf, q: Pbuf, size: nat, ghost payload: array<byte>)
      requires Valid() && buf in books.views && books.views[buf].chain == [] && q !in Made(books)
      requires q.ref == 1 && q.next == null && q.len == q.totLen == size && q.payload == payload
      requires size <= payload.Length && size < 0x1_0000
      modifies this`books, buf`p
      ensures Valid() && books == Filled(old(books), buf, q, View([q], [size], [size], [payload])) && buf.p == q
    {
      ghost var v := View([q], [size], [size], [payload]);
      buf.p := q;
      FilledAccounted(books, buf, q, v);
      OneHeld(buf, q, size, payload);
      SetBooks(Filled(books, buf, q, v));
    }

    /** And its cursor. */
    method Place(buf: Netbuf, q: Pbuf, size: nat, ghost payload: array<byte>)
      requires Valid() && buf in books.views && books.views[buf].chain == [] && q !in Made(books)
      requires q.ref == 1 && q.next == null && q.len == q.totLen == size && q.payload == payload
      requires size <= payload.Length && size < 0x1_0000
      modifies this`books, buf`p, buf`ptr
      ensures Valid() && books == Filled(old(books), buf, q, View([q], [size], [size], [payload])) && buf.p == buf.ptr == q
    {
      Fill(buf, q, size, payload);
      SetPtr(buf, buf.p);
    }

    /** A new pbuf of its own for an empty netbuf. */
    method PlaceNew(buf: Netbuf, size: nat) returns (data: array<byte>)
      requires Valid() && buf in books.views && books.views[buf].chain == [] && size < 0x1_0000
      modifies this`books, buf`p, buf`ptr
      ensures Valid() && fresh(data) && data.Length == size && buf.p != null && fresh(buf.p) && buf.ptr == buf.p
      ensures buf.p !in Made(old(books))
      ensures books == Filled(old(books), buf, buf.p, View([buf.p], [size], [size], [data]))
    {
      data := new byte[size];
      var q := MakePbuf(data, size);
      Place(buf, q, size, data);
    }

    /** netbuf_alloc on a netbuf. When the pbuf is not granted, the old packet is gone but ptr still
        points at it: the cursor survives exactly when the allocation succeeds or there was no cursor. */
    method AllocIn(buf: Netbuf, size: nat, granted: bool) returns (data: array?<byte>)
      requires Valid() && buf in books.views && size < 0x1_0000
      modifies this, buf, books.views[buf].chain
      ensures Valid() && (data != null <==> granted)
      ensures !granted ==> books == Emptied(old(books), buf) && buf.ptr == old(buf.ptr)
      ensures data != null ==> fresh(data) && data.Length == size && buf.p != null && fresh(buf.p) && buf.p !in Made(old(books)) && buf.ptr == buf.p
                               && books == Filled(Emptied(old(books), buf), buf, buf.p, View([buf.p], [size], [size], [data]))
    {
      Drop(buf);
      if !granted { return null; }
      data := PlaceNew(buf, size);
    }

    method Alloc(buf: Netbuf?, size: nat, granted: bool) returns (data: array?<byte>)
      requires Valid() && (buf != null ==> buf in books.views) && size < 0x1_0000
      modifies this, if buf == null then {} else {buf}, if buf == null then [] else books.views[buf].chain
      ensures Valid() && (data != null <==> buf != null && granted)
      ensures buf == null ==> books == old(books)
      ensures buf != null ==>
                var b := Emptied(old(books), buf);
                if data == null then books == b
                else buf.p != null && books == Filled(b, buf, buf.p, View([buf.p], [size], [size], [data]))
      ensures data != null ==> fresh(data) && data.Length == size && buf.p !in Made(old(books)) && buf.ptr == buf.p
      ensures buf != null && !granted ==> buf.ptr == old(buf.ptr) && buf.p == null
      ensures buf != null ==> freed == old(freed) + old(books.views[buf].chain)
      ensures data != null ==>
                buf.p.payload == data && buf.p.len == size == buf.p.totLen && buf.p.ref == 1 && buf.p.next == null
      ensures buf != null ==> (CursorOk(buf) <==> granted || old(buf.ptr) == null)
    {
      if buf == null { return null; }
      data := AllocIn(buf, size, granted);
      assert Held(buf, books.views[buf]);
      if granted {
        assert buf.p == books.views[buf].chain[0];
      }
    }

    /** netbuf_ref: a packet whose only segment is the caller's own memory. */
    method RefIn(buf: Netbuf, dataptr: array<byte>, size: nat, granted: bool) returns (err: int)
      requires Valid() && buf in books.views && size < 0x1_0000 && size <= dataptr.Length
      modifies this, buf, books.views[buf].chain
      ensures Valid() && err == if granted then ERR_OK else ERR_MEM
      ensures !granted ==> books == Emptied(old(books), buf) && buf.ptr == null == buf.p
      ensures granted ==> buf.p != null && fresh(buf.p) && buf.p !in Made(old(books)) && buf.ptr == buf.p
                          && books == Filled(Emptied(old(books), buf), buf, buf.p, View([buf.p], [size], [size], [dataptr]))
    {
      Drop(buf);
      if !granted {
        SetPtr(buf, null);
        return ERR_MEM;
      }
      var q := MakeRef(dataptr, size);
      Place(buf, q, size, dataptr);
      return ERR_OK;
    }

    method Ref(buf: Netbuf?, dataptr: array<byte>, size: nat, granted: bool) returns (err: int)
      requires Valid() && (buf != null ==> buf in books.views) && size < 0x1_0000 && size <= dataptr.Length
      modifies this, if buf == null then {} else {buf}, if buf == null then [] else books.views[buf].chain
      ensures Valid() && err == if buf == null then ERR_ARG else if granted then ERR_OK else ERR_MEM
      ensures buf == null ==> books == old(books)
      ensures buf != null ==>
                var b := Emptied(old(books), buf);
                if granted then buf.p != null && buf.p !in Made(old(books)) && books == Filled(b, buf, buf.p, View([buf.p], [size], [size], [dataptr]))
                else books == b
      ensures buf != null ==> CursorOk(buf) && buf.ptr == buf.p
      ensures err == if buf == null then -10 else if granted then 0 else -1
      ensures buf != null ==> freed == old(freed) + old(books.views[buf].chain) && (!granted ==> buf.p == null)
      ensures err == 0 ==>
                buf.p.payload == dataptr && buf.p.len == size == buf.p.totLen && buf.p.ref == 1 && buf.p.next == null
    {
      if buf == null { return ERR_ARG; }
      err := RefIn(buf, dataptr, size, granted);
      assert Held(buf, books.views[buf]);
      if granted {
        assert buf.p == books.views[buf].chain[0];
      }
    }

    /** pbuf_cat among netbufs that share nothing with the head: they keep what they hold. */
    method CatAmongOthers(head: Netbuf, tail: Netbuf, ghost a: View, ghost b: View, ghost others: map<Netbuf, View>)
      returns (ghost c: View)
      requires Held(head, a) && Held(tail, b) && tail in others && others[tail] == b
      requires forall nb :: nb in others ==> Held(nb, others[nb])
      requires forall nb, i :: nb in others && 0 <= i < |others[nb].chain| ==> others[nb].chain[i] !in a.chain
      modifies a.chain
      ensures Held(head, c) && Joined(a, b, c)
      ensures forall nb :: nb in others && nb != tail ==> Held(nb, others[nb])
    {
      assert forall i :: 0 <= i < |b.chain| ==> others[tail].chain[i] !in a.chain;
      c := PbufCat(head.p, tail.p, a, b);
      forall nb | nb in others && nb != tail ensures Held(nb, others[nb]) {
        assert nb.p == old(nb.p) && unchanged(others[nb].chain);
        assert Held(nb, others[nb]) == old(Held(nb, others[nb]));
      }
    }

    /** pbuf_cat on their packets, and the books it leads to. */
    method CatPackets(head: Netbuf, tail: Netbuf) returns (ghost after: Books)
      requires Valid() && head in books.views && tail in books.views && head != tail
      modifies books.views[head].chain
      ensures Accounted(after) && after.freed == freed && head in after.views && tail !in after.views
      ensures Joined(books.views[head], books.views[tail], after.views[head])
      ensures after == Chained(books, head, tail, after.views[head])
      ensures forall nb :: nb in after.views ==> Held(nb, after.views[nb])
    {
      ghost var a, b, others := books.views[head], books.views[tail], books.views - {head};
      Apart(books, head, others);
      ghost var c := CatAmongOthers(head, tail, a, b, others);
      ChainedAccounted(books, head, tail, a, b, c);
      after := Chained(books, head, tail, c);
      ChainedViews(books, head, tail, c, others);
    }

    /** The end of netbuf_chain: the head's cursor is reset and the tail given back. */
    method Retire(head: Netbuf, tail: Netbuf)
      requires Valid() && tail !in books.views && head != tail
      modifies head`ptr, tail
      ensures Valid() && head.ptr == head.p
    {
      SetPtr(head, head.p);
      FreeNetbuf(tail);
    }

    /** netbuf_chain on two netbufs: the head's data then the tail's, and the tail is gone. An empty head
        takes nothing over: then the tail's pbufs belong to nobody from here on. */
    method ChainIn(head: Netbuf, tail: Netbuf)
      requires Valid() && head in books.views && tail in books.views && head != tail
      modifies this`books, head`ptr, tail, books.views[head].chain
      ensures Valid() && head.ptr == head.p && head in books.views
      ensures Joined(old(books.views[head]), old(books.views[tail]), books.views[head])
      ensures books == Chained(old(books), head, tail, books.views[head])
      ensures tail !in books.views && freed == old(freed)
    {
      ghost var after := CatPackets(head, tail);
      SetBooks(after);
      Retire(head, tail);
    }

    method Chain(head: Netbuf?, tail: Netbuf?)
      requires Valid() && (head != null ==> head in books.views) && (tail != null ==> tail in books.views)
      requires head != null ==> head != tail
      modifies this`books, if head == null then {} else {head}, if tail == null then {} else {tail}
      modifies if head == null then [] else books.views[head].chain
      ensures Valid() && (head == null || tail == null ==> books == old(books))
      ensures head != null && tail != null ==>
                && CursorOk(head) && head.ptr == head.p
                && Joined(old(books.views[head]), old(books.views[tail]), books.views[head])
                && books == Chained(old(books), head, tail, books.views[head])
      ensures head != null && tail != null ==>
                && tail !in books.views && freed == old(freed)
                && books.views[head].chain ==
                   old(books.views[head].chain) + if old(books.views[head].chain) == [] then [] else old(books.views[tail].chain)
    {
      if head == null || tail == null { return; }
      ChainIn(head, tail);
      assert Held(head, books.views[head]);
    }

    /** netbuf_data */
    method Data(buf: Netbuf?) returns (err: int, dataptr: array?<byte>, len: nat)
      requires Valid() && (buf != null ==> CursorOk(buf))
      ensures err == if buf == null then ERR_ARG else if buf.ptr == null then ERR_BUF else ERR_OK
      ensures err == if buf == null then -10 else if buf.ptr == null then -2 else 0
      ensures err == 0 ==> dataptr == buf.ptr.payload && len == buf.ptr.len
      ensures err == ERR_OK ==>
                var v := books.views[buf];
                && dataptr != null && len <= dataptr.Length && Shape(v) && buf.ptr in v.chain
                && forall k :: 0 <= k < |v.chain| && v.chain[k] == buf.ptr ==> dataptr == v.mem[k] && len == v.lens[k]
    {
      dataptr, len := null, 0;
      if buf == null { return ERR_ARG, null, 0; }
      if buf.ptr == null { return ERR_BUF, null, 0; }
      assert Held(buf, books.views[buf]);
      return ERR_OK, buf.ptr.payload, buf.ptr.len;
    }

    /** netbuf_next, from segment k: -1 at the last one, 1 when it arrives there, 0 before. */
    method Next(buf: Netbuf?, ghost k: nat) returns (r: int)
      requires Valid()
      requires buf != null ==> buf in books.views && k < |books.views[buf].chain| && buf.ptr == books.views[buf].chain[k]
      modifies if buf == null then {} else {buf}
      ensures Valid() && (buf == null ==> r == -1)
      ensures buf != null ==>
                var n := |books.views[buf].chain|;
                && buf.p == old(buf.p)
                && r == (if k + 1 == n then -1 else if k + 2 == n then 1 else 0)
                && buf.ptr == books.views[buf].chain[if k + 1 == n then k else k + 1]
    {
      if buf == null { return -1; }
      assert Held(buf, books.views[buf]);
      if buf.ptr.next == null { return -1; }
      buf.ptr := buf.ptr.next;
      if buf.ptr.next == null { return 1; }
      return 0;
    }

    /** netbuf_first */
    method First(buf: Netbuf?)
      requires Valid() && (buf != null ==> buf in books.views)
      modifies if buf == null then {} else {buf}
      ensures Valid()
      ensures buf != null ==> CursorOk(buf) && buf.ptr == buf.p == old(buf.p)
      ensures buf != null && buf.ptr != null ==> books.views[buf].chain != [] && buf.ptr == books.views[buf].chain[0]
    {
      if buf == null { return; }
      assert Held(buf, books.views[buf]);
      buf.ptr := buf.p;
    }

    /** The reading loop after k segments. */
    ghost predicate Reading(buf: Netbuf, v: View, segs: seq<seq<byte>>, k: nat, data: seq<byte>)
      reads this, buf, v.mem
    {
      && buf in books.views && books.views[buf] == v && Shape(v) && segs == Segments(v)
      && k < |v.chain| && buf.ptr == v.chain[k] && data == Flatten(segs[..k])
    }

    /** And after the last one. */
    ghost predicate Finished(buf: Netbuf, v: View, visits: nat, data: seq<byte>)
      reads this, buf, v.mem
    {
      && CursorOk(buf) && books.views[buf] == v && Shape(v)
      && visits == |v.chain| && data == Flatten(Segments(v))
    }

    /** One segment of the reading loop. */
    method ReadSegment(buf: Netbuf, data: seq<byte>, ghost v: View, ghost segs: seq<seq<byte>>, ghost k: nat)
      returns (more: seq<byte>)
      requires Valid() && Reading(buf, v, segs, k, data)
      ensures more == Flatten(segs[..k + 1])
      ensures k + 1 == |v.chain| ==> more == Flatten(Segments(v))
    {
      assert v.chain[k] in v.chain;
      var err, p, len := Data(buf);
      more := data + p[..len];
      assert segs[k] == p[..len];
      FlattenNext(segs, k);
      assert segs[..|segs|] == segs;
    }

    /** One pass of the reading loop: data, then next. */
    method ReadOn(buf: Netbuf, data: seq<byte>, ghost v: View, ghost segs: seq<seq<byte>>, ghost k: nat)
      returns (more: seq<byte>, r: int)
      requires Valid() && Reading(buf, v, segs, k, data)
      modifies buf
      ensures Valid() && (r < 0 <==> k + 1 == |v.chain|)
      ensures r >= 0 ==> Reading(buf, v, segs, k + 1, more)
      ensures r < 0 ==> Finished(buf, v, k + 1, more)
    {
      more := ReadSegment(buf, data, v, segs, k);
      r := Next(buf, k);
    }

    method StartReading(buf: Netbuf) returns (ghost segs: seq<seq<byte>>)
      requires Valid() && buf in books.views && books.views[buf].chain != []
      modifies buf
      ensures Valid() && Reading(buf, books.views[buf], segs, 0, [])
    {
      assert Held(buf, books.views[buf]);
      segs := Segments(books.views[buf]);
      First(buf);
    }

    /** The reading loop of the interface: first, then data and next until there is no next. It visits
        every segment once and collects the whole packet. */
    method ReadAll(buf: Netbuf) returns (data: seq<byte>, visits: nat)
      requires Valid() && buf in books.views && books.views[buf].chain != []
      modifies buf
      ensures Valid() && Shape(books.views[buf]) && visits == |books.views[buf].chain|
      ensures data == Flatten(Segments(books.views[buf])) && CursorOk(buf)
    {
      ghost var v := books.views[buf];
      ghost var segs := StartReading(buf);
      data, visits := [], 0;
      var r := 0;
      while r >= 0
        invariant Valid() && visits <= |v.chain|
        invariant if r < 0 then Finished(buf, v, visits, data) else Reading(buf, v, segs, visits, data)
        decreases |v.chain| - visits
      {
        data, r := ReadOn(buf, data, v, segs, visits);
        visits := visits + 1;
      }
    }
  }

  /** After netbuf_chain the head's data is its old data followed by the tail's. */
  lemma JoinedContent(a: View, b: View, c: View)
    requires Shape(a) && Shape(b) && Shape(c) && Joined(a, b, c) && a.chain != []
    ensures Flatten(Segments(c)) == Flatten(Segments(a)) + Flatten(Segments(b))
    ensures Rest(c.lens, 0) == Rest(a.lens, 0) + Rest(b.lens, 0)
  {
    assert Segments(c) == Segments(a) + Segments(b);
    FlattenAppend(Segments(a), Segments(b));
    RestAppend(a.lens, b.lens, 0);
  }

  lemma {:induction false} AllUnshared(chain: seq<Pbuf>)
    requires forall i {:trigger chain[i]} :: 0 <= i < |chain| ==> chain[i].ref == 1
    ensures Unshared(chain) == |chain|
  {
    if chain != [] {
      AllUnshared(chain[1..]);
    }
  }
}
