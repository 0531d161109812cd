/** Who owns which pbuf, and where the cursors point, over whole runs of the functions of
    lwip-1.3.1/src/api/netbuf.c:55-233. */
module NetbufBooks {
  import opened Bytes
  import opened Pbufs

  class Netbuf {
    var p: Pbuf?
    var ptr: Pbuf?

    constructor ()
      ensures p == null && ptr == null
    {
      p, ptr := null, null;
    }
  }

  /** A chain of pbufs held by one reference each, with their lengths, totals and memory. */
  datatype View = View(chain: seq<Pbuf>, lens: seq<nat>, tots: seq<nat>, mem: seq<array<byte>>)

  const NO_PBUFS := View([], [], [], [])

  // ----- Who owns what -----

  /** The netbufs in use with what they hold, the netbuf each pbuf belongs to, the pbufs nobody can
      reach, and the pbufs given back. */
  datatype Books = Books(views: map<Netbuf, View>, owner: map<Pbuf, Netbuf>, stray: set<Pbuf>, freed: seq<Pbuf>)

  predicate FreedOnce(b: Books) {
    && NoRepeats(b.freed)
    && (forall q :: q in b.freed ==> q !in b.owner && q !in b.stray)
  }

  predicate OwnedOnce(b: Books) {
    && (forall nb, q {:trigger q in b.views[nb].chain} :: nb in b.views && q in b.views[nb].chain ==> q in b.owner && b.owner[q] == nb)
    && (forall q :: q in b.owner ==> q !in b.stray && b.owner[q] in b.views && q in b.views[b.owner[q]].chain)
  }

  predicate Accounted(b: Books) {
    FreedOnce(b) && OwnedOnce(b)
  }

  /** Every pbuf there ever was. */
  ghost function Made(b: Books): set<Pbuf> {
    b.owner.Keys + b.stray + set q | q in b.freed
  }

  predicate NoRepeats(s: seq<Pbuf>) {
    forall i, j :: 0 <= i < j < |s| ==> s[i] != s[j]
  }

  function PbufsOf(v: View): set<Pbuf> {
    set q | q in v.chain
  }

  function Opened(b: Books, nb: Netbuf): Books {
    b.(views := b.views[nb := NO_PBUFS])
  }

  function Closed(b: Books, nb: Netbuf): Books {
    b.(views := b.views - {nb})
  }

  function Emptied(b: Books, nb: Netbuf): Books
    requires nb in b.views
  {
    b.(views := b.views[nb := NO_PBUFS], owner := b.owner - PbufsOf(b.views[nb]), freed := b.freed + b.views[nb].chain)
  }

  function Filled(b: Books, nb: Netbuf, q: Pbuf, v: View): Books {
    b.(views := b.views[nb := v], owner := b.owner[q := nb])
  }

  /** The head takes over the pbufs of the tail. */
  function Merged(b: Books, head: Netbuf, tail: Netbuf, v: View): Books {
    b.(views := (b.views - {tail})[head := v], owner := map q | q in b.owner :: if b.owner[q] == tail then head else b.owner[q])
  }

  /** Nobody does. */
  function Abandoned(b: Books, tail: Netbuf): Books
    requires tail in b.views
  {
    b.(views := b.views - {tail}, owner := b.owner - PbufsOf(b.views[tail]), stray := b.stray + PbufsOf(b.views[tail]))
  }

  lemma OpenedAccounted(b: Books, nb: Netbuf)
    requires Accounted(b) && nb !in b.views
    ensures Accounted(Opened(b, nb)) && Made(Opened(b, nb)) == Made(b)
  {
  }

  lemma ClosedAccounted(b: Books, nb: Netbuf)
    requires Accounted(b) && nb in b.views && b.views[nb].chain == []
    ensures Accounted(Closed(b, nb)) && Made(Closed(b, nb)) == Made(b)
  {
  }

  lemma EmptiedAccounted(b: Books, nb: Netbuf)
    requires Accounted(b) && nb in b.views && NoRepeats(b.views[nb].chain)
    ensures Accounted(Emptied(b, nb)) && Made(Emptied(b, nb)) == Made(b)
  {
    var c, chain := Emptied(b, nb), b.views[nb].chain;
    forall i | 0 <= i < |chain| ensures chain[i] in b.owner && chain[i] !in b.freed {
      assert chain[i] in b.views[nb].chain;
    }
    assert FreedOnce(c);
    assert OwnedOnce(c);
  }

  lemma FilledAccounted(b: Books, nb: Netbuf, q: Pbuf, v: View)
    requires Accounted(b) && nb in b.views && b.views[nb].chain == [] && q !in Made(b) && v.chain == [q]
    ensures Accounted(Filled(b, nb, q, v)) && Made(Filled(b, nb, q, v)) == Made(b) + {q}
  {
  }

  lemma MergedAccounted(b: Books, head: Netbuf, tail: Netbuf, v: View)
    requires Accounted(b) && head in b.views && tail in b.views && head != tail
    requires v.chain == b.views[head].chain + b.views[tail].chain
    ensures Accounted(Merged(b, head, tail, v)) && Made(Merged(b, head, tail, v)) == Made(b)
  {
  }

  /** What pbuf_cat leaves the head with. */
  predicate Joined(a: View, b: View, c: View) {
    if a.chain == [] then c == a
    else c.chain == a.chain + b.chain && c.lens == a.lens + b.lens && c.mem == a.mem + b.mem
  }

  function Chained(b: Books, head: Netbuf, tail: Netbuf, v: View): Books
    requires head in b.views && tail in b.views
  {
    if b.views[head].chain == [] then Abandoned(b, tail) else Merged(b, head, tail, v)
  }

  lemma ChainedAccounted(b: Books, head: Netbuf, tail: Netbuf, v: View, w: View, c: View)
    requires Accounted(b) && head in b.views && tail in b.views && head != tail
    requires v == b.views[head] && w == b.views[tail] && Joined(v, w, c)
    ensures Accounted(Chained(b, head, tail, c)) && Made(Chained(b, head, tail, c)) == Made(b)
    ensures Chained(b, head, tail, c).views == (b.views - {tail})[head := c]
    ensures Chained(b, head, tail, c).freed == b.freed
    ensures Chained(b, head, tail, c).stray == b.stray + if v.chain == [] then PbufsOf(w) else {}
  {
    if v.chain == [] {
      AbandonedAccounted(b, tail);
    } else {
      MergedAccounted(b, head, tail, c);
    }
  }

  lemma ChainedViews(b: Books, head: Netbuf, tail: Netbuf, c: View, others: map<Netbuf, View>)
    requires head in b.views && tail in b.views && head != tail && others == b.views - {head}
    requires b.views[head].chain == [] ==> c == b.views[head]
    ensures var after := Chained(b, head, tail, c).views;
            && head in after && tail !in after && after[head] == c
            && forall nb :: nb in after && nb != head ==> nb in others && nb != tail && after[nb] == others[nb]
  {
    assert Chained(b, head, tail, c).views.Keys == b.views.Keys - {tail};
  }

  lemma AbandonedAccounted(b: Books, tail: Netbuf)
    requires Accounted(b) && tail in b.views
    ensures Accounted(Abandoned(b, tail)) && Made(Abandoned(b, tail)) == Made(b)
  {
  }

  /** Nothing that belongs to one netbuf belongs to another. */
  lemma Apart(b: Books, buf: Netbuf, others: map<Netbuf, View>)
    requires Accounted(b) && buf in b.views && others == b.views - {buf}
    ensures forall nb, i :: nb in others && 0 <= i < |others[nb].chain| ==> others[nb].chain[i] !in b.views[buf].chain
  {
    forall nb, i | nb in others && 0 <= i < |others[nb].chain| ensures others[nb].chain[i] !in b.views[buf].chain {
      assert b.views[nb].chain[i] in b.views[nb].chain;
    }
  }

  // ----- Runs -----

  /** The books and the cursor of every netbuf in use. */
  datatype World = World(books: Books, ptr: map<Netbuf, Pbuf?>)

  const EMPTY_WORLD := World(Books(map[], map[], {}, []), map[])

  /** The functions of netbuf.c; an allocation or reference got its pbuf or did not. */
  datatype Op =
    | NewOp(nb: Netbuf)
    | DeleteOp(nb: Netbuf)
    | FreeOp(nb: Netbuf)
    | AllocOp(nb: Netbuf, got: Option<Pbuf>, v: View)
    | RefOp(nb: Netbuf, got: Option<Pbuf>, v: View)
    | ChainOp(head: Netbuf, tail: Netbuf, c: View)
    | FirstOp(nb: Netbuf)
    | NextOp(nb: Netbuf, k: nat)

  function First(v: View): Pbuf? {
    if v.chain == [] then null else v.chain[0]
  }

  /** What the callers of the functions owe: netbufs in use, and next on a cursor into the packet. */
  ghost predicate Enabled(w: World, e: Op) {
    var b := w.books;
    match e
    case NewOp(nb) => nb !in b.views
    case DeleteOp(nb) => nb in b.views
    case FreeOp(nb) => nb in b.views
    case AllocOp(nb, got, v) => nb in b.views && (got.Some? ==> got.value !in Made(b) && v.chain == [got.value])
    case RefOp(nb, got, v) => nb in b.views && (got.Some? ==> got.value !in Made(b) && v.chain == [got.value])
    case ChainOp(head, tail, c) => head in b.views && tail in b.views && head != tail && Joined(b.views[head], b.views[tail], c)
    case FirstOp(nb) => nb in b.views
    case NextOp(nb, k) => nb in b.views && nb in w.ptr && k < |b.views[nb].chain| && w.ptr[nb] == b.views[nb].chain[k]
  }

  /** An emptied netbuf and, when there is one, its new packet. */
  function Refilled(b: Books, nb: Netbuf, got: Option<Pbuf>, v: View): Books
    requires nb in b.views
  {
    if got.Some? then Filled(Emptied(b, nb), nb, got.value, v) else Emptied(b, nb)
  }

  ghost function Apply(w: World, e: Op): World
    requires Enabled(w, e)
  {
    var b := w.books;
    match e
    case NewOp(nb) => World(Opened(b, nb), w.ptr[nb := null])
    case DeleteOp(nb) => World(Closed(Emptied(b, nb), nb), w.ptr - {nb})
    case FreeOp(nb) => World(Emptied(b, nb), w.ptr[nb := null])
    case AllocOp(nb, got, v) =>
      World(Refilled(b, nb, got, v), match got case Some(q) => w.ptr[nb := q] case None => w.ptr)
    case RefOp(nb, got, v) =>
      World(Refilled(b, nb, got, v), match got case Some(q) => w.ptr[nb := q] case None => w.ptr[nb := null])
    case ChainOp(head, tail, c) => World(Chained(b, head, tail, c), (w.ptr - {tail})[head := First(c)])
    case FirstOp(nb) => w.(ptr := w.ptr[nb := First(b.views[nb])])
    case NextOp(nb, k) =>
      var chain := b.views[nb].chain;
      w.(ptr := w.ptr[nb := if k + 1 < |chain| then chain[k + 1] else chain[k]])
  }

  ghost predicate Leads(w: World, e: Op, w': World) {
    Enabled(w, e) && w' == Apply(w, e)
  }

  /** The states of a run from nothing. */
  ghost predicate IsRun(ops: seq<Op>, states: seq<World>) {
    && |states| == |ops| + 1 && states[0] == EMPTY_WORLD
    && forall i {:trigger ops[i]} :: 0 <= i < |ops| ==> Leads(states[i], ops[i], states[i + 1])
  }

  /** A call made on nb leads here, and touches no cursor but its own. */
  ghost predicate LeadsFor(w: World, e: Op, w': World, nb: Netbuf) {
    && Leads(w, e, w') && w'.ptr.Keys == w'.books.views.Keys
    && forall x :: x in w'.ptr && x != nb ==> x in w.ptr && w'.ptr[x] == w.ptr[x]
  }

  lemma RefillLeads(w: World, e: Op, b: Books) returns (after: World)
    requires Enabled(w, e) && (e.AllocOp? || e.RefOp?) && w.ptr.Keys == w.books.views.Keys
    requires b == Refilled(w.books, e.nb, e.got, e.v)
    ensures LeadsFor(w, e, after, e.nb) && after.books == b
    ensures e.nb in after.ptr && after.ptr[e.nb] == if e.got.Some? then e.got.value else if e.AllocOp? then w.ptr[e.nb] else null
  {
    after := Apply(w, e);
    assert b.views.Keys == w.books.views.Keys;
  }

  lemma ChainLeads(w: World, e: Op, b: Books) returns (after: World)
    requires Enabled(w, e) && e.ChainOp? && w.ptr.Keys == w.books.views.Keys
    requires b == Chained(w.books, e.head, e.tail, e.c)
    ensures LeadsFor(w, e, after, e.head) && after.books == b
    ensures e.head in after.ptr && after.ptr[e.head] == First(e.c)
  {
    after := Apply(w, e);
    assert b.views.Keys == w.books.views.Keys - {e.tail};
  }

  lemma OtherLeads(w: World, e: Op, nb: Netbuf) returns (after: World)
    requires Enabled(w, e) && w.ptr.Keys == w.books.views.Keys
    requires e == NewOp(nb) || e == DeleteOp(nb) || e == FreeOp(nb) || e == FirstOp(nb) || (e.NextOp? && e.nb == nb)
    ensures LeadsFor(w, e, after, nb) && after == Apply(w, e)
  {
    after := Apply(w, e);
    assert after.ptr.Keys == after.books.views.Keys;
  }

  /** The one call that loses pbufs: chaining a packet to a netbuf that has none. */
  predicate Leaks(w: World, e: Op) {
    && e.ChainOp? && e.head in w.books.views && e.tail in w.books.views
    && w.books.views[e.head].chain == [] && w.books.views[e.tail].chain != []
  }

  /** The one call that strands a cursor: an allocation that fails on a netbuf with a cursor. */
  predicate Strands(w: World, e: Op) {
    e.AllocOp? && e.got.None? && e.nb in w.ptr && w.ptr[e.nb] != null
  }

  ghost predicate NeverLeaks(ops: seq<Op>, states: seq<World>)
    requires |states| == |ops| + 1
    decreases |ops|
  {
    ops == [] || var n := |ops| - 1; NeverLeaks(ops[..n], states[..n + 1]) && !Leaks(states[n], ops[n])
  }

  ghost predicate NeverStrands(ops: seq<Op>, states: seq<World>)
    requires |states| == |ops| + 1
    decreases |ops|
  {
    ops == [] || var n := |ops| - 1; NeverStrands(ops[..n], states[..n + 1]) && !Strands(states[n], ops[n])
  }

  ghost function Allocated(ops: seq<Op>): set<Pbuf> {
    if ops == [] then {}
    else Allocated(ops[..|ops| - 1]) + Gets(ops[|ops| - 1])
  }

  function Gets(e: Op): set<Pbuf> {
    if (e.AllocOp? || e.RefOp?) && e.got.Some? then {e.got.value} else {}
  }

  ghost predicate Orderly(b: Books) {
    Accounted(b) && forall nb :: nb in b.views ==> NoRepeats(b.views[nb].chain)
  }

  lemma RefilledAccounted(b: Books, nb: Netbuf, got: Option<Pbuf>, v: View)
    requires Orderly(b) && nb in b.views && (got.Some? ==> got.value !in Made(b) && v.chain == [got.value])
    ensures var c := Refilled(b, nb, got, v);
            Orderly(c) && c.stray == b.stray && Made(c) == Made(b) + (if got.Some? then {got.value} else {})
  {
    EmptiedAccounted(b, nb);
    if got.Some? {
      FilledAccounted(Emptied(b, nb), nb, got.value, v);
    }
  }

  lemma ChainedOrderly(b: Books, head: Netbuf, tail: Netbuf, c: View)
    requires Orderly(b) && head in b.views && tail in b.views && head != tail && Joined(b.views[head], b.views[tail], c)
    ensures Orderly(Chained(b, head, tail, c))
  {
    var v, w := b.views[head], b.views[tail];
    ChainedAccounted(b, head, tail, v, w, c);
    forall i, j | 0 <= i < j < |c.chain| ensures c.chain[i] != c.chain[j] {
      if v.chain != [] && i < |v.chain| <= j {
        assert c.chain[i] in v.chain && c.chain[j] in w.chain;
      }
    }
  }

  lemma ApplyAccounted(w: World, e: Op)
    requires Orderly(w.books) && Enabled(w, e)
    ensures var c := Apply(w, e).books;
            && Orderly(c) && Made(c) == Made(w.books) + Gets(e)
            && c.stray == w.books.stray + if Leaks(w, e) then PbufsOf(w.books.views[e.tail]) else {}
  {
    var b := w.books;
    match e
    case NewOp(nb) => OpenedAccounted(b, nb);
    case DeleteOp(nb) => EmptiedAccounted(b, nb); ClosedAccounted(Emptied(b, nb), nb);
    case FreeOp(nb) => EmptiedAccounted(b, nb);
    case AllocOp(nb, got, v) => RefilledAccounted(b, nb, got, v);
    case RefOp(nb, got, v) => RefilledAccounted(b, nb, got, v);
    case ChainOp(head, tail, c) =>
      ChainedOrderly(b, head, tail, c);
      ChainedAccounted(b, head, tail, b.views[head], b.views[tail], c);
    case FirstOp(nb) =>
    case NextOp(nb, k) =>
  }

  /** Over any run every pbuf ever allocated has been freed, once, or belongs to exactly one netbuf in
      use, or is astray; and pbufs go astray exactly in runs that chain a packet to an empty netbuf. */
  lemma {:induction false} RunAccounted(ops: seq<Op>, states: seq<World>)
    requires IsRun(ops, states)
    ensures var b := states[|ops|].books;
            && Orderly(b) && Made(b) == Allocated(ops)
            && (b.stray == {} <==> NeverLeaks(ops, states))
    decreases |ops|
  {
    if ops != [] {
      var n := |ops| - 1;
      assert Leads(states[n], ops[n], states[n + 1]);
      RunAccounted(ops[..n], states[..n + 1]);
      ApplyAccounted(states[n], ops[n]);
      if Leaks(states[n], ops[n]) {
        var v := states[n].books.views[ops[n].tail];
        assert v.chain[0] in PbufsOf(v);
      }
    }
  }

  // ----- Cursors over runs -----

  predicate CursorIn(ptr: Pbuf?, v: View) {
    ptr == null || ptr in v.chain
  }

  /** Every netbuf in use has a cursor, null or in its own packet. */
  predicate CursorsOk(w: World) {
    && w.ptr.Keys == w.books.views.Keys
    && forall nb :: nb in w.ptr ==> CursorIn(w.ptr[nb], w.books.views[nb])
  }

  lemma CursorsRefilled(w: World, e: Op)
    requires Enabled(w, e) && CursorsOk(w) && (e.AllocOp? || e.RefOp?)
    ensures CursorsOk(Apply(w, e)) <==> !Strands(w, e)
  {
    var c := Apply(w, e);
    assert c.ptr.Keys == c.books.views.Keys;
    assert forall nb :: nb in c.ptr && nb != e.nb ==> c.ptr[nb] == w.ptr[nb] && c.books.views[nb] == w.books.views[nb];
    assert CursorIn(c.ptr[e.nb], c.books.views[e.nb]) <==> !Strands(w, e);
  }

  lemma CursorsChained(w: World, e: Op)
    requires Enabled(w, e) && CursorsOk(w) && e.ChainOp?
    ensures CursorsOk(Apply(w, e))
  {
    var c := Apply(w, e);
    assert CursorIn(c.ptr[e.head], c.books.views[e.head]);
    assert c.ptr.Keys == c.books.views.Keys;
  }

  lemma CursorsStep(w: World, e: Op)
    requires Enabled(w, e) && CursorsOk(w)
    ensures CursorsOk(Apply(w, e)) <==> !Strands(w, e)
  {
    match e
    case NewOp(nb) =>
    case DeleteOp(nb) =>
    case FreeOp(nb) =>
    case AllocOp(nb, got, v) => CursorsRefilled(w, e);
    case RefOp(nb, got, v) => CursorsRefilled(w, e);
    case ChainOp(head, tail, c) => CursorsChained(w, e);
    case FirstOp(nb) =>
    case NextOp(nb, k) =>
  }

  ghost predicate AlwaysCursorsOk(states: seq<World>)
    decreases |states|
  {
    states == [] || (CursorsOk(states[|states| - 1]) && AlwaysCursorsOk(states[..|states| - 1]))
  }

  /** At every moment of a run every cursor is null or in its own packet, if and only if no allocation
      has failed on a netbuf with a cursor. */
  lemma {:induction false} CursorsExact(ops: seq<Op>, states: seq<World>)
    requires IsRun(ops, states)
    ensures AlwaysCursorsOk(states) <==> NeverStrands(ops, states)
    decreases |ops|
  {
    if ops == [] {
      assert AlwaysCursorsOk([]);
    } else {
      var n := |ops| - 1;
      assert Leads(states[n], ops[n], states[n + 1]);
      CursorsExact(ops[..n], states[..n + 1]);
      if AlwaysCursorsOk(states[..n + 1]) {
        assert states[..n + 1][n] == states[n];
        CursorsStep(states[n], ops[n]);
      }
    }
  }

  // ----- Two calls that go wrong -----

  lemma RunSnoc(ops: seq<Op>, states: seq<World>, e: Op, after: World)
    requires IsRun(ops, states) && Leads(states[|ops|], e, after)
    ensures IsRun(ops + [e], states + [after])
  {
    var ops', states' := ops + [e], states + [after];
    forall i | 0 <= i < |ops'| ensures Leads(states'[i], ops'[i], states'[i + 1]) {
      if i < |ops| {
        assert ops'[i] == ops[i];
      }
    }
  }

  function OnePacket(nb: Netbuf, q: Pbuf, v: View): World {
    World(Books(map[nb := v], map[q := nb], {}, []), map[nb := q])
  }

  lemma FillsNew(nb: Netbuf, q: Pbuf, v: View)
    requires v.chain == [q]
    ensures Enabled(EMPTY_WORLD, NewOp(nb))
    ensures var w := Apply(EMPTY_WORLD, NewOp(nb));
            var e := AllocOp(nb, Some(q), v);
            Enabled(w, e) && Apply(w, e) == OnePacket(nb, q, v)
  {
    var b := Opened(EMPTY_WORLD.books, nb);
    assert b.views == map[nb := NO_PBUFS];
    assert Emptied(b, nb) == b;
    assert Filled(b, nb, q, v) == Books(map[nb := v], map[q := nb], {}, []);
  }

  /** A netbuf with one pbuf: the start of both runs. */
  lemma Loaded(nb: Netbuf, q: Pbuf, v: View) returns (ops: seq<Op>, states: seq<World>)
    requires v.chain == [q]
    ensures IsRun(ops, states) && states[|ops|] == OnePacket(nb, q, v)
  {
    FillsNew(nb, q, v);
    var o1, o2 := NewOp(nb), AllocOp(nb, Some(q), v);
    var w1 := Apply(EMPTY_WORLD, o1);
    RunSnoc([], [EMPTY_WORLD], o1, w1);
    RunSnoc([] + [o1], [EMPTY_WORLD] + [w1], o2, Apply(w1, o2));
    ops, states := [] + [o1] + [o2], [EMPTY_WORLD] + [w1] + [Apply(w1, o2)];
  }

  lemma LosesOne(head: Netbuf, tail: Netbuf, q: Pbuf, v: View)
    requires head != tail && v.chain == [q]
    ensures var w, e := OnePacket(tail, q, v), NewOp(head);
            && Enabled(w, e)
            && Apply(w, e).books == Books(map[tail := v, head := NO_PBUFS], map[q := tail], {}, [])
    ensures var b := Books(map[tail := v, head := NO_PBUFS], map[q := tail], {}, []);
            Chained(b, head, tail, NO_PBUFS) == Books(map[head := NO_PBUFS], map[], {q}, [])
  {
    assert PbufsOf(v) == {q};
    assert map[tail := v, head := NO_PBUFS] - {tail} == map[head := NO_PBUFS];
    assert map[q := tail] - {q} == map[];
  }

  /** The packet of one netbuf chained to an empty one: the pbuf can never be freed. */
  lemma LeakWitness(head: Netbuf, tail: Netbuf, q: Pbuf, v: View) returns (ops: seq<Op>, states: seq<World>)
    requires head != tail && v.chain == [q]
    ensures IsRun(ops, states) && states[|ops|].books == Books(map[head := NO_PBUFS], map[], {q}, [])
  {
    ops, states := Loaded(tail, q, v);
    LosesOne(head, tail, q, v);
    var o3, o4 := NewOp(head), ChainOp(head, tail, NO_PBUFS);
    var w3 := Apply(states[|ops|], o3);
    RunSnoc(ops, states, o3, w3);
    ops, states := ops + [o3], states + [w3];
    RunSnoc(ops, states, o4, Apply(w3, o4));
    ops, states := ops + [o4], states + [Apply(w3, o4)];
  }

  lemma FreesOne(nb: Netbuf, q: Pbuf, v: View)
    requires v.chain == [q]
    ensures Emptied(OnePacket(nb, q, v).books, nb) == Books(map[nb := NO_PBUFS], map[], {}, [q])
  {
    assert PbufsOf(v) == {q};
    assert map[q := nb] - {q} == map[];
    assert map[nb := v][nb := NO_PBUFS] == map[nb := NO_PBUFS];
  }

  /** A second allocation that fails: the cursor points at the pbuf just freed. */
  lemma StrandWitness(nb: Netbuf, q: Pbuf, v: View) returns (ops: seq<Op>, states: seq<World>)
    requires v.chain == [q]
    ensures IsRun(ops, states)
    ensures states[|ops|] == World(Books(map[nb := NO_PBUFS], map[], {}, [q]), map[nb := q])
  {
    ops, states := Loaded(nb, q, v);
    FreesOne(nb, q, v);
    var o3 := AllocOp(nb, None, v);
    var w3 := Apply(states[|ops|], o3);
    RunSnoc(ops, states, o3, w3);
    ops, states := ops + [o3], states + [w3];
  }

  /** What being accounted for means for one pbuf. */
  lemma OneFate(b: Books, q: Pbuf)
    requires Accounted(b) && q in Made(b)
    ensures multiset(b.freed)[q] + (if q in b.stray then 1 else 0) + (if q in b.owner then 1 else 0) == 1
    ensures q in b.owner ==> b.owner[q] in b.views && q in b.views[b.owner[q]].chain
    ensures forall nb :: nb in b.views && q in b.views[nb].chain ==> q in b.owner && nb == b.owner[q]
  {
    if q in b.freed {
      CountedOnce(b.freed, q);
    }
  }

  lemma {:induction false} CountedOnce(s: seq<Pbuf>, q: Pbuf)
    requires NoRepeats(s) && q in s
    ensures multiset(s)[q] == 1
  {
    var k :| 0 <= k < |s| && s[k] == q;
    assert s == s[..k] + [q] + s[k + 1..];
    assert q !in s[..k] && q !in s[k + 1..];
  }
}
