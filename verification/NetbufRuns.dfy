/** The functions of lwip-1.3.1/src/api/netbuf.c:55-233 with a record of their calls: every execution
    is a run of NetbufBooks, and what is proved of runs holds of the objects. */
module NetbufRuns {
  import opened Bytes
  import opened NetbufBooks
  import opened Netbufs
  import opened Pbufs

  class RecordedPool {
    const pool: Pool
    ghost var ops: seq<Op>
    ghost var states: seq<World>

    ghost function Now(): World
      requires |states| == |ops| + 1
      reads this
    {
      states[|ops|]
    }

    /** The cursors of all netbufs in use. */
    ghost predicate Cursors(ptr: map<Netbuf, Pbuf?>)
      reads pool, pool.books.views.Keys
    {
      ptr.Keys == pool.books.views.Keys && forall nb :: nb in ptr ==> ptr[nb] == nb.ptr
    }

    ghost predicate Recorded()
      reads this, pool, pool.books.views.Keys
    {
      IsRun(ops, states) && Now().books == pool.books && Cursors(Now().ptr)
    }

    constructor ()
      ensures pool.Valid() && fresh(pool) && Recorded() && ops == []
    {
      pool := new Pool();
      ops, states := [], [EMPTY_WORLD];
    }

    /** All cursors but one. */
    ghost predicate CursorsBut(ptr: map<Netbuf, Pbuf?>, buf: Netbuf)
      reads pool, pool.books.views.Keys
    {
      forall nb :: nb in pool.books.views && nb != buf ==> nb in ptr && ptr[nb] == nb.ptr
    }

    /** The call just made was this one, led to these books, and set this cursor. */
    ghost method Record(e: Op, after: World, buf: Netbuf)
      requires pool.Valid() && IsRun(ops, states) && LeadsFor(Now(), e, after, buf)
      requires after.books == pool.books && CursorsBut(Now().ptr, buf) && (buf in after.ptr ==> after.ptr[buf] == buf.ptr)
      modifies this
      ensures pool.Valid() && Recorded() && ops == old(ops) + [e]
    {
      RunSnoc(ops, states, e, after);
      states := states + [after];
      ops := ops + [e];
    }

    ghost method RecordRefill(e: Op)
      requires pool.Valid() && IsRun(ops, states) && (e.AllocOp? || e.RefOp?)
      requires e.nb in Now().books.views && (e.got.Some? ==> e.got.value !in Made(Now().books) && e.v.chain == [e.got.value])
      requires pool.books == Refilled(Now().books, e.nb, e.got, e.v)
      requires Now().ptr.Keys == Now().books.views.Keys && CursorsBut(Now().ptr, e.nb)
      requires e.nb.ptr == if e.got.Some? then e.got.value else if e.AllocOp? then Now().ptr[e.nb] else null
      modifies this
      ensures pool.Valid() && Recorded() && ops == old(ops) + [e]
    {
      ghost var after := RefillLeads(Now(), e, pool.books);
      Record(e, after, e.nb);
    }

    ghost method RecordChain(head: Netbuf, tail: Netbuf, c: View)
      requires pool.Valid() && IsRun(ops, states)
      requires head in Now().books.views && tail in Now().books.views && head != tail
      requires Joined(Now().books.views[head], Now().books.views[tail], c)
      requires pool.books == Chained(Now().books, head, tail, c)
      requires Now().ptr.Keys == Now().books.views.Keys && CursorsBut(Now().ptr, head)
      requires head.ptr == NetbufBooks.First(c)
      modifies this
      ensures pool.Valid() && Recorded() && ops == old(ops) + [ChainOp(head, tail, c)]
    {
      ghost var after := ChainLeads(Now(), ChainOp(head, tail, c), pool.books);
      Record(ChainOp(head, tail, c), after, head);
    }

    /** A call that only moves a cursor. */
    ghost method RecordMove(e: Op, buf: Netbuf)
      requires pool.Valid() && IsRun(ops, states) && buf in pool.books.views && pool.books == Now().books
      requires e == FirstOp(buf) || (e.NextOp? && e.nb == buf && e.k < |pool.books.views[buf].chain|)
      requires Now().ptr.Keys == Now().books.views.Keys && CursorsBut(Now().ptr, buf)
      requires var chain := pool.books.views[buf].chain;
               if e.FirstOp? then buf.ptr == NetbufBooks.First(pool.books.views[buf])
               else Now().ptr[buf] == chain[e.k] && buf.ptr == chain[if e.k + 1 < |chain| then e.k + 1 else e.k]
      modifies this
      ensures pool.Valid() && Recorded() && ops == old(ops) + [e]
    {
      ghost var after := OtherLeads(Now(), e, buf);
      Record(e, after, buf);
    }

    method New(granted: bool) returns (buf: Netbuf?)
      requires pool.Valid() && Recorded()
      modifies this, pool`books
      ensures pool.Valid() && Recorded() && (buf == null <==> !granted)
      ensures ops == if buf == null then old(ops) else old(ops) + [NewOp(buf)]
    {
      buf := pool.New(granted);
      if buf != null {
        ghost var after := OtherLeads(Now(), NewOp(buf), buf);
        Record(NewOp(buf), after, buf);
      }
    }

    method Delete(buf: Netbuf)
      requires pool.Valid() && Recorded() && buf in pool.books.views
      modifies this, pool, buf, pool.books.views[buf].chain
      ensures pool.Valid() && Recorded() && ops == old(ops) + [DeleteOp(buf)]
    {
      pool.Delete(buf);
      ghost var after := OtherLeads(Now(), DeleteOp(buf), buf);
      Record(DeleteOp(buf), after, buf);
    }

    method CallFree(buf: Netbuf)
      requires pool.Valid() && Recorded() && buf in pool.books.views
      modifies pool, buf, pool.books.views[buf].chain
      ensures pool.Valid() && pool.books == Emptied(old(pool.books), buf)
      ensures buf.ptr == null && CursorsBut(Now().ptr, buf)
    {
      pool.Free(buf);
    }

    method Free(buf: Netbuf)
      requires pool.Valid() && Recorded() && buf in pool.books.views
      modifies this, pool, buf, pool.books.views[buf].chain
      ensures pool.Valid() && Recorded() && ops == old(ops) + [FreeOp(buf)]
    {
      CallFree(buf);
      ghost var after := OtherLeads(Now(), FreeOp(buf), buf);
      Record(FreeOp(buf), after, buf);
    }

    /** The call itself: the netbuf has its new packet, if granted, and no other cursor has moved. */
    method CallAlloc(buf: Netbuf, size: nat, granted: bool)
      returns (data: array?<byte>, ghost got: Option<Pbuf>, ghost v: View)
      requires pool.Valid() && Recorded() && buf in pool.books.views && size < 0x1_0000
      modifies pool, buf, pool.books.views[buf].chain
      ensures pool.Valid() && (data != null <==> granted) && (got.Some? <==> granted)
      ensures got.Some? ==> got.value !in Made(old(pool.books)) && v.chain == [got.value]
      ensures pool.books == Refilled(old(pool.books), buf, got, v)
      ensures buf.ptr == (if got.Some? then got.value else old(buf.ptr)) && CursorsBut(Now().ptr, buf)
    {
      data := pool.AllocIn(buf, size, granted);
      got, v := None, NO_PBUFS;
      if data != null {
        got, v := Some(buf.p), View([buf.p], [size], [size], [data]);
      }
    }

    method Alloc(buf: Netbuf, size: nat, granted: bool)
      returns (data: array?<byte>, ghost got: Option<Pbuf>, ghost v: View)
      requires pool.Valid() && Recorded() && buf in pool.books.views && size < 0x1_0000
      modifies this, pool, buf, pool.books.views[buf].chain
      ensures pool.Valid() && Recorded() && (data != null <==> granted) && (got.Some? <==> granted)
      ensures ops == old(ops) + [AllocOp(buf, got, v)]
    {
      data, got, v := CallAlloc(buf, size, granted);
      RecordRefill(AllocOp(buf, got, v));
    }

    /** The same for netbuf_ref. */
    method CallRef(buf: Netbuf, dataptr: array<byte>, size: nat, granted: bool)
      returns (err: int, ghost got: Option<Pbuf>, ghost v: View)
      requires pool.Valid() && Recorded() && buf in pool.books.views && size < 0x1_0000 && size <= dataptr.Length
      modifies pool, buf, pool.books.views[buf].chain
      ensures pool.Valid() && err == (if granted then ERR_OK else ERR_MEM) && (got.Some? <==> granted)
      ensures got.Some? ==> got.value !in Made(old(pool.books)) && v.chain == [got.value]
      ensures pool.books == Refilled(old(pool.books), buf, got, v)
      ensures buf.ptr == (if got.Some? then got.value else null) && CursorsBut(Now().ptr, buf)
    {
      err := pool.RefIn(buf, dataptr, size, granted);
      got, v := None, NO_PBUFS;
      if granted {
        got, v := Some(buf.p), View([buf.p], [size], [size], [dataptr]);
      }
    }

    method Ref(buf: Netbuf, dataptr: array<byte>, size: nat, granted: bool)
      returns (err: int, ghost got: Option<Pbuf>, ghost v: View)
      requires pool.Valid() && Recorded() && buf in pool.books.views && size < 0x1_0000 && size <= dataptr.Length
      modifies this, pool, buf, pool.books.views[buf].chain
      ensures pool.Valid() && Recorded() && err == (if granted then ERR_OK else ERR_MEM) && (got.Some? <==> granted)
      ensures ops == old(ops) + [RefOp(buf, got, v)]
    {
      err, got, v := CallRef(buf, dataptr, size, granted);
      RecordRefill(RefOp(buf, got, v));
    }

    /** The call itself: the head's cursor is at its first pbuf and no other has moved. */
    method CallChain(head: Netbuf, tail: Netbuf) returns (ghost c: View)
      requires pool.Valid() && Recorded() && head in pool.books.views && tail in pool.books.views && head != tail
      modifies pool`books, head`ptr, tail, pool.books.views[head].chain
      ensures pool.Valid() && head in pool.books.views && c == pool.books.views[head]
      ensures Joined(old(pool.books.views[head]), old(pool.books.views[tail]), c)
      ensures pool.books == Chained(old(pool.books), head, tail, c)
      ensures head.ptr == NetbufBooks.First(c) && CursorsBut(Now().ptr, head)
    {
      pool.ChainIn(head, tail);
      c := pool.books.views[head];
      assert Held(head, c);
      ChainedViews(Now().books, head, tail, c, Now().books.views - {head});
    }

    method Chain(head: Netbuf, tail: Netbuf) returns (ghost c: View)
      requires pool.Valid() && Recorded() && head in pool.books.views && tail in pool.books.views && head != tail
      modifies this, pool`books, head, tail, pool.books.views[head].chain
      ensures pool.Valid() && Recorded() && ops == old(ops) + [ChainOp(head, tail, c)]
    {
      c := CallChain(head, tail);
      RecordChain(head, tail, c);
    }

    method First(buf: Netbuf)
      requires pool.Valid() && Recorded() && buf in pool.books.views
      modifies this, buf
      ensures pool.Valid() && Recorded() && ops == old(ops) + [FirstOp(buf)]
    {
      pool.First(buf);
      assert Held(buf, pool.books.views[buf]);
      RecordMove(FirstOp(buf), buf);
    }

    method Next(buf: Netbuf, ghost k: nat) returns (r: int)
      requires pool.Valid() && Recorded()
      requires buf in pool.books.views && k < |pool.books.views[buf].chain| && buf.ptr == pool.books.views[buf].chain[k]
      modifies this, buf
      ensures pool.Valid() && Recorded() && ops == old(ops) + [NextOp(buf, k)]
      ensures r == (var n := |pool.books.views[buf].chain|; if k + 1 == n then -1 else if k + 2 == n then 1 else 0)
    {
      r := pool.Next(buf, k);
      RecordMove(NextOp(buf, k), buf);
    }

    /** Every pbuf the pool ever gave out is freed, owned or astray; and astray only by chaining a packet
        to an empty netbuf. */
    lemma Accounts()
      requires Recorded()
      ensures Made(pool.books) == Allocated(ops) && (pool.books.stray == {} <==> NeverLeaks(ops, states))
    {
      RunAccounted(ops, states);
    }

    /** Every cursor is null or in its own packet unless an allocation has failed on a netbuf with one. */
    lemma CursorsNow(nb: Netbuf)
      requires Recorded() && nb in pool.books.views && NeverStrands(ops, states)
      ensures pool.CursorOk(nb)
    {
      CursorsExact(ops, states);
      assert CursorsOk(Now());
      assert CursorIn(Now().ptr[nb], Now().books.views[nb]);
    }
  }
}
