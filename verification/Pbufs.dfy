/** Packet buffers: chains of segments linked through next (lwip-1.3.1/src/core/pbuf.c). */
module Pbufs {
  import opened Bytes

  class Pbuf {
    var payload: array<byte>
    var len: nat
    var totLen: nat
    var ref: nat
    var next: Pbuf?

    constructor (payload: array<byte>, len: nat, totLen: nat)
      ensures this.payload == payload && this.len == len && this.totLen == totLen && ref == 1 && next == null
    {
      this.payload, this.len, this.totLen, ref, next := payload, len, totLen, 1, null;
    }
  }

  /** From p, the next pointers run through exactly the pbufs of chain and then end. */
  ghost predicate IsChain(p: Pbuf?, chain: seq<Pbuf>)
    reads chain
  {
    && p == (if chain == [] then null else chain[0])
    && (forall i, j :: 0 <= i < j < |chain| ==> chain[i] != chain[j])
    && (forall i {:trigger chain[i].next} :: 0 <= i < |chain| ==> chain[i].next == if i + 1 < |chain| then chain[i + 1] else null)
  }

  /** Segment i of the chain uses the first lens[i] bytes of mem[i], and no memory is shared. */
  ghost predicate LaidOut(chain: seq<Pbuf>, lens: seq<nat>, mem: seq<array<byte>>)
    reads chain
  {
    && |chain| == |lens| == |mem|
    && (forall i, j :: 0 <= i < j < |mem| ==> mem[i] != mem[j])
    && (forall i :: 0 <= i < |chain| ==> chain[i].len == lens[i] && chain[i].payload == mem[i] && lens[i] <= mem[i].Length)
  }

  /** The first |segments| segments of such a layout hold these byte strings. */
  ghost predicate Holds(mem: seq<array<byte>>, lens: seq<nat>, segments: seq<seq<byte>>)
    reads mem
  {
    && |segments| <= |mem| == |lens|
    && forall i :: 0 <= i < |segments| ==> lens[i] <= mem[i].Length && mem[i][..lens[i]] == segments[i]
  }

  /** A chain laid out in this way and full of these byte strings. */
  ghost predicate Carries(p: Pbuf?, chain: seq<Pbuf>, lens: seq<nat>, mem: seq<array<byte>>, segments: seq<seq<byte>>)
    reads chain, mem
  {
    IsChain(p, chain) && LaidOut(chain, lens, mem) && Holds(mem, lens, segments) && |segments| == |chain|
  }

  /** memcpy of the next segment's worth of a buffer. */
  method MemCpyIn(q: Pbuf, ghost chain: seq<Pbuf>, ghost lens: seq<nat>, ghost mem: seq<array<byte>>,
                  buffer: seq<byte>, l: nat, ghost got: seq<seq<byte>>)
    requires LaidOut(chain, lens, mem) && |got| < |chain| && q == chain[|got|] && l + q.len <= |buffer|
    requires Holds(mem, lens, got)
    modifies mem[|got|]
    ensures Holds(mem, lens, got + [buffer[l..l + lens[|got|]]])
  {
    forall x | 0 <= x < q.len { q.payload[x] := buffer[l + x]; }
  }

  const POOL_BUFSIZE := 256

  /** What the caller wants in front of the data: room for the headers of its layer and those below. */
  datatype Layer = Transport | Ip | Link | Raw

  function Offset(layer: Layer): nat {
    match layer
    case Transport => 54
    case Ip => 34
    case Link => 14
    case Raw => 0
  }

  /** What a first buffer holds behind that offset, aligned to words of four bytes. */
  function Room(layer: Layer): (r: nat)
    ensures 0 < r <= POOL_BUFSIZE
  {
    POOL_BUFSIZE - (Offset(layer) + 3) / 4 * 4
  }

  /** How a length is cut up when the first segment holds up to room bytes and the others a whole buffer. */
  function Lens(room: nat, length: nat): (lens: seq<nat>)
    requires room > 0
    ensures lens != [] && lens[0] == Min(length, room)
    ensures lens == [length] <==> length <= room
    ensures |lens| == 1 <==> length <= room
    decreases length
  {
    if length <= room then [length] else [room] + Lens(POOL_BUFSIZE, length - room)
  }

  function PoolBuffers(layer: Layer, length: nat): nat {
    |Lens(Room(layer), length)|
  }

  /** No segment is longer than its buffer, all but the last fill theirs, and there are as many as the
      length needs. */
  lemma {:induction false} LensFit(room: nat, length: nat)
    requires 0 < room <= POOL_BUFSIZE
    ensures forall i :: 0 <= i < |Lens(room, length)| ==>
              var full := if i == 0 then room else 256;
              Lens(room, length)[i] <= full && (i + 1 < |Lens(room, length)| ==> Lens(room, length)[i] == full)
    ensures room + POOL_BUFSIZE * (|Lens(room, length)| - 2) < length || |Lens(room, length)| == 1
    ensures length <= room + POOL_BUFSIZE * (|Lens(room, length)| - 1)
    decreases length
  {
    if length > room {
      LensFit(POOL_BUFSIZE, length - room);
    }
  }

  /** The bytes that so many buffers of 256 hold: in the first one they start behind the headers of the
      layer, 54, 34, 14 or no bytes rounded up to words. */
  function Capacity(layer: Layer, free: nat): (r: nat)
    ensures free == 0 ==> r == 0
    ensures free > 0 ==> r == match layer
                              case Transport => 256 * free - 56
                              case Ip => 256 * free - 36
                              case Link => 256 * free - 16
                              case Raw => 256 * free
  {
    if free == 0 then 0 else Room(layer) + POOL_BUFSIZE * (free - 1)
  }

  /** A length is granted by so many free buffers if and only if they hold it. */
  lemma GrantedExact(layer: Layer, length: nat, free: nat)
    ensures PoolBuffers(layer, length) <= free <==> free > 0 && length <= Capacity(layer, free)
  {
    LensFit(Room(layer), length);
  }

  lemma {:induction false} SumCons(n: nat, lens: seq<nat>)
    ensures Sum([n] + lens) == n + Sum(lens)
    decreases |lens|
  {
    if lens == [] {
      assert [n] + lens == [] + [n];
      SumSnoc([], n);
    } else {
      var k := |lens| - 1;
      SumCons(n, lens[..k]);
      assert lens == lens[..k] + [lens[k]];
      Assoc([n], lens[..k], [lens[k]]);
      SumSnoc([n] + lens[..k], lens[k]);
    }
  }

  lemma {:induction false} LensSum(room: nat, length: nat)
    requires room > 0
    ensures Sum(Lens(room, length)) == length
    decreases length
  {
    if length > room {
      LensSum(POOL_BUFSIZE, length - room);
      SumCons(room, Lens(POOL_BUFSIZE, length - room));
    } else {
      SumSnoc([], length);
      assert [length] == [] + [length];
    }
  }

  /** Every pbuf has one reference, and the totals fall from the length to rest, behind the last one, by
      as much as each pbuf holds. */
  ghost predicate Counted(chain: seq<Pbuf>, length: nat, rest: nat)
    reads chain`ref, chain`totLen, chain`len
  {
    && chain != [] && chain[0].totLen == length
    && chain[|chain| - 1].totLen == chain[|chain| - 1].len + rest
    && forall i :: 0 <= i < |chain| ==>
         chain[i].ref == 1 && (i + 1 < |chain| ==> chain[i].totLen == chain[i].len + chain[i + 1].totLen)
  }

  /** A pool buffer with so much room, for as much as it can hold of what remains of a packet. */
  method NewSegment(rem: nat, room: nat) returns (q: Pbuf)
    ensures fresh(q) && fresh(q.payload) && q.next == null && q.payload.Length == room
    ensures q.len == Min(rem, room) && q.totLen == rem && q.ref == 1
  {
    var payload := new byte[room];
    q := new Pbuf(payload, Min(rem, room), rem);
  }

  method SetNext(ghost p: Pbuf, last: Pbuf, q: Pbuf,
                 ghost chain: seq<Pbuf>, ghost lens: seq<nat>, ghost mem: seq<array<byte>>)
    requires IsChain(p, chain) && LaidOut(chain, lens, mem) && chain != [] && last == chain[|chain| - 1]
    requires q !in chain && q.next == null && q.len <= q.payload.Length && q.payload !in mem
    modifies last`next
    ensures IsChain(p, chain + [q]) && LaidOut(chain + [q], lens + [q.len], mem + [q.payload])
  {
    last.next := q;
  }

  /** Links q behind the last pbuf of a chain. */
  method Append(ghost p: Pbuf, last: Pbuf, q: Pbuf,
                ghost chain: seq<Pbuf>, ghost lens: seq<nat>, ghost mem: seq<array<byte>>, ghost length: nat, ghost rem: nat)
    requires IsChain(p, chain) && LaidOut(chain, lens, mem) && chain != [] && last == chain[|chain| - 1]
    requires q !in chain && q.next == null && q.len <= q.payload.Length && q.payload !in mem
    requires Counted(chain, length, rem) && q.ref == 1 && q.totLen == rem && q.len <= rem
    modifies last`next
    ensures IsChain(p, chain + [q]) && LaidOut(chain + [q], lens + [q.len], mem + [q.payload])
    ensures Counted(chain + [q], length, rem - q.len)
  {
    SetNext(p, last, q, chain, lens, mem);
  }

  predicate CutSoFar(room: nat, length: nat, lens: seq<nat>, rem: nat)
    requires room > 0
  {
    Lens(room, length) == lens + if rem == 0 then [] else Lens(POOL_BUFSIZE, rem)
  }

  lemma CutNext(room: nat, length: nat, lens: seq<nat>, rem: nat)
    requires room > 0 && rem > 0 && CutSoFar(room, length, lens, rem)
    ensures var n := Min(rem, POOL_BUFSIZE); CutSoFar(room, length, lens + [n], rem - n)
  {
    var n := Min(rem, POOL_BUFSIZE);
    if rem > POOL_BUFSIZE {
      Assoc(lens, [n], Lens(POOL_BUFSIZE, rem - n));
    }
  }

  /** A chain that takes length bytes but for the last rem, each segment filled in turn. */
  ghost predicate Built(p: Pbuf?, chain: seq<Pbuf>, lens: seq<nat>, mem: seq<array<byte>>, room: nat, length: nat, rem: nat)
    requires room > 0
    reads chain
  {
    && IsChain(p, chain) && LaidOut(chain, lens, mem) && chain != [] && mem[0].Length == room
    && Counted(chain, length, rem) && CutSoFar(room, length, lens, rem)
  }

  method Start(length: nat, room: nat) returns (p: Pbuf)
    requires room > 0
    ensures fresh(p) && fresh(p.payload) && p.len == Min(length, room)
    ensures Built(p, [p], [p.len], [p.payload], room, length, length - p.len)
  {
    p := NewSegment(length, room);
  }

  /** A further pool buffer at the end of the chain. */
  method Grow(ghost p: Pbuf, last: Pbuf, rem: nat, ghost chain: seq<Pbuf>, ghost lens: seq<nat>, ghost mem: seq<array<byte>>,
              ghost room: nat, ghost length: nat)
    returns (q: Pbuf)
    requires room > 0 && rem > 0 && Built(p, chain, lens, mem, room, length, rem) && last == chain[|chain| - 1]
    modifies last`next
    ensures fresh(q) && fresh(q.payload) && q.len == Min(rem, POOL_BUFSIZE)
    ensures Built(p, chain + [q], lens + [q.len], mem + [q.payload], room, length, rem - q.len)
  {
    q := NewSegment(rem, POOL_BUFSIZE);
    Append(p, last, q, chain, lens, mem, length, rem);
    CutNext(room, length, lens, rem);
  }

  /** All but the first pbuf, and their memory, are among these. */
  ghost predicate Among(chain: seq<Pbuf>, mem: seq<array<byte>>, made: set<object>) {
    |chain| == |mem| && forall i :: 1 <= i < |chain| ==> chain[i] in made && mem[i] in made
  }

  lemma AmongSnoc(chain: seq<Pbuf>, mem: seq<array<byte>>, made: set<object>, q: Pbuf, m: array<byte>)
    requires Among(chain, mem, made)
    ensures Among(chain + [q], mem + [m], made + {q, m})
  {
  }

  /** One turn of the allocation loop. */
  method TakeOne(ghost p: Pbuf, last: Pbuf, rem: nat, ghost chain: seq<Pbuf>, ghost lens: seq<nat>, ghost mem: seq<array<byte>>,
                 ghost made: set<object>, ghost room: nat, ghost length: nat)
    returns (q: Pbuf, ghost chain': seq<Pbuf>, ghost lens': seq<nat>, ghost mem': seq<array<byte>>, ghost made': set<object>)
    requires room > 0 && rem > 0 && Built(p, chain, lens, mem, room, length, rem) && last == chain[|chain| - 1]
    requires Among(chain, mem, made)
    modifies last`next
    ensures q.len <= rem && Built(p, chain', lens', mem', room, length, rem - q.len) && q == chain'[|chain'| - 1]
    ensures |chain'| == |chain| + 1 && mem'[0] == mem[0]
    ensures Among(chain', mem', made') && q in made' && fresh(made' - made)
  {
    q := Grow(p, last, rem, chain, lens, mem, room, length);
    AmongSnoc(chain, mem, made, q, q.payload);
    made' := made + {q, q.payload};
    chain', lens', mem' := chain + [q], lens + [q.len], mem + [q.payload];
  }

  /** The allocation loop behind the first buffer: buffers are taken one by one until the length is
      reached or the pool is empty. */
  method TakeRest(first: Pbuf, length: nat, ghost room: nat, free: nat)
    returns (rem: nat, left: nat, ghost chain: seq<Pbuf>, ghost lens: seq<nat>, ghost mem: seq<array<byte>>,
             ghost made: set<object>)
    requires room > 0 && first.len <= length
    requires Built(first, [first], [first.len], [first.payload], room, length, length - first.len)
    modifies first`next
    ensures Built(first, chain, lens, mem, room, length, rem) && (rem > 0 ==> left == 0)
    ensures left + |chain| == free + 1 && mem[0] == old(first.payload)
    ensures Among(chain, mem, made) && fresh(made)
  {
    chain, lens, mem := [first], [first.len], [first.payload];
    left, rem := free, length - first.len;
    made := {};
    var r := first;
    while rem > 0 && left > 0
      invariant Built(first, chain, lens, mem, room, length, rem) && r == chain[|chain| - 1]
      invariant left + |chain| == free + 1 && mem[0] == old(first.payload)
      invariant Among(chain, mem, made) && fresh(made) && (r == first || r in made)
      decreases left
    {
      var q;
      q, chain, lens, mem, made := TakeOne(first, r, rem, chain, lens, mem, made, room, length);
      left := left - 1;
      rem := rem - q.len;
      r := q;
    }
  }

  /** The chain as a whole: one that cannot be completed goes back. */
  method BuildChain(length: nat, room: nat, free: nat)
    returns (p: Pbuf?, left: nat, ghost chain: seq<Pbuf>, ghost lens: seq<nat>, ghost mem: seq<array<byte>>)
    requires 0 < room <= POOL_BUFSIZE
    ensures p != null <==> |Lens(room, length)| <= free
    ensures left == if p == null then free else free - |chain|
    ensures p != null ==>
              && IsChain(p, chain) && LaidOut(chain, lens, mem) && Counted(chain, length, 0)
              && lens == Lens(room, length) && Sum(lens) == length
              && fresh(chain) && fresh(mem) && mem[0].Length == room
  {
    p, left, chain, lens, mem := null, free, [], [], [];
    if left == 0 { return; }
    var first := Start(length, room);
    var rem;
    ghost var made;
    rem, left, chain, lens, mem, made := TakeRest(first, length, room, free - 1);
    if rem > 0 {
      left := free;
    } else {
      p := first;
      LensSum(room, length);
    }
  }

  /** pbuf_alloc(layer, length, PBUF_POOL) with that many buffers free in the pool: a fresh chain cut up
      as the length demands, or nothing when it needs more buffers than there are. */
  method AllocPool(layer: Layer, length: nat, free: nat)
    returns (p: Pbuf?, left: nat, ghost chain: seq<Pbuf>, ghost lens: seq<nat>, ghost mem: seq<array<byte>>)
    ensures p != null <==> PoolBuffers(layer, length) <= free
    ensures left == if p == null then free else free - |chain|
    ensures p != null ==>
              && IsChain(p, chain) && LaidOut(chain, lens, mem) && Counted(chain, length, 0)
              && |chain| == PoolBuffers(layer, length) && lens == Lens(Room(layer), length) && Sum(lens) == length
              && fresh(chain) && fresh(mem) && mem[0].Length == Room(layer)
    ensures p != null ==> (p.len == p.totLen <==> PoolBuffers(layer, length) == 1)
    ensures p != null <==> free > 0 && length <= Capacity(layer, free)
    ensures p != null ==> p.totLen == length && p.ref == 1 && p.len == Min(length, Capacity(layer, 1))
    ensures p != null ==> forall i :: 1 <= i < |chain| - 1 ==> lens[i] == 256
  {
    GrantedExact(layer, length, free);
    LensFit(Room(layer), length);
    p, left, chain, lens, mem := BuildChain(length, Room(layer), free);
  }
}
