/** The receive descriptor ring shared by CPU and DMA, as a transition system: every interleaving of
    the DMA engine with the CPU's receive path (lwip-1.3.1/port/ethernetif.c:228-272, 369-419). */
module RxRing {
  import opened Bytes
  import opened RingIndex

  /** A descriptor: the fields of its status word (OWN, error summary, first and last segment,
      frame length with CRC) and the buffer it points to. */
  datatype Desc = Desc(own: bool, es: bool, fs: bool, ls: bool, fl: nat, buf: seq<byte>)

  /** An error-free frame that fits one descriptor. */
  predicate Good(d: Desc) {
    !d.es && d.ls && d.fs
  }

  /** What the DMA engine may leave behind: a frame inside its buffer, and a good one includes its
      four CRC bytes. */
  predicate FromDma(d: Desc) {
    !d.own && |d.buf| == BUF_SIZE && (Good(d) ==> 4 <= d.fl <= BUF_SIZE)
  }

  /** The frame length the driver hands to the stack: 32-bit arithmetic stored in 16 bits. */
  function FrameLen(d: Desc): nat {
    if Good(d) then U16(d.fl - 4) else 0
  }

  /** What the stack should see of a frame: all but the CRC, and nothing of a bad one. */
  function Payload(d: Desc): (r: seq<byte>)
    requires FromDma(d)
    ensures |r| == FrameLen(d)
    ensures if !d.es && d.fs && d.ls then |r| + 4 == d.fl && r == d.buf[..|r|] else r == []
  {
    if Good(d) then d.buf[..d.fl - 4] else []
  }

  /** Where the receive path stands: between frames; holding a descriptor; or copying it, segment
      after segment, into a chain with the given segment lengths (none when allocation failed). */
  datatype Cpu =
    | Idle
    | Taken(d: nat, len: nat)
    | Filling(d: nat, len: nat, lens: Option<seq<nat>>, got: seq<seq<byte>>)

  /** The ring, both cursors, the receive path, and the history: the frames the DMA completed and
      where, the frames the CPU took, the descriptors it gave back, and what it delivered for each. */
  datatype Rx = Rx(
    desc: seq<Desc>, get: nat, dma: nat, cpu: Cpu,
    completed: seq<Desc>, fills: seq<nat>,
    taken: seq<Desc>, returned: seq<nat>, delivered: seq<Option<seq<byte>>>)

  datatype Action = Dma(d: Desc) | Take | Alloc(lens: Option<seq<nat>>) | Copy | Release

  const FREE := Desc(true, false, false, false, 0, [])

  function Init(n: nat): Rx {
    Rx(seq(n, _ => FREE), 0, 0, Idle, [], [], [], [], [])
  }

  predicate Shape(s: Rx) {
    s.get < |s.desc| && s.dma < |s.desc| && (!s.cpu.Idle? ==> s.cpu.d < |s.desc|)
  }

  /** The offset of the next segment in the frame, and whether it lies inside the buffer. */
  function Cursor(c: Cpu): nat
    requires c.Filling? && c.lens.Some? && |c.got| <= |c.lens.value|
  {
    Sum(c.lens.value[..|c.got|])
  }

  predicate CanCopy(s: Rx)
    requires Shape(s)
  {
    s.cpu.Filling? && s.cpu.lens.Some? && |s.cpu.got| < |s.cpu.lens.value|
    && Cursor(s.cpu) + s.cpu.lens.value[|s.cpu.got|] <= |s.desc[s.cpu.d].buf|
  }

  predicate CanRelease(s: Rx) {
    s.cpu.Filling? && (s.cpu.lens.Some? ==> |s.cpu.got| == |s.cpu.lens.value|)
  }

  /** One step of either party; one that is not enabled changes nothing. */
  function Step(s: Rx, a: Action): (r: Rx)
    requires Shape(s)
    ensures Shape(r) && |r.desc| == |s.desc|
  {
    var n := |s.desc|;
    match a
    case Dma(d) =>
      if !FromDma(d) || !s.desc[s.dma].own then s else
        s.(desc := s.desc[s.dma := d], dma := Next(s.dma, n), completed := s.completed + [d], fills := s.fills + [s.dma])
    case Take =>
      if !s.cpu.Idle? || s.desc[s.get].own then s else
        var d := s.desc[s.get];
        s.(cpu := Taken(s.get, FrameLen(d)), get := Next(s.get, n), taken := s.taken + [d])
    case Alloc(lens) =>
      if !s.cpu.Taken? || (lens.Some? && Sum(lens.value) != s.cpu.len) then s else
        s.(cpu := Filling(s.cpu.d, s.cpu.len, lens, []))
    case Copy =>
      if !CanCopy(s) then s else
        var l := Cursor(s.cpu);
        s.(cpu := s.cpu.(got := s.cpu.got + [s.desc[s.cpu.d].buf[l..l + s.cpu.lens.value[|s.cpu.got|]]]))
    case Release =>
      if !CanRelease(s) then s else
        var out := if s.cpu.lens.None? then None else Some(Flatten(s.cpu.got));
        s.(desc := s.desc[s.cpu.d := FREE.(buf := s.desc[s.cpu.d].buf)], cpu := Idle,
           returned := s.returned + [s.cpu.d], delivered := s.delivered + [out])
  }

  function Run(s: Rx, acts: seq<Action>): (r: Rx)
    requires Shape(s)
    ensures Shape(r) && |r.desc| == |s.desc|
    decreases |acts|
  {
    if acts == [] then s else Step(Run(s, acts[..|acts| - 1]), acts[|acts| - 1])
  }

  lemma RunSnoc(s: Rx, acts: seq<Action>, a: Action)
    requires Shape(s)
    ensures Run(s, acts + [a]) == Step(Run(s, acts), a)
  {
    assert (acts + [a])[..|acts|] == acts;
  }

  // ----- The invariant -----

  function Waiting(s: Rx): int {
    |s.completed| - |s.taken|
  }

  function Held(s: Rx): nat {
    if s.cpu.Idle? then 0 else 1
  }

  /** Filled descriptors the CPU has not taken lie in one circular run from its cursor, the one it
      holds lies just before it, and all the others belong to the DMA. */
  ghost predicate Ownership(s: Rx)
    requires Shape(s)
  {
    var n, r := |s.desc|, Waiting(s);
    && 0 <= r && r + Held(s) <= n
    && s.dma == At(s.get, r, n)
    && (Held(s) == 1 ==> Off(s.get, s.cpu.d, n) == n - 1)
    && forall i :: 0 <= i < n ==> (s.desc[i].own <==> Off(s.get, i, n) >= r && !(Held(s) == 1 && i == s.cpu.d))
  }

  /** Descriptor i, if it waits, holds the frame that is as far behind in the history. */
  predicate SlotHolds(s: Rx, i: nat)
    requires Shape(s) && i < |s.desc| && |s.fills| == |s.completed| && Waiting(s) >= 0
  {
    var k := Off(s.get, i, |s.desc|);
    k < Waiting(s) ==> s.desc[i] == s.completed[|s.taken| + k] && s.fills[|s.taken| + k] == i
  }

  /** Every waiting descriptor still holds exactly the frame the DMA completed there, in order. */
  ghost predicate Fifo(s: Rx)
    requires Shape(s)
  {
    var n, t := |s.desc|, |s.taken|;
    && |s.fills| == |s.completed| && Waiting(s) >= 0
    && s.taken == s.completed[..t]
    && (forall i :: 0 <= i < n ==> SlotHolds(s, i))
    && (forall i :: 0 <= i < |s.completed| ==> FromDma(s.completed[i]))
  }

  /** The held descriptor still holds the frame taken last, and what was copied of it is a prefix. */
  ghost predicate HeldFrame(s: Rx)
    requires Shape(s)
  {
    s.cpu.Idle? ||
    (&& |s.taken| > 0 && |s.fills| >= |s.taken|
     && var d := s.taken[|s.taken| - 1];
        && FromDma(d) && s.desc[s.cpu.d] == d && s.cpu.len == FrameLen(d)
        && s.fills[|s.taken| - 1] == s.cpu.d
        && (s.cpu.Filling? && s.cpu.lens.Some? ==>
              && |s.cpu.got| <= |s.cpu.lens.value|
              && Sum(s.cpu.lens.value) == s.cpu.len
              && Cursor(s.cpu) <= s.cpu.len
              && Flatten(s.cpu.got) == Payload(d)[..Cursor(s.cpu)]))
  }

  /** Released descriptors are the filled ones in order, each once, and each frame was delivered
      whole unless no memory was found for it. */
  ghost predicate Returned(s: Rx) {
    var m := |s.taken| - Held(s);
    && |s.returned| == m == |s.delivered| && m <= |s.fills|
    && s.returned == s.fills[..m]
    && forall i :: 0 <= i < m ==> FromDma(s.taken[i]) && (s.delivered[i] == None || s.delivered[i] == Some(Payload(s.taken[i])))
  }

  ghost predicate Inv(s: Rx) {
    Shape(s) && Ownership(s) && Fifo(s) && HeldFrame(s) && Returned(s)
  }

  lemma InvInit(n: nat)
    requires n > 0
    ensures Inv(Init(n))
  {
  }

  lemma DmaKeepsOwnership(s: Rx, d: Desc)
    requires Shape(s) && Ownership(s)
    ensures Ownership(Step(s, Dma(d)))
  {
  }

  lemma DmaKeepsFifo(s: Rx, d: Desc)
    requires Shape(s) && Ownership(s) && Fifo(s)
    ensures Fifo(Step(s, Dma(d)))
  {
    var s', n := Step(s, Dma(d)), |s.desc|;
    if s' != s {
      assert Off(s.get, s.dma, n) == Waiting(s);
      forall i | 0 <= i < n ensures SlotHolds(s', i) {
        assert SlotHolds(s, i);
      }
    }
  }

  lemma DmaKeepsHeld(s: Rx, d: Desc)
    requires Shape(s) && Ownership(s) && HeldFrame(s)
    ensures HeldFrame(Step(s, Dma(d)))
  {
  }

  lemma DmaKeepsReturned(s: Rx, d: Desc)
    requires Shape(s) && Returned(s)
    ensures Returned(Step(s, Dma(d)))
  {
  }

  lemma TakeKeepsOwnership(s: Rx)
    requires Shape(s) && Ownership(s)
    ensures Ownership(Step(s, Take))
  {
  }

  lemma TakeKeepsFifo(s: Rx)
    requires Shape(s) && Ownership(s) && Fifo(s)
    ensures Fifo(Step(s, Take))
  {
    var s', n := Step(s, Take), |s.desc|;
    if s' != s {
      assert SlotHolds(s, s.get) && Off(s.get, s.get, n) == 0;
      forall i | 0 <= i < n ensures SlotHolds(s', i) {
        assert SlotHolds(s, i);
      }
    }
  }

  lemma TakeKeepsHeld(s: Rx)
    requires Shape(s) && Ownership(s) && Fifo(s) && HeldFrame(s)
    ensures HeldFrame(Step(s, Take))
  {
    assert SlotHolds(s, s.get) && Off(s.get, s.get, |s.desc|) == 0;
  }

  lemma TakeKeepsReturned(s: Rx)
    requires Shape(s) && Returned(s) && Fifo(s)
    ensures Returned(Step(s, Take))
  {
  }

  lemma AllocKeepsHeld(s: Rx, lens: Option<seq<nat>>)
    requires Shape(s) && HeldFrame(s)
    ensures HeldFrame(Step(s, Alloc(lens)))
  {
  }

  /** A step of the receive path that keeps its descriptor and touches nothing else of the ring. */
  lemma CpuOnly(s: Rx, cpu: Cpu)
    requires Shape(s) && Ownership(s) && Fifo(s) && Returned(s)
    requires s.cpu.Idle? <==> cpu.Idle?
    requires !cpu.Idle? ==> cpu.d == s.cpu.d
    ensures var s' := s.(cpu := cpu); Shape(s') && Ownership(s') && Fifo(s') && Returned(s')
  {
    var s' := s.(cpu := cpu);
    forall i | 0 <= i < |s.desc| ensures SlotHolds(s', i) {
      assert SlotHolds(s, i);
    }
  }

  lemma AllocKeepsInv(s: Rx, lens: Option<seq<nat>>)
    requires Inv(s)
    ensures Inv(Step(s, Alloc(lens)))
  {
    AllocKeepsHeld(s, lens);
    CpuOnly(s, Step(s, Alloc(lens)).cpu);
  }

  lemma CopyKeepsInv(s: Rx)
    requires Inv(s)
    ensures Inv(Step(s, Copy))
  {
    CopyKeepsHeld(s);
    CpuOnly(s, Step(s, Copy).cpu);
  }

  lemma CopyKeepsHeld(s: Rx)
    requires Shape(s) && HeldFrame(s)
    ensures HeldFrame(Step(s, Copy))
  {
    if CanCopy(s) {
      var lens, k, d := s.cpu.lens.value, |s.cpu.got|, s.taken[|s.taken| - 1];
      SumPrefix(lens, k + 1);
      assert lens[..k + 1][..k] == lens[..k];
      var l := Cursor(s.cpu);
      FlattenSnoc(s.cpu.got, s.desc[s.cpu.d].buf[l..l + lens[k]]);
      PayloadGrows(d, l, lens[k]);
    }
  }

  lemma PayloadGrows(d: Desc, l: nat, m: nat)
    requires FromDma(d) && l + m <= FrameLen(d)
    ensures Payload(d)[..l + m] == Payload(d)[..l] + d.buf[l..l + m]
  {
  }

  lemma ReleaseKeepsOwnership(s: Rx)
    requires Shape(s) && Ownership(s)
    ensures Ownership(Step(s, Release))
  {
  }

  lemma ReleaseKeepsFifo(s: Rx)
    requires Shape(s) && Ownership(s) && Fifo(s)
    ensures Fifo(Step(s, Release))
  {
    var s', n := Step(s, Release), |s.desc|;
    if s' != s {
      forall i | 0 <= i < n ensures SlotHolds(s', i) {
        assert SlotHolds(s, i);
      }
    }
  }

  lemma ReleaseKeepsReturned(s: Rx)
    requires Shape(s) && HeldFrame(s) && Returned(s)
    ensures Returned(Step(s, Release))
  {
    if CanRelease(s) {
      var d := s.taken[|s.taken| - 1];
      if s.cpu.lens.Some? {
        assert s.cpu.lens.value[..|s.cpu.got|] == s.cpu.lens.value;
        assert Payload(d)[..s.cpu.len] == Payload(d);
      }
    }
  }

  lemma DmaKeepsInv(s: Rx, d: Desc)
    requires Inv(s)
    ensures Inv(Step(s, Dma(d)))
  {
    DmaKeepsOwnership(s, d);
    DmaKeepsFifo(s, d);
    DmaKeepsHeld(s, d);
    DmaKeepsReturned(s, d);
  }

  lemma TakeKeepsInv(s: Rx)
    requires Inv(s)
    ensures Inv(Step(s, Take))
  {
    TakeKeepsOwnership(s);
    TakeKeepsFifo(s);
    TakeKeepsHeld(s);
    TakeKeepsReturned(s);
  }

  lemma ReleaseKeepsInv(s: Rx)
    requires Inv(s)
    ensures Inv(Step(s, Release))
  {
    ReleaseKeepsOwnership(s);
    ReleaseKeepsFifo(s);
    ReleaseKeepsReturned(s);
  }

  lemma StepKeepsInv(s: Rx, a: Action)
    requires Inv(s)
    ensures Inv(Step(s, a))
  {
    match a
    case Dma(d) => DmaKeepsInv(s, d);
    case Take => TakeKeepsInv(s);
    case Alloc(lens) => AllocKeepsInv(s, lens);
    case Copy => CopyKeepsInv(s);
    case Release => ReleaseKeepsInv(s);
  }

  lemma {:induction false} RunKeepsInv(s: Rx, acts: seq<Action>)
    requires Inv(s)
    ensures Inv(Run(s, acts))
    decreases |acts|
  {
    if acts != [] {
      RunKeepsInv(s, acts[..|acts| - 1]);
      StepKeepsInv(Run(s, acts[..|acts| - 1]), acts[|acts| - 1]);
    }
  }

  // ----- What every run guarantees -----

  /** The waiting frames, read off the descriptors: from the k-th behind the CPU cursor up to the
      first one the DMA owns, or the one the CPU holds. */
  function Unread(s: Rx, k: nat): seq<Desc>
    requires Shape(s)
    decreases |s.desc| - k
  {
    var n := |s.desc|;
    if k + Held(s) >= n || s.desc[At(s.get, k, n)].own then [] else [s.desc[At(s.get, k, n)]] + Unread(s, k + 1)
  }

  function UnreadAt(s: Rx, k: nat): seq<nat>
    requires Shape(s)
    decreases |s.desc| - k
  {
    var n := |s.desc|;
    if k + Held(s) >= n || s.desc[At(s.get, k, n)].own then [] else [At(s.get, k, n)] + UnreadAt(s, k + 1)
  }

  lemma WaitingSlot(s: Rx, k: nat)
    requires Shape(s) && Ownership(s) && Fifo(s) && k + Held(s) < |s.desc|
    ensures var i := At(s.get, k, |s.desc|);
            && (s.desc[i].own <==> k >= Waiting(s))
            && (k < Waiting(s) ==> s.desc[i] == s.completed[|s.taken| + k] && s.fills[|s.taken| + k] == i)
  {
    var n := |s.desc|;
    var i := At(s.get, k, n);
    assert Off(s.get, i, n) == k && SlotHolds(s, i);
  }

  ghost predicate Bounded(s: Rx) {
    0 <= Waiting(s) && Waiting(s) + Held(s) <= |s.desc| && |s.fills| == |s.completed|
  }

  lemma {:induction false} UnreadIsTail(s: Rx, k: nat)
    requires Shape(s) && Ownership(s) && Fifo(s) && k <= Waiting(s)
    ensures Bounded(s)
    ensures Unread(s, k) == s.completed[|s.taken| + k..]
    ensures UnreadAt(s, k) == s.fills[|s.taken| + k..]
    decreases Waiting(s) - k
  {
    assert Bounded(s);
    if k < Waiting(s) {
      WaitingSlot(s, k);
      UnreadIsTail(s, k + 1);
      SplitFirst(s.completed, |s.taken| + k);
      SplitFirst(s.fills, |s.taken| + k);
    } else if k + Held(s) < |s.desc| {
      WaitingSlot(s, k);
    }
  }

  lemma SplitFirst<T>(xs: seq<T>, k: nat)
    requires k < |xs|
    ensures xs[k..] == [xs[k]] + xs[k + 1..]
  {
  }

  /** The frames the DMA completed are, in order, those the CPU took followed by those still on the
      descriptors; every fill of a descriptor is given back exactly once and in order, or is held, or
      still waits; and every frame given back was delivered byte for byte, without its CRC, unless
      the pbuf pool was empty. */
  lemma RxFifo(n: nat, acts: seq<Action>)
    requires n > 0
    ensures var s := Run(Init(n), acts);
            && s.completed == s.taken + Unread(s, 0)
            && s.fills == s.returned + (if s.cpu.Idle? then [] else [s.cpu.d]) + UnreadAt(s, 0)
            && |s.delivered| + Held(s) == |s.taken|
            && forall i :: 0 <= i < |s.delivered| ==>
                 FromDma(s.taken[i]) && (s.delivered[i] == None || s.delivered[i] == Some(Payload(s.taken[i])))
  {
    InvInit(n);
    RunKeepsInv(Init(n), acts);
    FramesInOrder(Run(Init(n), acts));
    FillsReturned(Run(Init(n), acts));
  }

  lemma FramesInOrder(s: Rx)
    requires Shape(s) && Ownership(s) && Fifo(s)
    ensures s.completed == s.taken + Unread(s, 0)
  {
    UnreadIsTail(s, 0);
    SplitAt(s.completed, |s.taken|);
  }

  lemma FillsReturned(s: Rx)
    requires Inv(s)
    ensures s.fills == s.returned + (if s.cpu.Idle? then [] else [s.cpu.d]) + UnreadAt(s, 0)
  {
    UnreadIsTail(s, 0);
    SplitAt(s.fills, |s.taken|);
    if !s.cpu.Idle? {
      SplitFirst(s.fills[..|s.taken|], |s.taken| - 1);
      assert s.fills[..|s.taken|] == s.returned + [s.cpu.d];
    } else {
      assert s.returned + [] == s.returned;
    }
  }

  lemma SplitAt<T>(xs: seq<T>, k: nat)
    requires k <= |xs|
    ensures xs == xs[..k] + xs[k..]
  {
  }

  /** In every reachable state the DMA can store a frame if and only if a descriptor is neither
      waiting nor held; storing it appends to what waits and leaves the held descriptor alone. */
  lemma DmaNeverOverwrites(n: nat, acts: seq<Action>, d: Desc)
    requires n > 0 && FromDma(d)
    ensures var s := Run(Init(n), acts); var s' := Step(s, Dma(d));
            && (s' != s <==> |Unread(s, 0)| + Held(s) < n)
            && (s' != s ==> Unread(s', 0) == Unread(s, 0) + [d])
            && (!s.cpu.Idle? ==>
                  s'.cpu == s.cpu && s.taken != [] && s'.desc[s.cpu.d] == s.desc[s.cpu.d] == s.taken[|s.taken| - 1])
  {
    InvInit(n);
    RunKeepsInv(Init(n), acts);
    DmaStores(Run(Init(n), acts), d);
  }

  lemma DmaStores(s: Rx, d: Desc)
    requires Inv(s) && FromDma(d)
    ensures var s' := Step(s, Dma(d));
            && (s' != s <==> |Unread(s, 0)| + Held(s) < |s.desc|)
            && (s' != s ==> Unread(s', 0) == Unread(s, 0) + [d])
            && (!s.cpu.Idle? ==>
                  s'.cpu == s.cpu && s.taken != [] && s'.desc[s.cpu.d] == s.desc[s.cpu.d] == s.taken[|s.taken| - 1])
  {
    DmaEnabled(s, d);
    UnreadIsTail(s, 0);
    if !s.cpu.Idle? { HeldUntouched(s, d); }
    if Step(s, Dma(d)) != s {
      StepKeepsInv(s, Dma(d));
      UnreadIsTail(Step(s, Dma(d)), 0);
      TailGrows(s.completed, |s.taken|, d);
    }
  }

  lemma TailGrows<T>(xs: seq<T>, k: nat, x: T)
    requires k <= |xs|
    ensures (xs + [x])[k..] == xs[k..] + [x]
  {
  }

  lemma HeldUntouched(s: Rx, d: Desc)
    requires Inv(s) && !s.cpu.Idle?
    ensures var s' := Step(s, Dma(d));
            s'.cpu == s.cpu && s.taken != [] && s'.desc[s.cpu.d] == s.desc[s.cpu.d] == s.taken[|s.taken| - 1]
  {
  }

  lemma DmaEnabled(s: Rx, d: Desc)
    requires Inv(s) && FromDma(d)
    ensures Bounded(s)
    ensures var s' := Step(s, Dma(d));
            && (s' != s <==> Waiting(s) + Held(s) < |s.desc|)
            && (s' != s ==> s'.completed == s.completed + [d] && s'.taken == s.taken)
  {
  }

  /** What ETH_GetRxPktSize reports in a state. */
  function PktSize(s: Rx): nat
    requires Shape(s)
  {
    var d := s.desc[s.get];
    if !d.own && Good(d) then d.fl else 0
  }

  lemma SizeExact(s: Rx)
    requires Inv(s) && s.cpu.Idle?
    ensures PktSize(s) == 0 <==> Unread(s, 0) == [] || !Good(Unread(s, 0)[0])
  {
    WaitingSlot(s, 0);
  }

  // ----- Runs of the interrupt handler -----

  /** A frame is taken only after the polled size was not 0, which is how the handler calls the receive
      path. */
  predicate Allowed(s: Rx, a: Action)
    requires Shape(s)
  {
    a.Take? && s.cpu.Idle? ==> PktSize(s) != 0
  }

  predicate Guarded(s: Rx, acts: seq<Action>)
    requires Shape(s)
    decreases |acts|
  {
    acts == [] ||
    var before := acts[..|acts| - 1];
    Guarded(s, before) && Allowed(Run(s, before), acts[|acts| - 1])
  }

  predicate AllGood(ds: seq<Desc>) {
    forall i :: 0 <= i < |ds| ==> Good(ds[i])
  }

  lemma {:induction false} OnlyGoodTaken(s: Rx, acts: seq<Action>)
    requires Shape(s) && AllGood(s.taken) && Guarded(s, acts)
    ensures AllGood(Run(s, acts).taken)
    decreases |acts|
  {
    if acts != [] {
      OnlyGoodTaken(s, acts[..|acts| - 1]);
    }
  }

  /** The handler takes good frames only; and whenever it comes to rest, it has taken every frame the
      DMA completed if and only if all of them were good. */
  lemma EveryFrameTaken(n: nat, acts: seq<Action>)
    requires n > 0 && Guarded(Init(n), acts)
    ensures var s := Run(Init(n), acts);
            && AllGood(s.taken)
            && (s.cpu.Idle? && PktSize(s) == 0 ==> (s.taken == s.completed <==> AllGood(s.completed)))
  {
    var s := Run(Init(n), acts);
    OnlyGoodTaken(Init(n), acts);
    InvInit(n);
    RunKeepsInv(Init(n), acts);
    FramesInOrder(s);
    if s.cpu.Idle? && PktSize(s) == 0 {
      SizeExact(s);
      RestOrStuck(s.taken, Unread(s, 0));
    }
  }

  lemma RestOrStuck(taken: seq<Desc>, unread: seq<Desc>)
    requires AllGood(taken) && (unread == [] || !Good(unread[0]))
    ensures taken == taken + unread <==> AllGood(taken + unread)
  {
    if unread != [] {
      assert (taken + unread)[|taken|] == unread[0];
    } else {
      assert taken + unread == taken;
    }
  }

  ghost predicate BadHead(s: Rx, d: Desc) {
    Inv(s) && Unread(s, 0) != [] && Unread(s, 0)[0] == d && !Good(d)
  }

  /** A bad frame at the head blocks the receive path for good: in every run of the handler from there,
      whatever both parties do, the size it polls stays 0, the bad frame stays first and no frame is
      ever taken again. */
  lemma {:induction false} BadFrameBlocks(s: Rx, d: Desc, acts: seq<Action>)
    requires BadHead(s, d) && Guarded(s, acts)
    ensures var s' := Run(s, acts); BadHead(s', d) && s'.taken == s.taken && PktSize(s') == 0
    decreases |acts|
  {
    if acts == [] {
      WaitingSlot(s, 0);
    } else {
      var n := |acts| - 1;
      BadFrameBlocks(s, d, acts[..n]);
      HeadStays(Run(s, acts[..n]), d, acts[n]);
    }
  }

  lemma HeadOfWaiting(s: Rx)
    requires Inv(s)
    ensures Unread(s, 0) != [] <==> Waiting(s) > 0
    ensures Waiting(s) > 0 ==> Unread(s, 0)[0] == s.completed[|s.taken|] == s.desc[s.get] && !s.desc[s.get].own
  {
    if Waiting(s) > 0 || Held(s) < |s.desc| { WaitingSlot(s, 0); }
  }

  lemma NothingTaken(s: Rx, a: Action)
    requires Shape(s) && Allowed(s, a) && PktSize(s) == 0
    ensures var s' := Step(s, a); s'.taken == s.taken && s.completed <= s'.completed
  {
  }

  lemma HeadStays(s: Rx, d: Desc, a: Action)
    requires BadHead(s, d) && PktSize(s) == 0 && Allowed(s, a)
    ensures var s' := Step(s, a); BadHead(s', d) && s'.taken == s.taken && PktSize(s') == 0
  {
    var s' := Step(s, a);
    HeadOfWaiting(s);
    StepKeepsInv(s, a);
    NothingTaken(s, a);
    HeadOfWaiting(s');
  }

  /** A bad frame and then a good one: the good one is received by the DMA and never by the stack. */
  lemma BadFrameWitness(n: nat, bad: Desc, good: Desc, acts: seq<Action>)
    requires n >= 2 && FromDma(bad) && !Good(bad) && FromDma(good) && Good(good)
    requires Guarded(Run(Init(n), [Dma(bad), Dma(good)]), acts)
    ensures var s := Run(Init(n), [Dma(bad), Dma(good)]);
            s.completed == [bad, good] && Run(s, acts).taken == [] && PktSize(Run(s, acts)) == 0
  {
    var two := [Dma(bad), Dma(good)];
    RunSnoc(Init(n), [], Dma(bad));
    RunSnoc(Init(n), [Dma(bad)], Dma(good));
    assert [] + [Dma(bad)] == [Dma(bad)] && [Dma(bad)] + [Dma(good)] == two;
    var s := Run(Init(n), two);
    assert s.completed == [bad, good];
    InvInit(n);
    RunKeepsInv(Init(n), two);
    FramesInOrder(s);
    BadFrameBlocks(s, bad, acts);
  }
}
