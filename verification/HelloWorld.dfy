/** The telnet demo, lwip-1.3.1/port/helloworld.c: a line assembler over a fixed 32-byte buffer, fed
    by packets that are chains of pbufs, and the three-line specification it refines. */
module HelloWorld {
  import opened Bytes
  import opened Pbufs

  const CR: byte := 13
  const LF: byte := 10
  const MAX_NAME_SIZE := 32

  function Hello(): seq<byte> {
    Ascii("Hello ")
  }

  function Greeting(): seq<byte> {
    Ascii("Hello. What is your name?") + [CR, LF]
  }

  predicate IsEnd(c: byte) {
    c == CR || c == LF
  }

  predicate NoEnd(s: seq<byte>) {
    forall i :: 0 <= i < |s| ==> !IsEnd(s[i])
  }

  // ----- Specification -----

  function Reply(line: seq<byte>): seq<byte> {
    Hello() + line[..Min(30, |line|)] + [CR, LF]
  }

  /** Where the packet's first CR or LF is, or its length. */
  function FindEnd(packet: seq<byte>): (e: nat)
    ensures e <= |packet| && (e < |packet| ==> IsEnd(packet[e]))
    ensures forall i :: 0 <= i < e ==> !IsEnd(packet[i])
  {
    if packet == [] || IsEnd(packet[0]) then 0 else 1 + FindEnd(packet[1..])
  }

  predicate HasEnd(packet: seq<byte>) {
    FindEnd(packet) < |packet|
  }

  /** What the server looks at of a packet: nothing behind its first line end. */
  function Kept(packet: seq<byte>): seq<byte> {
    if HasEnd(packet) then packet[..FindEnd(packet) + 1] else packet
  }

  datatype Step = Step(acc: seq<byte>, replies: seq<seq<byte>>)

  /** What one packet does to the line accumulated so far. */
  function PacketStep(acc: seq<byte>, packet: seq<byte>): Step {
    var e := FindEnd(packet);
    if e == |packet| then Step(acc + packet, []) else Step([], [Reply(acc + packet[..e])])
  }

  function Session(acc: seq<byte>, packets: seq<seq<byte>>): Step
    decreases |packets|
  {
    if packets == [] then Step(acc, []) else
      var s := PacketStep(acc, packets[0]);
      var t := Session(s.acc, packets[1..]);
      Step(t.acc, s.replies + t.replies)
  }

  // ----- The code -----

  datatype Err = Ok | Arg

  /** A received packet: the pbuf chain the stack hands over, and its bytes segment by segment. */
  datatype Packet = Packet(p: Pbuf, chain: seq<Pbuf>, lens: seq<nat>, mem: seq<array<byte>>, segs: seq<seq<byte>>)

  ghost predicate Received(k: Packet)
    reads k.chain, k.mem
  {
    Carries(k.p, k.chain, k.lens, k.mem, k.segs)
  }

  function Contents(packets: seq<Packet>): (r: seq<seq<byte>>)
    ensures |r| == |packets| && forall i :: 0 <= i < |packets| ==> r[i] == Flatten(packets[i].segs)
  {
    seq(|packets|, i requires 0 <= i < |packets| => Flatten(packets[i].segs))
  }

  class Connection {
    const bytes: array<byte>
    var length: int
    var hasName: bool
    var closed: bool
    var written: seq<byte>
    ghost var acc: seq<byte>

    /** The buffer holds the first 32 bytes of what arrived, which contain no line end. */
    ghost predicate Valid()
      reads this, bytes
    {
      bytes.Length == MAX_NAME_SIZE && (hasName ==> Stored(acc) && NoEnd(acc))
    }

    ghost predicate Stored(x: seq<byte>)
      requires bytes.Length == MAX_NAME_SIZE
      reads this, bytes
    {
      length == Min(MAX_NAME_SIZE, |x|) && bytes[..length] == x[..length]
    }

    /** HelloWorld_accept; the record may fail to be allocated. */
    constructor (allocOk: bool)
      ensures Valid() && fresh(bytes) && hasName == allocOk && !closed && acc == [] && written == Greeting()
      ensures written == Ascii("Hello. What is your name?") + [13, 10] && length == 0 && bytes.Length == 32
    {
      bytes := new byte[MAX_NAME_SIZE](_ => 0);
      length, hasName, closed := 0, allocOk, false;
      written, acc := Greeting(), [];
    }

    method PutChar(c: byte, ghost x: seq<byte>) returns (done: bool)
      requires bytes.Length == MAX_NAME_SIZE && Stored(x)
      modifies this`length, bytes
      ensures Stored(x + [c]) && done == IsEnd(c)
      ensures done <==> c == 13 || c == 10
      ensures if old(length) == 32 then length == 32 && bytes[..] == old(bytes[..]) else
                length == old(length) + 1 && bytes[..length] == old(bytes[..length]) + [c]
    {
      done := c == CR || c == LF;
      if length < MAX_NAME_SIZE {
        bytes[length] := c;
        length := length + 1;
      }
    }

    /** The inner loop: the bytes of one segment up to and including a line end. */
    method PutSegment(payload: array<byte>, len: nat, ghost x: seq<byte>) returns (done: bool)
      requires bytes.Length == MAX_NAME_SIZE && Stored(x) && len <= payload.Length && payload != bytes
      modifies this`length, bytes
      ensures done == HasEnd(payload[..len]) && Stored(x + Kept(payload[..len]))
    {
      done := false;
      var i := 0;
      ghost var seg := payload[..len];
      assert seg[..0] == [] && x + [] == x;
      while i < len && !done
        invariant 0 <= i <= len && payload[..len] == seg && Stored(x + seg[..i])
        invariant if done then i > 0 && NoEnd(seg[..i - 1]) && IsEnd(seg[i - 1]) else NoEnd(seg[..i])
        decreases len - i, !done
      {
        assert payload[i] == seg[i] && seg[..i + 1] == seg[..i] + [seg[i]];
        Assoc(x, seg[..i], [seg[i]]);
        done := PutChar(payload[i], x + seg[..i]);
        i := i + 1;
      }
      FindEndUnique(seg, if done then i - 1 else i);
      assert Kept(seg) == seg[..i];
    }

    /** What is stored when a line has just ended: its first 30 bytes at most, and the terminator last
        unless 32 bytes came before it. */
    lemma StoredLine(line: seq<byte>, end: byte)
      requires bytes.Length == MAX_NAME_SIZE && NoEnd(line) && IsEnd(end) && Stored(line + [end])
      ensures length == Min(MAX_NAME_SIZE, |line| + 1) && bytes[..Min(30, |line|)] == line[..Min(30, |line|)]
      ensures IsEnd(bytes[length - 1]) <==> |line| < MAX_NAME_SIZE
    {
      var x, n := line + [end], Min(30, |line|);
      assert bytes[..n] == bytes[..length][..n] == x[..length][..n] == x[..n];
      assert bytes[length - 1] == bytes[..length][length - 1] == x[..length][length - 1] == x[length - 1];
    }

    /** The first branch of the source is taken in every reachable state: before the terminator just
        stored there is never a CR. */
    lemma SecondLastIsNoEnd(line: seq<byte>, end: byte)
      requires bytes.Length == MAX_NAME_SIZE && NoEnd(line) && Stored(line + [end])
      ensures length >= 1 && (length >= 2 ==> !IsEnd(bytes[length - 2]))
    {
      var x := line + [end];
      if length >= 2 {
        assert bytes[length - 2] == bytes[..length][length - 2] == x[..length][length - 2] == line[length - 2];
      }
    }

    /** The three ways to make room for CR LF. */
    method MakeRoom(ghost line: seq<byte>, ghost end: byte)
      requires bytes.Length == MAX_NAME_SIZE && NoEnd(line) && IsEnd(end) && Stored(line + [end])
      modifies this`length
      ensures length == Min(30, |line|) + 2
    {
      StoredLine(line, end);
      var endLast := bytes[length - 1] == CR || bytes[length - 1] == LF;
      length := if endLast && length + 1 <= MAX_NAME_SIZE then length + 1
                else if length + 2 <= MAX_NAME_SIZE then length + 2
                else MAX_NAME_SIZE;
    }

    /** Every line ends in CR LF: the terminator is completed, or the last two bytes are overwritten. */
    method Terminate(ghost line: seq<byte>, ghost end: byte)
      requires bytes.Length == MAX_NAME_SIZE && NoEnd(line) && IsEnd(end) && Stored(line + [end])
      modifies this`length, bytes
      ensures 2 <= length <= MAX_NAME_SIZE && bytes[..length] == line[..Min(30, |line|)] + [13, 10]
    {
      var crBefore, lfLast := length >= 2 && bytes[length - 2] == CR, bytes[length - 1] == LF;
      SecondLastIsNoEnd(line, end);
      StoredLine(line, end);
      if !crBefore || !lfLast {
        MakeRoom(line, end);
        ghost var n := Min(30, |line|);
        bytes[length - 2] := CR;
        bytes[length - 1] := LF;
        assert bytes[..n] == line[..n];
        assert bytes[..length] == bytes[..n] + [CR, LF];
      }
    }

    method Answer(ghost line: seq<byte>, ghost end: byte)
      requires bytes.Length == MAX_NAME_SIZE && NoEnd(line) && IsEnd(end) && Stored(line + [end])
      modifies this`length, this`written, bytes
      ensures length == 0 && written == old(written) + Reply(line)
      ensures written == old(written) + (Ascii("Hello ") + line[..Min(30, |line|)] + [13, 10])
    {
      Terminate(line, end);
      written := written + Hello();
      written := written + bytes[..length];
      length := 0;
    }

    method RecvPacket(p: Pbuf?, ghost chain: seq<Pbuf>, ghost lens: seq<nat>,
                      ghost mem: seq<array<byte>>, ghost segs: seq<seq<byte>>)
      requires Valid() && hasName
      requires Carries(p, chain, lens, mem, segs)
      requires forall i :: 0 <= i < |mem| ==> mem[i] != bytes
      modifies this`length, this`written, this`acc, bytes
      ensures Valid()
      ensures acc == PacketStep(old(acc), Flatten(segs)).acc
      ensures written == old(written) + Flatten(PacketStep(old(acc), Flatten(segs)).replies)
      ensures var packet := Flatten(segs);
              if FindEnd(packet) == |packet| then written == old(written) else
                var line := old(acc) + packet[..FindEnd(packet)];
                && written == old(written) + (Ascii("Hello ") + line[..Min(30, |line|)] + [13, 10])
                && written != old(written) && length == 0
    {
      ghost var packet := Flatten(segs);
      var done := PutChain(p, chain, lens, mem, segs);
      if done {
        ghost var e := FindEnd(packet);
        LineEnds(acc, packet);
        OneReply(Reply(acc + packet[..e]));
        Answer(acc + packet[..e], packet[e]);
        acc := [];
      } else {
        LineGoesOn(acc, packet);
        acc := acc + packet;
      }
    }

    /** HelloWorld_recv: a reply is written if and only if the packet holds an LF or a CR. It repeats up
        to thirty bytes of the line before the first of them, and the line starts again; otherwise the
        packet joins the line, of which the buffer keeps up to 32 bytes. */
    method Recv(p: Pbuf?, errOk: bool, ghost chain: seq<Pbuf>, ghost lens: seq<nat>,
                ghost mem: seq<array<byte>>, ghost segs: seq<seq<byte>>) returns (r: Err, ghost e: nat)
      requires Valid() && !closed
      requires Carries(p, chain, lens, mem, segs)
      requires forall i :: 0 <= i < |mem| ==> mem[i] != bytes
      modifies this, bytes
      ensures Valid()
      ensures closed <==> p == null && errOk
      ensures r == Arg <==> p != null && !old(hasName)
      ensures p != null && old(hasName) ==>
                var s := PacketStep(old(acc), Flatten(segs));
                hasName && acc == s.acc && written == old(written) + Flatten(s.replies)
      ensures p == null || !old(hasName) ==> acc == old(acc) && written == old(written)
      ensures e <= |Flatten(segs)| && forall i :: 0 <= i < e ==> Flatten(segs)[i] != 10 && Flatten(segs)[i] != 13
      ensures e < |Flatten(segs)| ==> Flatten(segs)[e] == 10 || Flatten(segs)[e] == 13
      ensures p != null && old(hasName) && e < |Flatten(segs)| ==>
                var line := old(acc) + Flatten(segs)[..e];
                && written == old(written) + (Ascii("Hello ") + line[..Min(30, |line|)] + [13, 10])
                && acc == [] && length == 0
      ensures p != null && old(hasName) && e == |Flatten(segs)| ==>
                && written == old(written) && acc == old(acc) + Flatten(segs)
                && length == Min(32, |acc|) && bytes[..length] == acc[..length]
      ensures p != null && old(hasName) ==>
                (written != old(written) <==>
                   exists i :: 0 <= i < |Flatten(segs)| && (Flatten(segs)[i] == 10 || Flatten(segs)[i] == 13))
    {
      e := FindEnd(Flatten(segs));
      r := Ok;
      if p != null {
        if !hasName {
          r := Arg;
          return;
        }
        RecvPacket(p, chain, lens, mem, segs);
      } else if errOk {
        hasName := false;
        closed := true;
      }
    }

    /** What the connection holds and has written after some packets of a session. */
    ghost predicate After(acc0: seq<byte>, written0: seq<byte>, contents: seq<seq<byte>>)
      reads this, bytes
    {
      var s := Session(acc0, contents);
      Valid() && hasName && !closed && acc == s.acc && written == written0 + Flatten(s.replies)
    }

    method ServeOne(q: Packet, ghost acc0: seq<byte>, ghost written0: seq<byte>, ghost contents: seq<seq<byte>>, ghost k: nat)
      requires k < |contents| && After(acc0, written0, contents[..k])
      requires Received(q) && bytes !in q.mem && contents[k] == Flatten(q.segs)
      modifies this, bytes
      ensures After(acc0, written0, contents[..k + 1])
    {
      SessionGoesOn(acc0, written0, contents, k, acc, written);
      var r, e := Recv(q.p, true, q.chain, q.lens, q.mem, q.segs);
    }

    /** A whole session: the callback, called with one packet after another. */
    method Serve(packets: seq<Packet>)
      requires Valid() && hasName && !closed
      requires forall i :: 0 <= i < |packets| ==> Received(packets[i]) && bytes !in packets[i].mem
      modifies this, bytes
      ensures After(old(acc), old(written), Contents(packets))
    {
      ghost var contents := Contents(packets);
      for k := 0 to |packets|
        invariant forall i :: 0 <= i < |packets| ==> Received(packets[i])
        invariant After(old(acc), old(written), contents[..k])
      {
        label before:
        ServeOne(packets[k], old(acc), old(written), contents, k);
        forall i | 0 <= i < |packets| ensures Received(packets[i]) {
          assert Received(packets[i]) == old@before(Received(packets[i]));
        }
      }
      assert contents[..|packets|] == contents;
    }

    /** The outer loop over the pbufs of a packet. */
    method PutChain(p: Pbuf?, ghost chain: seq<Pbuf>, ghost lens: seq<nat>,
                    ghost mem: seq<array<byte>>, ghost segs: seq<seq<byte>>) returns (done: bool)
      requires bytes.Length == MAX_NAME_SIZE && Stored(acc)
      requires Carries(p, chain, lens, mem, segs)
      requires forall i :: 0 <= i < |mem| ==> mem[i] != bytes
      modifies this`length, bytes
      ensures done == HasEnd(Flatten(segs)) && Stored(acc + Kept(Flatten(segs)))
    {
      done := false;
      var q := p;
      ghost var k := 0;
      assert segs[..0] == [] && acc + [] == acc;
      while q != null
        invariant IsChain(p, chain) && LaidOut(chain, lens, mem) && Holds(mem, lens, segs)
        invariant 0 <= k <= |chain| && q == (if k < |chain| then chain[k] else null)
        invariant done == HasEnd(Flatten(segs[..k])) && Stored(acc + Kept(Flatten(segs[..k])))
        decreases |chain| - k
      {
        ghost var front := Flatten(segs[..k]);
        KeptSnoc(acc, segs, k);
        var next := q.next;
        if !done {
          done := PutSegment(q.payload, q.len, acc + front);
        }
        q := next;
        k := k + 1;
      }
      assert segs[..k] == segs;
    }
  }

  lemma {:induction false} SessionAppend(acc: seq<byte>, a: seq<seq<byte>>, b: seq<seq<byte>>)
    ensures Session(acc, a + b) ==
            var s := Session(acc, a); var t := Session(s.acc, b);
            Step(t.acc, s.replies + t.replies)
    decreases |a|
  {
    if a == [] {
      assert a + b == b;
    } else {
      var s := PacketStep(acc, a[0]);
      assert (a + b)[1..] == a[1..] + b;
      SessionAppend(s.acc, a[1..], b);
      var u := Session(s.acc, a[1..]);
      var t := Session(u.acc, b);
      Assoc(s.replies, u.replies, t.replies);
    }
  }

  lemma SessionSnoc(acc: seq<byte>, packets: seq<seq<byte>>, k: nat)
    requires k < |packets|
    ensures var s := Session(acc, packets[..k]); var t := PacketStep(s.acc, packets[k]);
            && Session(acc, packets[..k + 1]).acc == t.acc
            && Flatten(Session(acc, packets[..k + 1]).replies) == Flatten(s.replies) + Flatten(t.replies)
  {
    assert packets[..k + 1] == packets[..k] + [packets[k]];
    SessionAppend(acc, packets[..k], [packets[k]]);
    var s := Session(acc, packets[..k]);
    var t := PacketStep(s.acc, packets[k]);
    var one: seq<seq<byte>> := [packets[k]];
    assert one[1..] == [] && t.replies + [] == t.replies;
    assert Session(s.acc, one) == t;
    FlattenAppend(s.replies, t.replies);
  }

  lemma SessionGoesOn(acc0: seq<byte>, written0: seq<byte>, packets: seq<seq<byte>>, k: nat, acc: seq<byte>, written: seq<byte>)
    requires k < |packets|
    requires var s := Session(acc0, packets[..k]); acc == s.acc && written == written0 + Flatten(s.replies)
    ensures var t := PacketStep(acc, packets[k]); var u := Session(acc0, packets[..k + 1]);
            u.acc == t.acc && written0 + Flatten(u.replies) == written + Flatten(t.replies)
  {
    SessionSnoc(acc0, packets, k);
    Assoc(written0, Flatten(Session(acc0, packets[..k]).replies), Flatten(PacketStep(acc, packets[k]).replies));
  }

  /** How one more segment extends what is kept of a packet. */
  lemma KeptSnoc(acc: seq<byte>, segs: seq<seq<byte>>, k: nat)
    requires k < |segs|
    ensures var front, front' := Flatten(segs[..k]), Flatten(segs[..k + 1]);
            if HasEnd(front) then HasEnd(front') && Kept(front') == Kept(front)
            else (HasEnd(front') <==> HasEnd(segs[k])) && acc + Kept(front') == acc + front + Kept(segs[k])
  {
    FlattenNext(segs, k);
    KeptAppend(Flatten(segs[..k]), segs[k]);
    Assoc(acc, Flatten(segs[..k]), Kept(segs[k]));
  }

  lemma OneReply(reply: seq<byte>)
    ensures Flatten([reply]) == reply
  {
    FlattenSnoc([], reply);
  }

  lemma LineEnds(acc: seq<byte>, packet: seq<byte>)
    requires NoEnd(acc) && HasEnd(packet)
    ensures var line, e := acc + packet[..FindEnd(packet)], FindEnd(packet);
            && PacketStep(acc, packet) == Step([], [Reply(line)])
            && NoEnd(line) && IsEnd(packet[e]) && acc + Kept(packet) == line + [packet[e]]
  {
    var e := FindEnd(packet);
    assert packet[..e + 1] == packet[..e] + [packet[e]];
    Assoc(acc, packet[..e], [packet[e]]);
  }

  lemma LineGoesOn(acc: seq<byte>, packet: seq<byte>)
    requires NoEnd(acc) && !HasEnd(packet)
    ensures PacketStep(acc, packet) == Step(acc + packet, []) && NoEnd(acc + packet) && Kept(packet) == packet
  {
  }

  /** One packet in plain numbers, when its first 10 or 13 is at e, or e is its length. */
  lemma PlainStep(acc: seq<byte>, packet: seq<byte>, e: nat)
    requires e <= |packet| && forall i :: 0 <= i < e ==> packet[i] != 10 && packet[i] != 13
    requires e < |packet| ==> packet[e] == 10 || packet[e] == 13
    ensures FindEnd(packet) == e
    ensures e == |packet| ==> PacketStep(acc, packet) == Step(acc + packet, [])
    ensures e < |packet| ==>
              PacketStep(acc, packet) == Step([], [Ascii("Hello ") + (acc + packet[..e])[..Min(30, |acc| + e)] + [13, 10]])
  {
    FindEndUnique(packet, e);
  }

  lemma FindEndUnique(s: seq<byte>, e: nat)
    requires e <= |s| && (forall i :: 0 <= i < e ==> !IsEnd(s[i])) && (e < |s| ==> IsEnd(s[e]))
    ensures FindEnd(s) == e
  {
  }

  lemma FindEndAppend(a: seq<byte>, b: seq<byte>)
    ensures FindEnd(a + b) == if FindEnd(a) < |a| then FindEnd(a) else |a| + FindEnd(b)
  {
    var e := if FindEnd(a) < |a| then FindEnd(a) else |a| + FindEnd(b);
    FindEndUnique(a + b, e);
  }

  lemma KeptAppend(a: seq<byte>, b: seq<byte>)
    ensures HasEnd(a + b) <==> HasEnd(a) || HasEnd(b)
    ensures Kept(a + b) == if HasEnd(a) then Kept(a) else a + Kept(b)
  {
    FindEndAppend(a, b);
    if HasEnd(a) {
      assert (a + b)[..FindEnd(a) + 1] == a[..FindEnd(a) + 1];
    } else if HasEnd(b) {
      assert (a + b)[..|a| + FindEnd(b) + 1] == a + b[..FindEnd(b) + 1];
    }
  }

  // ----- Sessions -----

  /** Reference reading of a byte stream: a reply at every CR or LF, for the bytes since the last. */
  function StreamReplies(acc: seq<byte>, stream: seq<byte>): Step
    decreases |stream|
  {
    if stream == [] then Step(acc, [])
    else if IsEnd(stream[0]) then
      var t := StreamReplies([], stream[1..]);
      Step(t.acc, [Reply(acc)] + t.replies)
    else StreamReplies(acc + [stream[0]], stream[1..])
  }

  function AllKept(packets: seq<seq<byte>>): seq<byte>
    decreases |packets|
  {
    if packets == [] then [] else Kept(packets[0]) + AllKept(packets[1..])
  }

  lemma {:induction false} StreamAppend(acc: seq<byte>, a: seq<byte>, b: seq<byte>)
    ensures StreamReplies(acc, a + b) ==
            var s := StreamReplies(acc, a); var t := StreamReplies(s.acc, b);
            Step(t.acc, s.replies + t.replies)
    decreases |a|
  {
    if a == [] {
      assert a + b == b;
    } else {
      assert (a + b)[1..] == a[1..] + b;
      if IsEnd(a[0]) {
        StreamAppend([], a[1..], b);
        var s := StreamReplies([], a[1..]);
        var t := StreamReplies(s.acc, b);
        Assoc([Reply(acc)], s.replies, t.replies);
      } else {
        StreamAppend(acc + [a[0]], a[1..], b);
      }
    }
  }

  /** A packet whose first byte ends no line is that byte added to the line, and the rest. */
  lemma FirstByteJoinsLine(acc: seq<byte>, packet: seq<byte>)
    requires packet != [] && !IsEnd(packet[0])
    ensures Kept(packet) == [packet[0]] + Kept(packet[1..])
    ensures PacketStep(acc, packet) == PacketStep(acc + [packet[0]], packet[1..])
  {
    var c, rest := packet[0], packet[1..];
    var e := FindEnd(rest);
    assert FindEnd(packet) == 1 + e && packet == [c] + rest;
    assert packet[..e + 1] == [c] + rest[..e];
    Assoc(acc, [c], rest[..e]);
    Assoc(acc, [c], rest);
  }

  lemma {:induction false} StreamOfKept(acc: seq<byte>, packet: seq<byte>)
    ensures StreamReplies(acc, Kept(packet)) == PacketStep(acc, packet)
    decreases |packet|
  {
    var kept := Kept(packet);
    if packet == [] {
      assert acc + packet == acc;
    } else if IsEnd(packet[0]) {
      assert kept == [packet[0]] && kept[1..] == [];
      assert acc + packet[..0] == acc;
    } else {
      FirstByteJoinsLine(acc, packet);
      StreamOfKept(acc + [packet[0]], packet[1..]);
      assert kept[1..] == Kept(packet[1..]);
    }
  }

  /** Over any session the replies are those of the plain byte-stream reader on the stream with the
      bytes behind each packet's first line end removed; so when no packet carries such bytes, how the
      stream was cut into packets does not matter at all. */
  lemma {:induction false} SessionIsLineReader(acc: seq<byte>, packets: seq<seq<byte>>)
    ensures Session(acc, packets) == StreamReplies(acc, AllKept(packets))
    ensures (forall i :: 0 <= i < |packets| ==> Kept(packets[i]) == packets[i]) ==>
              Session(acc, packets) == StreamReplies(acc, Flatten(packets))
    decreases |packets|
  {
    if packets != [] {
      var s := PacketStep(acc, packets[0]);
      SessionIsLineReader(s.acc, packets[1..]);
      StreamOfKept(acc, packets[0]);
      StreamAppend(acc, Kept(packets[0]), AllKept(packets[1..]));
      StreamAppend(acc, packets[0], Flatten(packets[1..]));
    }
  }
}
