/** lwip_getaddrinfo and lwip_freeaddrinfo, lwip-1.3.1/src/api/netdb.c:231-354, over a heap that keeps
    track of every block handed out and given back. */
module AddrInfo {
  import opened Bytes

  // ----- The heap -----

  /** mem_malloc and mem_free: the blocks in use, and every free in order. */
  class Heap {
    ghost var live: set<object>
    ghost var freed: seq<object>

    constructor ()
      ensures live == {} && freed == []
    {
      live, freed := {}, [];
    }

    ghost method Claim(o: object)
      requires o !in live
      modifies this`live
      ensures live == old(live) + {o}
    {
      live := live + {o};
    }

    ghost method Release(o: object)
      requires o in live
      modifies this
      ensures live == old(live) - {o} && freed == old(freed) + [o]
    {
      live, freed := live - {o}, freed + [o];
    }
  }

  class SockAddr {
    var len: nat
    var family: nat
    var port: nat
    var addr: nat

    constructor ()
    {
      len, family, port, addr := 0, 0, 0, 0;
    }
  }

  class Info {
    var flags: int
    var family: int
    var socktype: int
    var protocol: int
    var addrlen: nat
    var addr: SockAddr?
    var canonname: array?<char>
    var next: Info?

    /** As memset to zero leaves it. */
    constructor ()
      ensures flags == family == socktype == protocol == 0 && addrlen == 0
      ensures addr == null && canonname == null && next == null
    {
      flags, family, socktype, protocol, addrlen := 0, 0, 0, 0, 0;
      addr, canonname, next := null, null, null;
    }
  }

  // ----- Lists and the blocks they own -----

  /** From ai, the next pointers run through exactly these nodes and then end. */
  ghost predicate IsList(ai: Info?, nodes: seq<Info>)
    reads nodes
  {
    && ai == (if nodes == [] then null else nodes[0])
    && (nodes != [] ==> nodes[|nodes| - 1].next == null)
    && forall i :: 0 <= i < |nodes| - 1 ==> nodes[i].next == nodes[i + 1]
  }

  ghost function BlocksOf(n: Info): seq<object>
    reads n
  {
    (if n.addr != null then [n.addr] else []) + (if n.canonname != null then [n.canonname] else []) + [n]
  }

  ghost function Blocks(nodes: seq<Info>): seq<object>
    reads nodes
  {
    if nodes == [] then [] else BlocksOf(nodes[0]) + Blocks(nodes[1..])
  }

  ghost predicate Distinct(s: seq<object>) {
    forall i, j :: 0 <= i < j < |s| ==> s[i] != s[j]
  }

  ghost function Elements(s: seq<object>): set<object> {
    set o | o in s
  }

  /** The list owns its blocks: all of them in use, none owned twice. */
  ghost predicate Owned(heap: Heap, nodes: seq<Info>)
    reads heap, nodes
  {
    Distinct(Blocks(nodes)) && Elements(Blocks(nodes)) <= heap.live
  }

  // ----- lwip_freeaddrinfo -----

  /** mem_free of a node: from here on its fields hold anything. */
  method FreeNode(n: Info, heap: Heap)
    requires n in heap.live
    modifies n, heap
    ensures heap.live == old(heap.live) - {n} && heap.freed == old(heap.freed) + [n]
  {
    modify n;
    heap.Release(n);
  }

  /** One pass of the loop: the parts of a node, then the node itself. */
  method FreeOne(ai: Info, heap: Heap) returns (next: Info?)
    requires Distinct(BlocksOf(ai)) && Elements(BlocksOf(ai)) <= heap.live
    modifies ai, heap
    ensures next == old(ai.next)
    ensures heap.freed == old(heap.freed + BlocksOf(ai))
    ensures heap.live == old(heap.live - Elements(BlocksOf(ai)))
  {
    ghost var blocks := BlocksOf(ai);
    assert blocks[|blocks| - 1] == ai;
    if ai.addr != null {
      assert blocks[0] == ai.addr;
      heap.Release(ai.addr);
    }
    if ai.canonname != null {
      assert blocks[|blocks| - 2] == ai.canonname;
      heap.Release(ai.canonname);
    }
    next := ai.next;
    FreeNode(ai, heap);
  }

  lemma OwnBlocks(n: Info)
    ensures n in BlocksOf(n) && (n.addr != null ==> n.addr in BlocksOf(n)) && (n.canonname != null ==> n.canonname in BlocksOf(n))
  {
    var blocks := BlocksOf(n);
    assert blocks[|blocks| - 1] == n;
    assert n.addr != null ==> blocks[0] == n.addr;
    assert n.canonname != null ==> blocks[|blocks| - 2] == n.canonname;
  }

  lemma {:induction false} NodesAreBlocks(nodes: seq<Info>)
    ensures forall n :: n in nodes ==>
              && n in Blocks(nodes)
              && (n.addr != null ==> n.addr in Blocks(nodes))
              && (n.canonname != null ==> n.canonname in Blocks(nodes))
  {
    if nodes != [] {
      NodesAreBlocks(nodes[1..]);
      OwnBlocks(nodes[0]);
    }
  }

  lemma DistinctParts(a: seq<object>, b: seq<object>)
    requires Distinct(a + b)
    ensures Distinct(a) && Distinct(b) && Elements(a) !! Elements(b)
  {
    var c := a + b;
    assert forall i :: 0 <= i < |a| ==> c[i] == a[i];
    forall i, j | 0 <= i < j < |b| ensures b[i] != b[j] {
      assert c[|a| + i] != c[|a| + j];
    }
    forall o | o in Elements(a) ensures o !in Elements(b) {
      var i :| 0 <= i < |a| && a[i] == o;
      forall j | 0 <= j < |b| ensures b[j] != o {
        assert c[i] != c[|a| + j];
      }
    }
  }

  /** A node that owns its blocks is apart from everything the rest of the list owns. */
  lemma HeadIsApart(heap: Heap, nodes: seq<Info>, a: seq<object>, b: seq<object>)
    requires nodes != [] && Owned(heap, nodes)
    requires a == BlocksOf(nodes[0]) && b == Blocks(nodes[1..])
    ensures Distinct(a) && Elements(a) <= heap.live && Elements(Blocks(nodes)) == Elements(a) + Elements(b)
    ensures Distinct(b) && Elements(b) <= heap.live - Elements(a)
    ensures nodes[0] !in nodes[1..]
  {
    assert Blocks(nodes) == a + b;
    DistinctParts(a, b);
    NodesAreBlocks(nodes[1..]);
    assert a[|a| - 1] == nodes[0];
    assert Elements(a + b) == Elements(a) + Elements(b);
    assert nodes[0] in Elements(a);
    assert forall n :: n in nodes[1..] ==> n in Elements(b);
  }

  lemma TailIsList(nodes: seq<Info>)
    requires nodes != [] && IsList(nodes[0], nodes)
    ensures IsList(nodes[0].next, nodes[1..])
  {
  }

  /** One pass of the loop, seen from the whole list. */
  method FreeHead(ai: Info, heap: Heap, ghost rest: seq<Info>) returns (next: Info?)
    requires IsList(ai, rest) && Owned(heap, rest)
    modifies ai, heap
    ensures IsList(next, rest[1..]) && Owned(heap, rest[1..])
    ensures heap.freed + Blocks(rest[1..]) == old(heap.freed + Blocks(rest))
    ensures heap.live - Elements(Blocks(rest[1..])) == old(heap.live - Elements(Blocks(rest)))
  {
    ghost var blocks, more := BlocksOf(ai), Blocks(rest[1..]);
    HeadIsApart(heap, rest, blocks, more);
    assert Blocks(rest) == blocks + more;
    TailIsList(rest);
    assert ai == rest[0] && ai !in rest[1..];
    next := FreeOne(ai, heap);
    assert Blocks(rest[1..]) == more;
  }

  /** Every block of the list is given back once, in order, and nothing else is. */
  method FreeAddrInfo(first: Info?, heap: Heap, ghost nodes: seq<Info>)
    requires IsList(first, nodes) && Owned(heap, nodes)
    modifies nodes, heap
    ensures heap.freed == old(heap.freed + Blocks(nodes))
    ensures heap.live == old(heap.live - Elements(Blocks(nodes)))
    ensures forall n :: n in nodes ==>
              && n !in heap.live
              && (old(n.addr) != null ==> old(n.addr) !in heap.live)
              && (old(n.canonname) != null ==> old(n.canonname) !in heap.live)
  {
    NodesAreBlocks(nodes);
    var ai := first;
    ghost var rest := nodes;
    ghost var freed, live := heap.freed + Blocks(nodes), heap.live - Elements(Blocks(nodes));
    while ai != null
      invariant forall n :: n in rest ==> n in nodes
      invariant IsList(ai, rest) && Owned(heap, rest)
      invariant heap.freed + Blocks(rest) == freed
      invariant heap.live - Elements(Blocks(rest)) == live
      decreases |rest|
    {
      assert ai in rest;
      ai := FreeHead(ai, heap, rest);
      rest := rest[1..];
    }
  }

  // ----- lwip_getaddrinfo -----

  const EAI_NONAME := 200
  const EAI_SERVICE := 201
  const EAI_FAIL := 202
  const EAI_MEMORY := 203
  const AF_INET := 2
  const SOCKADDR_LEN := 16

  /** The host-order constant; it is stored without conversion. */
  const INADDR_LOOPBACK := 0x7F00_0001

  /** The bytes of a stored 32-bit address, as they lie in the memory of this little-endian part. In
      network order they are the dotted quad. */
  function InMemory(addr: nat): seq<nat> {
    [addr % 256, addr / 0x100 % 256, addr / 0x1_0000 % 256, addr / 0x100_0000 % 256]
  }

  const LOCALHOST := [127, 0, 0, 1]

  /** The stored constant is the reverse of the loopback address, which as a number is 0x0100007F. */
  lemma LoopbackReversed(addr: nat)
    requires addr < 0x1_0000_0000
    ensures InMemory(INADDR_LOOPBACK) == [1, 0, 0, 127]
    ensures InMemory(addr) == LOCALHOST <==> addr == 0x0100_007F
  {
    var a, b, c := addr / 0x100, addr / 0x1_0000, addr / 0x100_0000;
    assert addr == 256 * a + addr % 256 && a == 256 * b + a % 256 && b == 256 * c + b % 256;
    if InMemory(addr) == LOCALHOST {
      assert InMemory(addr)[0] == 127 && InMemory(addr)[1] == 0 && InMemory(addr)[2] == 0 && InMemory(addr)[3] == 1;
    }
  }

  function Htons(x: nat): nat {
    x % 256 * 256 + x / 256 % 256
  }

  /** A converted port lies in memory with its high byte first. */
  lemma PortInMemory(port: nat)
    requires port <= 0xFFFF
    ensures InMemory(Htons(port)) == [port / 256, port % 256, 0, 0]
    ensures Htons(port) % 256 == port / 256 && Htons(port) / 256 == port % 256
  {
    Parts(Htons(port), port % 256, port / 256);
  }

  predicate IsDigit(c: char) {
    '0' <= c <= '9'
  }

  predicate IsSpace(c: char) {
    c == ' ' || '\t' <= c <= '\r'
  }

  function Digits(s: string, value: nat): nat {
    if s == "" || !IsDigit(s[0]) then value else Digits(s[1..], 10 * value + (s[0] as int - '0' as int))
  }

  /** The C library's atoi: blanks, a sign, digits, and anything after them ignored. */
  function Atoi(s: string): int {
    if s == "" then 0
    else if IsSpace(s[0]) then Atoi(s[1..])
    else if s[0] == '-' then 0 - Digits(s[1..], 0)
    else if s[0] == '+' then Digits(s[1..], 0)
    else Digits(s, 0)
  }

  function Digit(n: nat): (c: char)
    requires n < 10
    ensures IsDigit(c) && c as int == 48 + n
  {
    ('0' as int + n) as char
  }

  function Decimal(n: nat): (r: string)
    ensures r != "" && IsDigit(r[0])
  {
    (if n < 10 then "" else Decimal(n / 10)) + [Digit(n % 10)]
  }

  lemma {:induction false} DigitsOfDecimal(n: nat, rest: string)
    requires rest == "" || !IsDigit(rest[0])
    ensures Digits(Decimal(n) + rest, 0) == n
  {
    DigitsSplit(n, rest, 0);
  }

  /** Ten to the number of digits. */
  function Shift(n: nat): nat {
    if n < 10 then 10 else 10 * Shift(n / 10)
  }

  lemma {:induction false} DigitsSplit(n: nat, rest: string, value: nat)
    ensures Digits(Decimal(n) + rest, value) == Digits(rest, value * Shift(n) + n)
  {
    var c := Digit(n % 10);
    if n < 10 {
      assert Decimal(n) == [c];
      OneDigit(c, rest, value);
    } else {
      DigitsSplit(n / 10, [c] + rest, value);
      Assoc(Decimal(n / 10), [c], rest);
      OneDigit(c, rest, value * Shift(n / 10) + n / 10);
      Tenfold(value, n);
    }
  }

  lemma Tenfold(value: nat, n: nat)
    requires n >= 10
    ensures 10 * (value * Shift(n / 10) + n / 10) + n % 10 == value * Shift(n) + n
  {
    var b := Shift(n / 10);
    assert Shift(n) == 10 * b;
    Commute(value, b);
  }

  lemma Commute(a: int, b: int)
    ensures 10 * (a * b) == a * (10 * b)
  {
  }

  lemma OneDigit(c: char, rest: string, value: nat)
    requires IsDigit(c)
    ensures Digits([c] + rest, value) == Digits(rest, 10 * value + (c as int - '0' as int))
  {
  }

  predicate AllDigits(s: string) {
    forall i :: 0 <= i < |s| ==> 48 <= s[i] as int <= 57
  }

  predicate AllBlank(s: string) {
    forall i :: 0 <= i < |s| ==> s[i] as int == 32 || 9 <= s[i] as int <= 13
  }

  /** What a row of digits stands for, read from its last one. */
  function Numeral(digits: string): int {
    if digits == "" then 0 else 10 * Numeral(digits[..|digits| - 1]) + (digits[|digits| - 1] as int - 48)
  }

  lemma {:induction false} DigitsAreNumeral(digits: string, rest: string)
    requires AllDigits(digits) && (rest == "" || !IsDigit(rest[0]))
    ensures Digits(digits + rest, 0) == Numeral(digits) >= 0
    decreases |digits|
  {
    DigitsAfter(digits, rest, 0);
    assert Digits(rest, Numeral(digits)) == Numeral(digits);
  }

  /** Reading on behind some digits. */
  lemma {:induction false} DigitsAfter(digits: string, rest: string, k: nat)
    requires AllDigits(digits) && k <= |digits|
    ensures Numeral(digits[..k]) >= 0 && Numeral(digits) >= 0
    ensures Digits(digits[k..] + rest, Numeral(digits[..k])) == Digits(rest, Numeral(digits))
    decreases |digits| - k
  {
    NumeralIsNat(digits);
    NumeralIsNat(digits[..k]);
    var v := Numeral(digits[..k]);
    if k < |digits| {
      assert digits[..k + 1][..k] == digits[..k];
      assert digits[k..] + rest == [digits[k]] + (digits[k + 1..] + rest);
      OneDigit(digits[k], digits[k + 1..] + rest, v);
      DigitsAfter(digits, rest, k + 1);
    } else {
      assert digits[k..] + rest == rest && digits[..k] == digits;
    }
  }

  lemma {:induction false} NumeralIsNat(digits: string)
    requires AllDigits(digits)
    ensures Numeral(digits) >= 0
    decreases |digits|
  {
    if digits != "" {
      NumeralIsNat(digits[..|digits| - 1]);
    }
  }

  lemma {:induction false} AtoiSkips(blanks: string, s: string)
    requires AllBlank(blanks)
    ensures Atoi(blanks + s) == Atoi(s)
    decreases |blanks|
  {
    if blanks == "" {
      assert blanks + s == s;
    } else {
      assert (blanks + s)[1..] == blanks[1..] + s;
      AtoiSkips(blanks[1..], s);
    }
  }

  /** Blanks, at most one sign, digits, and anything: the number is what the digits stand for. */
  lemma AtoiReads(blanks: string, digits: string, rest: string)
    requires AllBlank(blanks) && AllDigits(digits) && digits != "" && (rest == "" || !IsDigit(rest[0]))
    ensures Atoi(blanks + (digits + rest)) == Numeral(digits)
    ensures Atoi(blanks + ("+" + (digits + rest))) == Numeral(digits)
    ensures Atoi(blanks + ("-" + (digits + rest))) == -Numeral(digits)
  {
    var s := digits + rest;
    DigitsAreNumeral(digits, rest);
    AtoiSkips(blanks, s);
    AtoiSkips(blanks, "+" + s);
    AtoiSkips(blanks, "-" + s);
    assert s[0] == digits[0] && ("+" + s)[1..] == s && ("-" + s)[1..] == s;
  }

  /** Anything that starts with none of these is zero, and so no port. */
  lemma AtoiRefuses(blanks: string, s: string)
    requires AllBlank(blanks) && (s == "" || (!IsDigit(s[0]) && !IsSpace(s[0]) && s[0] != '+' && s[0] != '-'))
    ensures Atoi(blanks + s) == 0 && PortOf(Some(blanks + s)) == None
  {
    AtoiSkips(blanks, s);
  }

  /** Every port written in decimal is accepted as itself; zero and anything above 65535 is refused. */
  lemma ServiceAccepted(n: nat)
    ensures Atoi(Decimal(n)) == n
    ensures PortOf(Some(Decimal(n))) == if 1 <= n <= 0xFFFF then Some(n) else None
  {
    DigitsOfDecimal(n, "");
    assert Decimal(n) + "" == Decimal(n);
  }

  /** Two digits are tens and ones. */
  lemma TwoDigits(s: string)
    requires |s| == 2 && AllDigits(s)
    ensures Numeral(s) == 10 * (s[0] as int - 48) + (s[1] as int - 48)
    ensures PortOf(Some(s)) == if s[0] as int == 48 == s[1] as int then None else Some(Numeral(s))
  {
    var tens := s[..1];
    assert tens[..0] == "" && tens[0] == s[0];
    assert Numeral(tens) == 10 * Numeral(tens[..0]) + (tens[0] as int - 48);
    AtoiReads("", s, "");
    assert s == "" + (s + "");
  }

  /** The port a lookup uses, or nothing when the service is refused. */
  function PortOf(servname: Option<string>): Option<nat> {
    match servname
    case None => Some(0)
    case Some(s) => if 0 < Atoi(s) <= 0xFFFF then Some(Atoi(s)) else None
  }

  class Cell {
    var ptr: Info?

    constructor (p: Info?)
    {
      ptr := p;
    }
  }

  datatype Hints = Hints(socktype: int, protocol: int)

  /** What a lookup returns; granted tells which of its allocations the heap serves. */
  function Outcome(resGiven: bool, nodename: Option<string>, servname: Option<string>, resolved: Option<nat>,
                   granted: seq<bool>): int
    requires |granted| == 3
  {
    if !resGiven then EAI_FAIL
    else if nodename.None? && servname.None? then EAI_NONAME
    else if PortOf(servname).None? then EAI_SERVICE
    else if nodename.Some? && resolved.None? then EAI_FAIL
    else if !AllServed(nodename, granted) then EAI_MEMORY
    else 0
  }

  /** The node a successful lookup describes. */
  ghost predicate Describes(ai: Info, nodename: Option<string>, hints: Option<Hints>, addr: nat, port: nat)
    reads ai, ai.addr, ai.canonname
  {
    && ai.flags == 0 && ai.family == AF_INET && ai.addrlen == SOCKADDR_LEN && ai.next == null
    && ai.socktype == (if hints.Some? then hints.value.socktype else 0)
    && ai.protocol == (if hints.Some? then hints.value.protocol else 0)
    && ai.addr != null && ai.addr.len == SOCKADDR_LEN && ai.addr.family == AF_INET
    && ai.addr.addr == addr && ai.addr.port == Htons(port)
    && (match nodename
        case None => ai.canonname == null
        case Some(name) => ai.canonname != null && ai.canonname[..] == name + ['\0'])
  }

  method SetUp(ai: Info, sa: SockAddr, hints: Option<Hints>, addr: nat, port: nat)
    modifies ai, sa
    ensures sa.len == SOCKADDR_LEN && sa.family == AF_INET && sa.port == Htons(port) && sa.addr == addr
    ensures ai.family == AF_INET && unchanged(ai`flags, ai`addrlen, ai`addr, ai`canonname, ai`next)
    ensures ai.socktype == (if hints.Some? then hints.value.socktype else old(ai.socktype))
    ensures ai.protocol == (if hints.Some? then hints.value.protocol else old(ai.protocol))
  {
    sa.addr := addr;
    sa.family := AF_INET;
    sa.len := SOCKADDR_LEN;
    sa.port := Htons(port);
    ai.family := AF_INET;
    if hints.Some? {
      ai.socktype := hints.value.socktype;
      ai.protocol := hints.value.protocol;
    }
  }

  method CopyName(name: string) returns (canonname: array<char>)
    ensures fresh(canonname) && canonname[..] == name + ['\0']
  {
    canonname := new char[|name| + 1];
    forall i | 0 <= i < |name| { canonname[i] := name[i]; }
    canonname[|name|] := '\0';
  }

  /** The memerr label. */
  method GiveUp(ai: Info?, sa: SockAddr?, heap: Heap)
    requires ai != null ==> ai in heap.live
    requires sa != null ==> sa in heap.live
    modifies heap, if ai == null then {} else {ai}
    ensures heap.live == old(heap.live) - (if ai == null then {} else {ai}) - (if sa == null then {} else {sa})
  {
    if ai != null {
      FreeNode(ai, heap);
    }
    if sa != null {
      heap.Release(sa);
    }
  }

  predicate AllServed(nodename: Option<string>, granted: seq<bool>)
    requires |granted| == 3
  {
    granted[0] && granted[1] && (granted[2] || nodename.None?)
  }

  /** The allocations of a lookup: all of them, or none that outlives the call. */
  method Build(nodename: Option<string>, hints: Option<Hints>, addr: nat, port: nat, granted: seq<bool>, heap: Heap)
    returns (ai: Info?)
    requires |granted| == 3 && (nodename.Some? ==> |nodename.value| + 1 <= 0xFFFF)
    modifies heap
    ensures ai != null <==> AllServed(nodename, granted)
    ensures ai == null ==> heap.live == old(heap.live)
    ensures ai != null ==>
              && fresh(ai) && Describes(ai, nodename, hints, addr, port)
              && Distinct(BlocksOf(ai)) && heap.live == old(heap.live) + Elements(BlocksOf(ai))
              && old(heap.live) !! Elements(BlocksOf(ai))
    ensures ai != null ==>
              && ai.addr != null
              && heap.live == old(heap.live) + {ai} + {ai.addr} + (if ai.canonname == null then {} else {ai.canonname})
  {
    if !granted[0] { return null; }
    ai := new Info();
    heap.Claim(ai);
    if !granted[1] {
      GiveUp(ai, null, heap);
      return null;
    }
    var sa := new SockAddr();
    heap.Claim(sa);
    SetUp(ai, sa, hints, addr, port);
    if nodename.Some? {
      if !granted[2] {
        GiveUp(ai, sa, heap);
        return null;
      }
      ai.canonname := CopyName(nodename.value);
      heap.Claim(ai.canonname);
    }
    ai.addrlen := SOCKADDR_LEN;
    ai.addr := sa;
    NodeBlocks(ai);
  }

  /** The blocks of one node, which differ by their types. */
  lemma NodeBlocks(ai: Info)
    ensures Distinct(BlocksOf(ai))
    ensures Elements(BlocksOf(ai)) ==
            (if ai.addr == null then {} else {ai.addr}) + (if ai.canonname == null then {} else {ai.canonname}) + {ai}
  {
  }

  /** lwip_getaddrinfo. A name is resolved by the caller's resolver, whose answer is a parameter. */
  method GetAddrInfo(nodename: Option<string>, servname: Option<string>, hints: Option<Hints>, res: Cell?,
                     resolved: Option<nat>, granted: seq<bool>, heap: Heap)
    returns (code: int)
    requires |granted| == 3 && (nodename.Some? ==> |nodename.value| + 1 <= 0xFFFF)
    modifies heap, if res == null then {} else {res}
    ensures code == Outcome(res != null, nodename, servname, resolved, granted)
    ensures code == if res == null then 202
                    else if nodename.None? && servname.None? then 200
                    else if servname.Some? && !(1 <= Atoi(servname.value) <= 65535) then 201
                    else if nodename.Some? && resolved.None? then 202
                    else if !granted[0] || !granted[1] || (nodename.Some? && !granted[2]) then 203
                    else 0
    ensures code != 0 ==> heap.live == old(heap.live) && (res != null ==> res.ptr == null)
    ensures code == 0 ==>
              && res.ptr != null && fresh(res.ptr)
              && Describes(res.ptr, nodename, hints, if nodename.Some? then resolved.value else INADDR_LOOPBACK,
                           PortOf(servname).value)
              && IsList(res.ptr, [res.ptr]) && Owned(heap, [res.ptr])
              && heap.live == old(heap.live) + Elements(Blocks([res.ptr]))
              && old(heap.live) !! Elements(Blocks([res.ptr]))
    ensures code == 0 ==>
              && res.ptr.family == 2 && res.ptr.addrlen == 16 && res.ptr.addr != null
              && var sa := res.ptr.addr; var port := if servname.Some? then Atoi(servname.value) else 0;
                 && sa.family == 2 && sa.len == 16
                 && sa.addr == (if nodename.Some? then resolved.value else 0x7F00_0001)
                 && InMemory(sa.port)[..2] == [port / 256, port % 256]
                 && sa.port % 256 == port / 256 && sa.port / 256 == port % 256
    ensures code == 0 ==>
              && res.ptr.flags == 0 && res.ptr.next == null
              && res.ptr.socktype == (if hints.Some? then hints.value.socktype else 0)
              && res.ptr.protocol == (if hints.Some? then hints.value.protocol else 0)
              && (nodename.None? <==> res.ptr.canonname == null)
              && (nodename.Some? ==> res.ptr.canonname[..] == nodename.value + ['\0'])
    ensures code == 0 ==>
              heap.live == old(heap.live) + {res.ptr} + {res.ptr.addr}
                           + (if res.ptr.canonname == null then {} else {res.ptr.canonname})
    ensures code == 0 ==>
              (InMemory(res.ptr.addr.addr) == LOCALHOST
               <==> nodename.Some? && InMemory(resolved.value) == LOCALHOST)
  {
    if res == null { return EAI_FAIL; }
    res.ptr := null;
    if nodename.None? && servname.None? { return EAI_NONAME; }
    var portNr := 0;
    if servname.Some? {
      portNr := Atoi(servname.value);
      if portNr <= 0 || portNr > 0xFFFF { return EAI_SERVICE; }
    }
    var addr := INADDR_LOOPBACK;
    LoopbackReversed(INADDR_LOOPBACK);
    if nodename.Some? {
      if resolved.None? { return EAI_FAIL; }
      addr := resolved.value;
    }
    var ai := Build(nodename, hints, addr, portNr, granted, heap);
    if ai == null { return EAI_MEMORY; }
    res.ptr := ai;
    OneNode(ai);
    PortInMemory(portNr);
    return 0;
  }

  /** A successful lookup, freed, leaves the heap as it was, having given back what it took. */
  method LookUpAndFree(nodename: Option<string>, servname: Option<string>, hints: Option<Hints>, res: Cell,
                       resolved: Option<nat>, granted: seq<bool>, heap: Heap)
    returns (code: int)
    requires |granted| == 3 && (nodename.Some? ==> |nodename.value| + 1 <= 0xFFFF)
    modifies heap, res
    ensures heap.live == old(heap.live)
    ensures code == Outcome(true, nodename, servname, resolved, granted)
  {
    code := GetAddrInfo(nodename, servname, hints, res, resolved, granted, heap);
    if code == 0 {
      FreeAddrInfo(res.ptr, heap, [res.ptr]);
    }
  }

  lemma OneNode(ai: Info)
    ensures Blocks([ai]) == BlocksOf(ai)
  {
  }
}
