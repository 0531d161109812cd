/** The download server of lwip-1.3.1/port/tftpserver.c:199-256 and a client under RFC 1350 at the two
    ends of a network that loses, duplicates and reorders packets in both directions. */
module TftpLossyDownload {
  import opened Bytes
  import opened TftpCodec
  import opened TftpDownload

  /** The packets the server has heard, in order; the client and the slices it took; and every ACK it
      ever sent. Every DATA packet the server sent stays available, and so does every ACK: a repeated
      ACK after a timeout is a second delivery of the same packet. */
  datatype Sys = Sys(file: seq<byte>, heard: seq<seq<byte>>, client: Client, picks: seq<nat>, acks: set<seq<byte>>)

  datatype Action = ServerHears(p: seq<byte>) | ClientHears(c: nat)

  function Init(file: seq<byte>): Sys {
    Sys(file, [], Client(1, [], false), [], {})
  }

  /** One delivery; one that is not possible changes nothing. The client answers every DATA packet with
      the ACK of the last block it has. */
  function Step(s: Sys, a: Action): (r: Sys)
    requires Acks(s.heard)
    ensures Acks(r.heard) && r.file == s.file
  {
    var server := Run(s.file, s.heard);
    match a
    case ServerHears(p) =>
      if p !in s.acks || |p| < 4 || !server.open then s else s.(heard := s.heard + [p])
    case ClientHears(c) =>
      if c >= |server.sent| then s else
        var k := ClientStep(s.client, server.sent[c]);
        s.(client := k,
           picks := if k.next == s.client.next then s.picks else s.picks + [c],
           acks := s.acks + if k.next > 1 then {AckPacket(U16(k.next - 1))} else {})
  }

  function Play(file: seq<byte>, acts: seq<Action>): (r: Sys)
    ensures Acks(r.heard) && r.file == file
    decreases |acts|
  {
    if acts == [] then Init(file) else Step(Play(file, acts[..|acts| - 1]), acts[|acts| - 1])
  }

  // ----- What the client has taken -----

  predicate InFile(file: seq<byte>, picks: seq<nat>) {
    forall i :: 0 <= i < |picks| ==> picks[i] <= |file| / DATA_LEN_MAX
  }

  function Picked(file: seq<byte>, picks: seq<nat>): seq<byte>
    requires InFile(file, picks)
  {
    if picks == [] then [] else
      Picked(file, picks[..|picks| - 1]) + Slice(file, picks[|picks| - 1])
  }

  /** An ACK packet and nothing more. */
  predicate IsAckPacket(p: seq<byte>) {
    |p| == 4 && p[0] == 0 && p[1] == OP_ACK
  }

  /** The i-th slice the client took came after i expected ACKs; only the last slice of the file ends it. */
  predicate Taken(file: seq<byte>, heard: seq<seq<byte>>, k: Client, picks: seq<nat>) {
    var n, m := |file| / DATA_LEN_MAX, |picks|;
    && Acks(heard) && InFile(file, picks)
    && k.next == 1 + m && k.got == Picked(file, picks)
    && (forall i :: 0 <= i < m ==> picks[i] <= |heard| && Matches(heard, picks[i]) == i)
    && (forall i :: 0 <= i < m - 1 ==> picks[i] < n)
    && (k.finished <==> m > 0 && picks[m - 1] == n)
  }

  ghost predicate Inv(s: Sys) {
    && Taken(s.file, s.heard, s.client, s.picks)
    && (forall p :: p in s.acks ==> IsAckPacket(p))
    && (forall i :: 0 <= i < |s.heard| ==> IsAckPacket(s.heard[i]))
  }

  lemma ServerKeepsInv(s: Sys, p: seq<byte>)
    requires Inv(s)
    ensures Inv(Step(s, ServerHears(p)))
  {
    var heard' := s.heard + [p];
    if p in s.acks {
      assert heard'[..|s.heard|] == s.heard;
      forall i | 0 <= i < |s.picks| ensures Matches(heard', s.picks[i]) == i {
        MatchesPrefix(heard', |s.heard|, s.picks[i]);
      }
    }
  }

  /** Numbers up to 65536 are told apart by 16 bits, where 65536 is 0. */
  lemma ClientTakes(k: Client, a: nat, slice: seq<byte>)
    requires a <= 0xFFFF && (k.finished || 1 <= k.next <= 0x1_0000)
    ensures ClientStep(k, DataPacket(U16(1 + a), slice)) ==
            if !k.finished && 1 + a == k.next then Client(k.next + 1, k.got + slice, |slice| < DATA_LEN_MAX) else k
  {
    DataRoundTrip(U16(1 + a), slice, 0, []);
  }

  lemma Labelled(file: seq<byte>, heard: seq<seq<byte>>, c: nat)
    requires Acks(heard) && c < |Run(file, heard).sent|
    ensures c <= |heard| && c <= |file| / DATA_LEN_MAX
    ensures Run(file, heard).sent[c] == DataPacket(U16(1 + Matches(heard, c)), Slice(file, c))
  {
    DownloadLabels(file, heard);
  }

  /** While the client is not finished the labels it waits for have not run out of 16 bits. */
  lemma Unfinished(file: seq<byte>, heard: seq<seq<byte>>, k: Client, picks: seq<nat>)
    requires Taken(file, heard, k, picks) && !k.finished
    ensures |picks| <= |file| / DATA_LEN_MAX
  {
    var m := |picks|;
    if m > 0 {
      assert m - 1 == Matches(heard, picks[m - 1]) <= picks[m - 1];
    }
  }

  lemma TakenAfter(file: seq<byte>, heard: seq<seq<byte>>, k: Client, picks: seq<nat>, c: nat, k': Client)
    requires Taken(file, heard, k, picks) && c <= |heard| && c <= |file| / DATA_LEN_MAX
    requires var slice := Slice(file, c);
             k' == if !k.finished && 1 + Matches(heard, c) == k.next then Client(k.next + 1, k.got + slice, |slice| < DATA_LEN_MAX) else k
    ensures k'.next >= 1 && Taken(file, heard, k', if k'.next == k.next then picks else picks + [c])
  {
    if !k.finished && 1 + Matches(heard, c) == k.next { TakesOne(file, heard, k, picks, c); }
  }

  /** What one delivery does to the client, in labels and slices. */
  lemma ClientHearsSlice(s: Sys, c: nat) returns (k': Client)
    requires Inv(s) && |s.file| < DATA_LEN_MAX * 0x1_0000 && c < |Run(s.file, s.heard).sent|
    ensures k' == ClientStep(s.client, Run(s.file, s.heard).sent[c])
    ensures k'.next >= 1 && Taken(s.file, s.heard, k', if k'.next == s.client.next then s.picks else s.picks + [c])
  {
    Labelled(s.file, s.heard, c);
    if !s.client.finished {
      Unfinished(s.file, s.heard, s.client, s.picks);
      FewSlices(s.file);
    }
    k' := ClientStep(s.client, Run(s.file, s.heard).sent[c]);
    ClientTakes(s.client, Matches(s.heard, c), Slice(s.file, c));
    TakenAfter(s.file, s.heard, s.client, s.picks, c, k');
  }

  lemma FewSlices(file: seq<byte>)
    requires |file| < DATA_LEN_MAX * 0x1_0000
    ensures |file| / DATA_LEN_MAX <= 0xFFFF
  {
  }

  lemma ClientKeepsInv(s: Sys, c: nat)
    requires Inv(s) && |s.file| < DATA_LEN_MAX * 0x1_0000
    ensures Inv(Step(s, ClientHears(c)))
  {
    if c < |Run(s.file, s.heard).sent| {
      var k' := ClientHearsSlice(s, c);
      AckIsAck(k'.next - 1);
      var acks := s.acks + if k'.next > 1 then {AckPacket(U16(k'.next - 1))} else {};
      assert forall p :: p in acks ==> IsAckPacket(p);
      assert Step(s, ClientHears(c)).acks == acks;
    }
  }

  lemma AckIsAck(k: nat)
    ensures IsAckPacket(AckPacket(U16(k)))
  {
  }

  lemma TakesOne(file: seq<byte>, heard: seq<seq<byte>>, k: Client, picks: seq<nat>, c: nat)
    requires Taken(file, heard, k, picks) && !k.finished && c <= |heard| && c <= |file| / DATA_LEN_MAX
    requires Matches(heard, c) == |picks|
    ensures var slice := Slice(file, c);
            Taken(file, heard, Client(k.next + 1, k.got + slice, |slice| < DATA_LEN_MAX), picks + [c])
  {
    assert (picks + [c])[..|picks|] == picks;
  }

  lemma {:induction false} PlayKeepsInv(file: seq<byte>, acts: seq<Action>)
    requires |file| < DATA_LEN_MAX * 0x1_0000
    ensures Inv(Play(file, acts))
    decreases |acts|
  {
    if acts != [] {
      var s := Play(file, acts[..|acts| - 1]);
      PlayKeepsInv(file, acts[..|acts| - 1]);
      match acts[|acts| - 1]
      case ServerHears(p) => ServerKeepsInv(s, p);
      case ClientHears(c) => ClientKeepsInv(s, c);
    }
  }

  // ----- When that is the file -----

  lemma {:induction false} PickedLength(file: seq<byte>, picks: seq<nat>)
    requires InFile(file, picks)
    requires forall i :: 0 <= i < |picks| ==> picks[i] < |file| / DATA_LEN_MAX
    ensures |Picked(file, picks)| == DATA_LEN_MAX * |picks|
    decreases |picks|
  {
    if picks != [] {
      PickedLength(file, picks[..|picks| - 1]);
    }
  }

  lemma {:induction false} PickedInOrder(file: seq<byte>, picks: seq<nat>)
    requires InFile(file, picks) && forall i :: 0 <= i < |picks| ==> picks[i] == i
    ensures Picked(file, picks) == file[..Min(|file|, DATA_LEN_MAX * |picks|)]
    decreases |picks|
  {
    if picks != [] {
      var m := |picks| - 1;
      PickedInOrder(file, picks[..m]);
      assert m == picks[m] && DATA_LEN_MAX * m <= |file|;
      assert file[..Reach(file, m)] == file[..DATA_LEN_MAX * m] + Slice(file, m);
    }
  }

  lemma {:induction false} FullMatches(ps: seq<seq<byte>>, n: nat)
    requires Acks(ps) && n <= |ps|
    ensures Matches(ps, n) == n <==> AllExpected(ps, n)
    decreases n
  {
    if n > 0 {
      FullMatches(ps, n - 1);
    }
  }

  lemma AllExpectedBelow(ps: seq<seq<byte>>, n: nat, i: nat)
    requires Acks(ps) && i <= n <= |ps| && AllExpected(ps, n)
    ensures Matches(ps, i) == i
  {
    FullMatches(ps, i);
  }

  /** All ACKs were the expected ones exactly when the server heard each of 1 to n once, in order. */
  lemma {:induction false} ExpectedMeansInOrder(ps: seq<seq<byte>>, n: nat)
    requires Acks(ps) && n <= |ps| && n <= 0xFFFF && forall i :: 0 <= i < |ps| ==> IsAckPacket(ps[i])
    ensures AllExpected(ps, n) <==> ps[..n] == GoodAcks(n)
  {
    if AllExpected(ps, n) {
      forall i | 0 <= i < n ensures ps[i] == AckPacket(i + 1) {
        AllExpectedBelow(ps, n, i);
        assert Expected(ps, i);
      }
    } else if ps[..n] == GoodAcks(n) {
      GoodAcksExpected(ps, n, n);
    }
  }

  lemma FinishedExact(s: Sys)
    requires Inv(s) && s.client.finished
    ensures var n := |s.file| / DATA_LEN_MAX; n <= |s.heard| && (s.client.got == s.file <==> AllExpected(s.heard, n))
  {
    var n, m := |s.file| / DATA_LEN_MAX, |s.picks|;
    var front := s.picks[..m - 1];
    PickedLength(s.file, front);
    FullMatches(s.heard, n);
    if AllExpected(s.heard, n) {
      forall i | 0 <= i < m ensures s.picks[i] == i {
        AllExpectedBelow(s.heard, n, s.picks[i]);
      }
      PickedInOrder(s.file, s.picks);
      assert s.file[..|s.file|] == s.file;
    }
  }

  /** However the network behaves, a client that has finished holds the file if and only if the server
      heard the ACKs 1 to |file| / 512 each exactly once and in order before it closed. One ACK
      repeated in between, for instance because DATA was lost, and the file is wrong though finished. */
  lemma LossyDownloadExact(file: seq<byte>, acts: seq<Action>)
    requires |file| < DATA_LEN_MAX * 0x1_0000
    ensures var s, n := Play(file, acts), |file| / DATA_LEN_MAX;
            s.client.finished ==> n <= |s.heard| && (s.client.got == file <==> s.heard[..n] == GoodAcks(n))
  {
    var s, n := Play(file, acts), |file| / DATA_LEN_MAX;
    PlayKeepsInv(file, acts);
    if s.client.finished {
      FinishedExact(s);
      ExpectedMeansInOrder(s.heard, n);
    }
  }

  // ----- One lost packet -----

  lemma PlaySnoc(file: seq<byte>, acts: seq<Action>, a: Action)
    ensures Play(file, acts + [a]) == Step(Play(file, acts), a)
  {
    assert (acts + [a])[..|acts|] == acts;
  }

  /** A file of three slices, the second DATA packet lost and the first ACK repeated: the client takes
      the third slice for the second and finishes. */
  lemma LostDataWitness(file: seq<byte>) returns (acts: seq<Action>)
    requires 2 * DATA_LEN_MAX <= |file| < 3 * DATA_LEN_MAX
    ensures var s := Play(file, acts);
            s.client.finished && s.client.got == file[..DATA_LEN_MAX] + file[2 * DATA_LEN_MAX..] != file
  {
    var a1 := AckPacket(1);
    acts := FirstSlice(file);
    AckTwice(file, acts, a1);
    acts := acts + [ServerHears(a1)] + [ServerHears(a1)];
    ThirdForSecond(file, Play(file, acts));
    PlaySnoc(file, acts, ClientHears(2));
    acts := acts + [ClientHears(2)];
  }

  lemma AckTwice(file: seq<byte>, acts: seq<Action>, p: seq<byte>)
    requires 2 * DATA_LEN_MAX <= |file| && |p| >= 4
    requires var s := Play(file, acts); s.heard == [] && p in s.acks
    ensures Play(file, acts + [ServerHears(p)] + [ServerHears(p)]) == Play(file, acts).(heard := [p, p])
  {
    var s := Play(file, acts);
    PlaySnoc(file, acts, ServerHears(p));
    DownloadLabels(file, []);
    var s1 := Play(file, acts + [ServerHears(p)]);
    assert [] + [p] == [p] && [p] + [p] == [p, p];
    assert s1 == s.(heard := [p]);
    PlaySnoc(file, acts + [ServerHears(p)], ServerHears(p));
    DownloadLabels(file, [p]);
  }

  lemma FirstSlice(file: seq<byte>) returns (acts: seq<Action>)
    requires DATA_LEN_MAX <= |file|
    ensures Play(file, acts) == Sys(file, [], Client(2, Slice(file, 0), false), [0], {AckPacket(1)})
  {
    acts := [];
    PlaySnoc(file, acts, ClientHears(0));
    acts := acts + [ClientHears(0)];
    Labelled(file, [], 0);
    ClientTakes(Client(1, [], false), 0, Slice(file, 0));
    assert [] + Slice(file, 0) == Slice(file, 0);
  }

  lemma ThirdForSecond(file: seq<byte>, s: Sys)
    requires 2 * DATA_LEN_MAX <= |file| < 3 * DATA_LEN_MAX
    requires s.file == file && s.heard == [AckPacket(1), AckPacket(1)] && s.client == Client(2, Slice(file, 0), false)
    ensures var k := Step(s, ClientHears(2)).client;
            k.finished && k.got == file[..DATA_LEN_MAX] + file[2 * DATA_LEN_MAX..] != file
  {
    var ps := s.heard;
    DownloadLabels(file, ps);
    assert Matches(ps, 1) == 1 && Matches(ps, 2) == 1;
    Labelled(file, ps, 2);
    ClientTakes(s.client, 1, Slice(file, 2));
  }
}
