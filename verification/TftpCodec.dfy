/** Packet field readers and writers (lwip-1.3.1/port/tftputils.c) and the packet builders of
    lwip-1.3.1/port/tftpserver.c. The readers are functions of the packet bytes; the writers
    fill a buffer in place and are proved against the byte strings of RFC 1350, section 5. */
module TftpCodec {
  import opened Bytes

  const OP_DATA: byte := 3
  const OP_ACK: byte := 4
  const OP_ERROR: byte := 5

  const DATA_LEN_MAX := 512
  const DATA_PKT_HDR_LEN := 4
  const DATA_PKT_LEN_MAX := DATA_PKT_HDR_LEN + DATA_LEN_MAX

  // ----- Readers -----

  function DecodeOp(buf: seq<byte>): byte
    requires |buf| >= 2
  {
    buf[1]
  }

  /** ntohs of the second 16-bit word. */
  function ExtractBlock(buf: seq<byte>): int
    requires |buf| >= 4
  {
    (buf[2] as int) * 256 + buf[3] as int
  }

  predicate IsCorrectAck(buf: seq<byte>, block: int)
    requires |buf| >= 4
  {
    DecodeOp(buf) == OP_ACK && block == ExtractBlock(buf)
  }

  // ----- The packets of RFC 1350, section 5 -----

  function Be16(x: int): (r: seq<byte>)
    requires 0 <= x < 0x1_0000
    ensures |r| == 2
  {
    [x / 256, x % 256]
  }

  function Header(op: byte, word: int): (r: seq<byte>)
    requires 0 <= word < 0x1_0000
    ensures |r| == 4
  {
    [0, op] + Be16(word)
  }

  function DataPacket(block: int, data: seq<byte>): seq<byte>
    requires 0 <= block < 0x1_0000
  {
    Header(OP_DATA, block) + data
  }

  function AckPacket(block: int): seq<byte>
    requires 0 <= block < 0x1_0000
  {
    Header(OP_ACK, block)
  }

  datatype ErrorCode =
    | NotDefined | FileNotFound | AccessViolation | DiskFull
    | IllegalOp | UnknownTransferId | FileAlreadyExists | NoSuchUser

  function Code(e: ErrorCode): byte {
    match e
    case NotDefined => 0
    case FileNotFound => 1
    case AccessViolation => 2
    case DiskFull => 3
    case IllegalOp => 4
    case UnknownTransferId => 5
    case FileAlreadyExists => 6
    case NoSuchUser => 7
  }

  function Text(e: ErrorCode): string {
    match e
    case NotDefined => "not defined"
    case FileNotFound => "file not found"
    case AccessViolation => "access violation"
    case DiskFull => "disk full"
    case IllegalOp => "illegal operation"
    case UnknownTransferId => "unknown transfer id"
    case FileAlreadyExists => "file already exists"
    case NoSuchUser => "no such user"
  }

  function ErrorMessage(code: byte, text: seq<byte>): seq<byte> {
    Header(OP_ERROR, code) + text + [0]
  }

  function ErrorText(e: ErrorCode): (r: seq<byte>)
    ensures |r| == |Text(e)| <= 19
  {
    Ascii(Text(e))
  }

  function ErrorPacket(e: ErrorCode): seq<byte> {
    ErrorMessage(Code(e), ErrorText(e))
  }

  /** The bytes before the first NUL, which is what strcpy copies. */
  function CString(buf: seq<byte>): (r: seq<byte>)
    requires 0 in buf
    ensures |r| < |buf| && r == buf[..|r|] && buf[|r|] == 0 && 0 !in r
  {
    if buf[0] == 0 then [] else
      assert 0 in buf[1..];
      [buf[0]] + CString(buf[1..])
  }

  // ----- Writers -----

  method SetOpcode(buffer: array<byte>, op: byte)
    requires buffer.Length >= 2
    modifies buffer
    ensures buffer[..] == [0, op] + old(buffer[2..])
  {
    buffer[0] := 0;
    buffer[1] := op;
  }

  method SetErrorCode(buffer: array<byte>, e: ErrorCode)
    requires buffer.Length >= 4
    modifies buffer
    ensures buffer[..] == old(buffer[..2]) + [0, Code(e)] + old(buffer[4..])
  {
    buffer[2] := 0;
    buffer[3] := Code(e);
  }

  /** strcpy of the message and its NUL behind the header. */
  method SetErrorMsg(buffer: array<byte>, msg: seq<byte>)
    requires buffer.Length >= 4 + |msg| + 1
    modifies buffer
    ensures buffer[..] == old(buffer[..4]) + msg + [0] + old(buffer[4 + |msg| + 1..])
  {
    forall i | 0 <= i < |msg| { buffer[4 + i] := msg[i]; }
    buffer[4 + |msg|] := 0;
  }

  /** The parameter is a u16_t, so an int argument is truncated on the way in. */
  method SetBlock(packet: array<byte>, block: int)
    requires packet.Length >= 4
    modifies packet
    ensures packet[..] == old(packet[..2]) + [block / 256 % 256, block % 256] + old(packet[4..])
  {
    U16Bytes(block);
    var b := U16(block);
    packet[2] := b / 256;
    packet[3] := b % 256;
  }

  method SetDataMessage(packet: array<byte>, buf: seq<byte>)
    requires packet.Length >= 4 + |buf|
    modifies packet
    ensures packet[..] == old(packet[..4]) + buf + old(packet[4 + |buf|..])
  {
    forall i | 0 <= i < |buf| { packet[4 + i] := buf[i]; }
  }

  /** strcpy of the name behind the opcode; the caller's array must hold the name and its NUL. */
  method ExtractFilename(fname: array<byte>, buf: seq<byte>)
    requires |buf| >= 2 && 0 in buf[2..] && |CString(buf[2..])| < fname.Length
    modifies fname
    ensures var name := CString(buf[2..]);
            fname[..|name| + 1] == name + [0] && fname[|name| + 1..] == old(fname[|name| + 1..])
  {
    var i := 0;
    var src := buf[2..];
    ghost var name := CString(src);
    while src[i] != 0
      invariant 0 <= i <= |name|
      invariant forall k :: 0 <= k < i ==> fname[k] == name[k]
      invariant forall k :: i <= k < fname.Length ==> fname[k] == old(fname[k])
      decreases |name| - i
    {
      fname[i] := src[i];
      i := i + 1;
    }
    fname[i] := 0;
    assert i == |name|;
  }

  method BuildData(block: int, buf: seq<byte>) returns (msg: seq<byte>)
    requires |buf| <= DATA_LEN_MAX
    ensures msg == [0, 3, block / 256 % 256, block % 256] + buf
    ensures msg == DataPacket(U16(block), buf)
  {
    U16Bytes(block);
    var packet := new byte[DATA_PKT_LEN_MAX];
    SetOpcode(packet, OP_DATA);
    SetBlock(packet, block);
    SetDataMessage(packet, buf);
    msg := packet[..|buf| + 4];
  }

  method BuildAck(block: int) returns (msg: seq<byte>)
    ensures msg == [0, 4, block / 256 % 256, block % 256]
    ensures msg == AckPacket(U16(block))
  {
    U16Bytes(block);
    var packet := new byte[4];
    SetOpcode(packet, OP_ACK);
    SetBlock(packet, block);
    msg := packet[..];
  }

  /** The returned length covers the terminating NUL and fits the caller's 512-byte buffer. */
  method BuildError(buf: array<byte>, e: ErrorCode) returns (len: nat)
    requires buf.Length == 512
    modifies buf
    ensures len <= buf.Length && buf[..len] == ErrorPacket(e)
  {
    SetOpcode(buf, OP_ERROR);
    SetErrorCode(buf, e);
    var text := ErrorText(e);
    ghost var header := buf[..4];
    assert header == [0, OP_ERROR] + [0, Code(e)] == Header(OP_ERROR, Code(e));
    SetErrorMsg(buf, text);
    len := 4 + |text| + 1;
    assert buf[..len] == header + text + [0];
  }

  /** tftp_send_error_message: the message built in a buffer of its own. */
  method ErrorReply(e: ErrorCode) returns (msg: seq<byte>)
    ensures msg == ErrorPacket(e)
  {
    var buf := new byte[512];
    var len := BuildError(buf, e);
    msg := buf[..len];
  }

  // ----- Round trips -----

  lemma {:induction false} CStringUnique(s: seq<byte>, rest: seq<byte>)
    requires 0 !in s
    ensures CString(s + [0] + rest) == s
  {
    if s != [] {
      CStringUnique(s[1..], rest);
      assert (s + [0] + rest)[1..] == s[1..] + [0] + rest;
      assert s == [s[0]] + s[1..];
    }
  }

  /** Reading back a DATA packet gives the opcode, block and payload it was built from, and two
      DATA packets are equal only when their blocks and payloads are. */
  lemma DataRoundTrip(block: int, data: seq<byte>, block': int, data': seq<byte>)
    requires 0 <= block < 0x1_0000 && 0 <= block' < 0x1_0000
    ensures var p := DataPacket(block, data);
            DecodeOp(p) == OP_DATA && ExtractBlock(p) == block && p[DATA_PKT_HDR_LEN..] == data
            && (p == DataPacket(block', data') <==> block == block' && data == data')
  {
  }

  /** The packets byte by byte: opcodes 3, 4 and 5, block numbers with the high byte first, and the eight
      error messages with their numbers. */
  lemma OnTheWire(b: int, data: seq<byte>)
    requires 0 <= b < 0x1_0000
    ensures DataPacket(b, data) == [0, 3, b / 256, b % 256] + data && AckPacket(b) == [0, 4, b / 256, b % 256]
    ensures ErrorPacket(NotDefined) == [0, 5, 0, 0] + Ascii("not defined") + [0]
    ensures ErrorPacket(FileNotFound) == [0, 5, 0, 1] + Ascii("file not found") + [0]
    ensures ErrorPacket(AccessViolation) == [0, 5, 0, 2] + Ascii("access violation") + [0]
    ensures ErrorPacket(DiskFull) == [0, 5, 0, 3] + Ascii("disk full") + [0]
    ensures ErrorPacket(IllegalOp) == [0, 5, 0, 4] + Ascii("illegal operation") + [0]
    ensures ErrorPacket(UnknownTransferId) == [0, 5, 0, 5] + Ascii("unknown transfer id") + [0]
    ensures ErrorPacket(FileAlreadyExists) == [0, 5, 0, 6] + Ascii("file already exists") + [0]
    ensures ErrorPacket(NoSuchUser) == [0, 5, 0, 7] + Ascii("no such user") + [0]
  {
  }

  /** The ACK test accepts, among all packets of at least four bytes and all ints, exactly the
      16-bit block numbers carried behind an ACK opcode. */
  lemma CorrectAckExact(p: seq<byte>, block: int)
    requires |p| >= 4
    ensures IsCorrectAck(p, block) <==>
            p[1] == 4 && p[2] as int * 256 + p[3] as int == block
    ensures forall b {:trigger AckPacket(b)} :: 0 <= b < 0x1_0000 ==>
              (p == AckPacket(b) ==> (IsCorrectAck(p, block) <==> block == b))
    ensures forall b, data {:trigger DataPacket(b, data)} :: 0 <= b < 0x1_0000 ==>
              (p == DataPacket(b, data) ==> !IsCorrectAck(p, block))
  {
  }

  lemma ErrorMessageFields(code: byte, text: seq<byte>)
    requires 0 !in text
    ensures var p := ErrorMessage(code, text);
            DecodeOp(p) == OP_ERROR && ExtractBlock(p) == code && 0 in p[4..] && CString(p[4..]) == text
  {
    var p := ErrorMessage(code, text);
    assert p[4..] == text + [0] + [];
    assert p[4..][|text|] == 0;
    CStringUnique(text, []);
  }

  /** An ERROR packet carries its code and, NUL-terminated, its text, and never passes the ACK
      test; the code tells the eight errors apart. */
  lemma ErrorRoundTrip(e: ErrorCode, block: int)
    ensures var p := ErrorPacket(e);
            DecodeOp(p) == OP_ERROR && ExtractBlock(p) == Code(e)
            && 0 in p[4..] && CString(p[4..]) == ErrorText(e)
            && !IsCorrectAck(p, block)
    ensures forall e' {:trigger Code(e')} :: Code(e) == Code(e') ==> e == e'
  {
    TextHasNoNul(e);
    ErrorMessageFields(Code(e), ErrorText(e));
  }

  lemma TextHasNoNul(e: ErrorCode)
    ensures 0 !in ErrorText(e)
  {
    LiteralsArePlain(e);
    AsciiKeepsNul(Text(e));
  }

  predicate Plain(s: string) {
    forall i :: 0 <= i < |s| ==> ' ' <= s[i] <= 'z'
  }

  lemma LiteralsArePlain(e: ErrorCode)
    ensures Plain(Text(e))
  {
    if Code(e) < 2 {
      TextsPlain01(e);
    } else if Code(e) < 4 {
      TextsPlain23(e);
    } else if Code(e) < 6 {
      TextsPlain45(e);
    } else {
      TextsPlain67(e);
    }
  }

  lemma TextsPlain01(e: ErrorCode)
    requires Code(e) < 2
    ensures Plain(Text(e))
  {
  }

  lemma TextsPlain23(e: ErrorCode)
    requires 2 <= Code(e) < 4
    ensures Plain(Text(e))
  {
  }

  lemma TextsPlain45(e: ErrorCode)
    requires 4 <= Code(e) < 6
    ensures Plain(Text(e))
  {
  }

  lemma TextsPlain67(e: ErrorCode)
    requires 6 <= Code(e)
    ensures Plain(Text(e))
  {
  }

  lemma AsciiKeepsNul(s: string)
    requires Plain(s)
    ensures 0 !in Ascii(s)
  {
  }
}
