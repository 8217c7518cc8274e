/**
 * SimpleSerial framing over a byte-wide serial line: a packet is a command
 * byte followed either by the frame byte alone or by the COBS encoding of
 * its data with a CRC-8 appended, and then the frame byte.  The line is a
 * Channel whose output grows with every putch and whose input getch
 * consumes; when the input runs out while the target is still reading, the
 * model reports Blocked (the firmware would wait forever).
 */
module SimpleSerial {
  import opened Wrappers
  import opened Bytes
  import opened Crc8
  import opened Cobs

  /** The serial line: everything sent so far, and the bytes still to be received. */
  class Channel {
    var tx: seq<byte>
    var rx: seq<byte>

    constructor (input: seq<byte>)
      ensures tx == [] && rx == input
    {
      tx := [];
      rx := input;
    }

    /** putch */
    method Putch(b: byte)
      modifies this
      ensures tx == old(tx) + [b] && rx == old(rx)
    {
      tx := tx + [b];
    }

    /** getch; it blocks while no byte has arrived, so it is only called when one has. */
    method Getch() returns (b: byte)
      requires rx != []
      modifies this
      ensures b == old(rx)[0] && rx == old(rx)[1..] && tx == old(tx)
    {
      b := rx[0];
      rx := rx[1..];
    }
  }

  /** How a call that reads the line ends: still waiting for input, or returned with a value. */
  datatype Call<T> = Blocked | Returned(value: T)

  // ---------------------------------------------------------------------
  // Sending

  /** send_buf: a null buffer or a zero length sends nothing. */
  method SendBuf(ch: Channel, buf: array?<byte>, len: nat)
    requires buf != null ==> len <= buf.Length
    modifies ch
    ensures buf != null ==> ch.tx == old(ch.tx) + buf[..len]
    ensures buf == null ==> ch.tx == old(ch.tx)
    ensures ch.rx == old(ch.rx)
  {
    if buf == null || len == 0 {
      return;
    }
    var i := 0;
    while i < len
      invariant i <= len
      invariant ch.tx == old(ch.tx) + buf[..i] && ch.rx == old(ch.rx)
    {
      assert buf[..i + 1] == buf[..i] + [buf[i]];
      ch.Putch(buf[i]);
      i := i + 1;
    }
  }

  /** The position of the first zero byte of s at or after i. */
  function FirstZero(s: seq<byte>, i: nat): (r: Option<nat>)
    decreases |s| - i
    ensures r.Some? ==> i <= r.value < |s| && s[r.value] == 0 && forall j :: i <= j < r.value ==> s[j] != 0
    ensures r.None? ==> forall j :: i <= j < |s| ==> s[j] != 0
  {
    if i >= |s| then None else if s[i] == 0 then Some(i) else FirstZero(s, i + 1)
  }

  /** send_str: the bytes of a NUL-terminated string, without the NUL. */
  method SendStr(ch: Channel, s: array<byte>) returns (sent: nat)
    requires FirstZero(s[..], 0).Some?
    modifies ch
    ensures sent == FirstZero(s[..], 0).value
    ensures ch.tx == old(ch.tx) + s[..sent] && ch.rx == old(ch.rx)
  {
    var cur := 0;
    while s[cur] != 0
      invariant cur <= FirstZero(s[..], 0).value
      invariant ch.tx == old(ch.tx) + s[..cur] && ch.rx == old(ch.rx)
      decreases s.Length - cur
    {
      assert s[..cur + 1] == s[..cur] + [s[cur]];
      ch.Putch(s[cur]);
      cur := cur + 1;
    }
    sent := cur;
  }

  /** The bytes of send_reset_sequence. */
  const ResetSequence: seq<byte> := [0, 0, 0, 114, 0, 0, 0]

  /** send_reset_sequence */
  method SendResetSequence(ch: Channel)
    modifies ch
    ensures ch.tx == old(ch.tx) + ResetSequence && ch.rx == old(ch.rx)
  {
    var reset := new byte[7];
    reset[0], reset[1], reset[2], reset[3], reset[4], reset[5], reset[6] := 0, 0, 0, 114, 0, 0, 0;
    assert reset[..] == ResetSequence;
    SendBuf(ch, reset, 7);
  }

  /** The frame a packet with command `cmd` and payload `data` occupies on the line. */
  function Packet(cmd: byte, data: seq<byte>): (r: seq<byte>)
    ensures |r| >= 2 && r[0] == cmd && r[|r| - 1] == FrameByte
  {
    if data == [] then [cmd, FrameByte] else [cmd] + Stuff(data + [Crc(data)]) + [FrameByte]
  }

  /** send_ack: the data-less packet [command, FRAME_BYTE]. */
  method SendAck(ch: Channel, command: byte)
    modifies ch
    ensures ch.tx == old(ch.tx) + Packet(command, []) && ch.rx == old(ch.rx)
  {
    var ack := new byte[2];
    ack[0] := command;
    ack[1] := FrameByte;
    assert ack[..] == [command, FrameByte];
    SendBuf(ch, ack, 2);
  }

  /** The open block held in cobs_block behind its (not yet written) code byte. */
  lemma BlockClosed(a: seq<byte>, block: seq<byte>, v: byte)
    requires |block| <= MaxBlock && |block| + 1 <= |a| && a[1..|block| + 1] == block && v == CountByte(|block| + 1)
    ensures a[0 := v][..|block| + 1] == Close(block)
  {
    assert a[0 := v][..|block| + 1] == [v] + a[1..|block| + 1];
  }

  lemma BlockPush(a: seq<byte>, block: seq<byte>, b: byte)
    requires |block| + 2 <= |a| && a[1..|block| + 1] == block
    ensures a[|block| + 1 := b][1..|block| + 2] == block + [b]
  {
    assert a[|block| + 1 := b][1..|block| + 2] == a[1..|block| + 1] + [b];
  }

  /** Sending the open block: its code byte goes in at code_index, then the whole block goes out. */
  method SendBlock(ch: Channel, cobsBlock: array<byte>, codeIndex: nat, code: nat, ghost block: seq<byte>)
    requires cobsBlock.Length == 255 && codeIndex == 0
    requires |block| <= MaxBlock && code == |block| + 1 && cobsBlock[1..code] == block
    modifies ch, cobsBlock
    ensures ch.tx == old(ch.tx) + Close(block) && ch.rx == old(ch.rx)
  {
    BlockClosed(cobsBlock[..], block, CountByte(code));
    cobsBlock[codeIndex] := CountByte(code);
    SendBuf(ch, cobsBlock, code);
  }

  /** Appending a non-zero byte to the open block. */
  method AppendByte(cobsBlock: array<byte>, code: nat, b: byte, ghost block: seq<byte>)
    requires cobsBlock.Length == 255 && code == |block| + 1 < 255 && cobsBlock[1..code] == block
    modifies cobsBlock
    ensures cobsBlock[1..code + 1] == block + [b]
  {
    BlockPush(cobsBlock[..], block, b);
    cobsBlock[code] := b;
  }

  /**
   * One pass of sendpacket's loop body for the byte b: send the open block
   * if b is the frame byte or the block is full, then append b unless it
   * is the frame byte.
   */
  method SendByte(ch: Channel, cobsBlock: array<byte>, codeIndex: nat, code: nat, b: byte,
                  ghost block: seq<byte>, ghost x: seq<byte>, ghost i: nat, ghost total: seq<byte>)
    returns (codeIndex': nat, code': nat)
    requires cobsBlock.Length == 255 && codeIndex == 0
    requires |block| <= MaxBlock && code == |block| + 1 && cobsBlock[1..code] == block
    requires i < |x| && b == x[i] && ch.tx + EncodeFrom(block, x[i..]) == total
    modifies ch, cobsBlock
    ensures ch.tx + EncodeFrom(StepBlock(block, b), x[i + 1..]) == total
    ensures codeIndex' == 0 && code' == |StepBlock(block, b)| + 1 && cobsBlock[1..code'] == StepBlock(block, b)
    ensures ch.rx == old(ch.rx)
  {
    StuffStep(x, i, ch.tx, block, total);
    codeIndex', code' := codeIndex, code;
    ghost var k := block;
    if b == FrameByte || code == 0xFF {
      SendBlock(ch, cobsBlock, codeIndex', code', k);
      codeIndex' := 0;
      code' := 1;
      k := [];
    }
    if b != FrameByte {
      AppendByte(cobsBlock, code', b, k);
      code' := code' + 1;
      k := k + [b];
    }
    assert ch.tx == StepDone(old(ch.tx), block, b) && k == StepBlock(block, b);
  }

  /** The pieces sendpacket sends, in order, make up the packet. */
  lemma FramedPacket(t: seq<byte>, cmd: byte, d: seq<byte>, body: seq<byte>)
    requires d != [] && body == Stuff(d + [Crc(d)])
    ensures t + [cmd] + body + [FrameByte] == t + Packet(cmd, d)
  {
    assert t + [cmd] + body + [FrameByte] == t + ([cmd] + body + [FrameByte]);
  }

  /**
   * sendpacket's stream mode: the COBS encoding of the data followed by
   * their CRC, sent block by block out of a 255-byte buffer.
   */
  method StreamStuffed(ch: Channel, data: array<byte>, len: nat, crc: byte)
    requires len <= data.Length
    modifies ch
    ensures ch.tx == old(ch.tx) + Stuff(data[..len] + [crc]) && ch.rx == old(ch.rx)
  {
    ghost var x := data[..len] + [crc];
    ghost var total := ch.tx + Stuff(x);
    var cobsBlock := new byte[255];
    var codeIndex := 0;
    var code: nat := 1;
    ghost var block: seq<byte> := [];
    var i := 0;
    while i < len + 1
      invariant i <= len + 1 && unchanged(data)
      invariant |block| <= MaxBlock && code == |block| + 1 && codeIndex == 0
      invariant cobsBlock[1..code] == block
      invariant ch.tx + EncodeFrom(block, x[i..]) == total && ch.rx == old(ch.rx)
    {
      var b: byte;
      if i < len {
        b := data[i];
      } else {
        b := crc;
      }
      codeIndex, code := SendByte(ch, cobsBlock, codeIndex, code, b, block, x, i, total);
      block := StepBlock(block, b);
      i := i + 1;
    }
    assert x[len + 1..] == [];
    SendBlock(ch, cobsBlock, codeIndex, code, block);
  }

  /**
   * sendpacket: with no data (a null pointer or a zero length) it sends
   * [cmd, FRAME_BYTE]; otherwise cmd, the COBS encoding of the data and
   * their CRC, streamed block by block out of a 255-byte buffer, and the
   * frame byte.
   */
  method SendPacket(ch: Channel, cmd: byte, data: array?<byte>, dataLen: nat) returns (status: int)
    requires data != null ==> dataLen <= data.Length
    modifies ch
    ensures status == 0
    ensures ch.tx == old(ch.tx) + Packet(cmd, if data == null then [] else data[..dataLen])
    ensures ch.rx == old(ch.rx)
  {
    var len := if data == null then 0 else dataLen;
    if len == 0 {
      var buf := new byte[2];
      buf[0] := cmd;
      buf[1] := FrameByte;
      assert buf[..] == [cmd, FrameByte];
      SendBuf(ch, buf, 2);
      return 0;
    }
    var cmdBuf := new byte[1];
    cmdBuf[0] := cmd;
    assert cmdBuf[..1] == [cmd];
    SendBuf(ch, cmdBuf, 1);
    var crc := CalcCrc(data, len);
    StreamStuffed(ch, data, len, crc);
    var terminator := new byte[1];
    terminator[0] := FrameByte;
    assert terminator[..1] == [FrameByte];
    SendBuf(ch, terminator, 1);
    FramedPacket(old(ch.tx), cmd, data[..dataLen], Stuff(data[..len] + [crc]));
    return 0;
  }

  // ---------------------------------------------------------------------
  // Receiving

  /** The shortest prefix of the input that ends with the frame byte, if there is one. */
  function NextFrame(s: seq<byte>): (r: Option<seq<byte>>)
    ensures r.Some? ==> var f := r.value;
      1 <= |f| <= |s| && f == s[..|f|] && f[|f| - 1] == FrameByte && NonZero(f[..|f| - 1])
    ensures r.None? ==> NonZero(s)
  {
    match FirstZero(s, 0)
    case None => None
    case Some(k) => Some(s[..k + 1])
  }

  /**
   * read_until_terminator: with a null length pointer it returns NULL
   * (Returned(None)); otherwise it reads up to and including the first
   * frame byte and returns those bytes.
   */
  method ReadUntilTerminator(ch: Channel, lenPtr: bool) returns (r: Call<Option<seq<byte>>>)
    modifies ch
    ensures ch.tx == old(ch.tx)
    ensures !lenPtr ==> r == Returned(None) && ch.rx == old(ch.rx)
    ensures lenPtr ==> match NextFrame(old(ch.rx))
      case None => r == Blocked && ch.rx == []
      case Some(f) => r == Returned(Some(f)) && ch.rx == old(ch.rx)[|f|..]
  {
    if !lenPtr {
      return Returned(None);
    }
    ghost var s := ch.rx;
    var buf: seq<byte> := [];
    while true
      invariant ch.tx == old(ch.tx) && s == old(ch.rx)
      invariant |buf| <= |s| && buf == s[..|buf|] && ch.rx == s[|buf|..]
      invariant FirstZero(s, 0) == FirstZero(s, |buf|)
      decreases |ch.rx|
    {
      if ch.rx == [] {
        return Blocked;
      }
      var b := ch.Getch();
      assert s[..|buf| + 1] == buf + [b];
      buf := buf + [b];
      if b == FrameByte {
        return Returned(Some(buf));
      }
    }
  }

  /** p ends with pat. */
  predicate EndsWith(p: seq<byte>, pat: seq<byte>) {
    |p| >= |pat| && p[|p| - |pat|..] == pat
  }

  /** The length of the shortest prefix of s, no shorter than n, that ends with pat. */
  function SeqEnd(pat: seq<byte>, s: seq<byte>, n: nat): (r: Option<nat>)
    decreases |s| + 1 - n
    ensures r.Some? ==> n <= r.value <= |s| && EndsWith(s[..r.value], pat)
    ensures r.Some? ==> forall m :: n <= m < r.value ==> !EndsWith(s[..m], pat)
    ensures r.None? ==> forall m :: n <= m <= |s| ==> !EndsWith(s[..m], pat)
  {
    if n > |s| then None else if EndsWith(s[..n], pat) then Some(n) else SeqEnd(pat, s, n + 1)
  }

  /** The shortest non-empty prefix of s that ends with pat, if there is one. */
  function UntilSequence(pat: seq<byte>, s: seq<byte>): Option<seq<byte>> {
    match SeqEnd(pat, s, 1)
    case None => None
    case Some(n) => Some(s[..n])
  }

  /**
   * read_until_sequence: NULL (Returned(None)) for a null or empty
   * sequence or a null length pointer; otherwise it reads until the bytes
   * read end with the sequence and returns all of them.
   */
  method ReadUntilSequence(ch: Channel, pat: array?<byte>, patLen: nat, outLenPtr: bool)
    returns (r: Call<Option<seq<byte>>>)
    requires pat != null ==> patLen <= pat.Length
    modifies ch
    ensures ch.tx == old(ch.tx)
    ensures pat == null || patLen == 0 || !outLenPtr ==> r == Returned(None) && ch.rx == old(ch.rx)
    ensures pat != null && patLen > 0 && outLenPtr ==> match UntilSequence(pat[..patLen], old(ch.rx))
      case None => r == Blocked && ch.rx == []
      case Some(p) => r == Returned(Some(p)) && ch.rx == old(ch.rx)[|p|..]
  {
    if pat == null || patLen == 0 || !outLenPtr {
      return Returned(None);
    }
    ghost var s := ch.rx;
    ghost var q := pat[..patLen];
    var buf: seq<byte> := [];
    while true
      invariant ch.tx == old(ch.tx) && s == old(ch.rx) && pat[..patLen] == q
      invariant |buf| <= |s| && buf == s[..|buf|] && ch.rx == s[|buf|..]
      invariant SeqEnd(q, s, 1) == SeqEnd(q, s, |buf| + 1)
      decreases |ch.rx|
    {
      if ch.rx == [] {
        return Blocked;
      }
      var b := ch.Getch();
      assert s[..|buf| + 1] == buf + [b];
      buf := buf + [b];
      if |buf| >= patLen && buf[|buf| - patLen..] == pat[..patLen] {
        return Returned(Some(buf));
      }
    }
  }

  /** The frame byte as a one-byte sequence finds what read_until_terminator finds. */
  lemma {:induction false} SeqEndFrameByte(s: seq<byte>, n: nat)
    requires 1 <= n <= |s| + 1
    ensures SeqEnd([FrameByte], s, n) == (match FirstZero(s, n - 1) case None => None case Some(k) => Some(k + 1))
    decreases |s| + 1 - n
  {
    if n <= |s| {
      assert s[..n][n - 1..] == [s[n - 1]];
      if s[n - 1] != FrameByte {
        SeqEndFrameByte(s, n + 1);
      }
    }
  }

  lemma TerminatorIsSequence(s: seq<byte>)
    ensures UntilSequence([FrameByte], s) == NextFrame(s)
  {
    SeqEndFrameByte(s, 1);
  }

  /** What wait_ack returns for the frame it reads: 0 only for [cmd, FRAME_BYTE]. */
  function AckStatus(cmd: byte, frame: seq<byte>): int {
    if |frame| != 2 then -1 else if frame[0] != cmd then -1 else 0
  }

  /** wait_ack */
  method WaitAck(ch: Channel, cmd: byte) returns (r: Call<int>)
    modifies ch
    ensures ch.tx == old(ch.tx)
    ensures match NextFrame(old(ch.rx))
      case None => r == Blocked && ch.rx == []
      case Some(f) => r == Returned(AckStatus(cmd, f)) && ch.rx == old(ch.rx)[|f|..]
  {
    var got := ReadUntilTerminator(ch, true);
    if got.Blocked? {
      return Blocked;
    }
    if got.value.None? {
      return Returned(-1);
    }
    var buf := got.value.value;
    if |buf| != 2 {
      return Returned(-1);
    }
    var receivedCmd := buf[0];
    if receivedCmd != cmd {
      return Returned(-1);
    }
    return Returned(0);
  }

  /**
   * What readpacket reports: its return value and, for each of *cmd,
   * *data and *data_len, the value written there (None where it leaves
   * the caller's variable untouched).
   */
  datatype Reply = Reply(status: int, cmd: Option<byte>, data: Option<seq<byte>>, dataLen: Option<nat>)

  /** The width of size_t on the target. */
  const SizeModulus: nat := 0x1_0000_0000

  /**
   * cobs_block_len as readpacket computes it from buf_len after the
   * terminator is stripped: an unsigned subtraction, which wraps around
   * for a frame holding only the terminator.
   */
  function CobsBlockLenAsWritten(bufLen: nat): (r: nat)
    requires bufLen < SizeModulus
    ensures r < SizeModulus
    ensures bufLen >= 1 ==> r == bufLen - 1
  {
    (bufLen + SizeModulus - 1) % SizeModulus
  }

  /**
   * A lone terminator leaves buf_len at 0 and asks cobs_unstuff_data to
   * decode 2^32 - 1 bytes of a one-byte buffer; readpacket survives only
   * because that much memory cannot be allocated.
   */
  lemma LoneTerminatorUnderflow()
    ensures CobsBlockLenAsWritten(|[FrameByte]| - 1) == SizeModulus - 1
    ensures CobsBlockLenAsWritten(|[FrameByte]| - 1) > |[FrameByte]|
  {}

  /**
   * readpacket on the decoded bytes of a frame with command cmd: the last
   * one is the CRC of the others, and data_len is written before the CRC
   * is checked.
   */
  function Payload(cmd: byte, d: seq<byte>): (r: Reply)
    ensures r.cmd == Some(cmd)
  {
    if |d| == 0 then Reply(-1, Some(cmd), None, None)
    else
      var n := |d| - 1;
      if Crc(d[..n]) != d[n] then Reply(-1, Some(cmd), None, Some(n))
      else Reply(0, Some(cmd), Some(d[..n]), Some(n))
  }

  /** readpacket on the COBS block of a frame with command cmd. */
  function DecodeReply(cmd: byte, block: seq<byte>): (r: Reply)
    ensures r.cmd == Some(cmd)
  {
    match Decode(block)
    case None => Reply(-1, Some(cmd), None, None)
    case Some(d) => Payload(cmd, d)
  }

  /**
   * readpacket on a received frame (terminator included), with a lone
   * terminator rejected as an empty encoding; `dataOut` says whether both
   * data and data_len are non-null.
   */
  function ParseFrame(frame: seq<byte>, dataOut: bool): (r: Reply)
    ensures r.status == 0 || r.status == -1
    ensures r.data.Some? ==> r.status == 0 && r.dataLen == Some(|r.data.value|)
    ensures r.status == 0 && r.dataLen.Some? ==> r.data.Some?
  {
    if |frame| == 0 then Reply(-1, None, None, None)
    else
      var bufLen := |frame| - 1;
      if bufLen == 1 then Reply(0, Some(frame[0]), None, None)
      else if !dataOut then Reply(-1, None, None, None)
      else if bufLen == 0 then Reply(-1, Some(frame[0]), None, None)
      else DecodeReply(frame[0], frame[1..bufLen])
  }

  /**
   * The part of readpacket after the frame has been read: `buf` holds the
   * frame, terminator included, and `dataOut` says whether both data and
   * data_len are non-null.
   */
  method ParsePacket(buf: seq<byte>, dataOut: bool) returns (r: Reply)
    ensures r == ParseFrame(buf, dataOut)
  {
    var bufLen := |buf|;
    if bufLen == 0 {
      return Reply(-1, None, None, None);
    }
    bufLen := bufLen - 1;
    if bufLen == 1 {
      return Reply(0, Some(buf[0]), None, None);
    }
    if !dataOut {
      return Reply(-1, None, None, None);
    }
    var cmd := buf[0];
    if bufLen == 0 {
      return Reply(-1, Some(cmd), None, None);
    }
    r := DecodePacketData(cmd, buf, bufLen);
  }

  /** A fresh buffer holding s (the model keeps received frames as sequences). */
  method ToArray(s: seq<byte>) returns (a: array<byte>)
    ensures fresh(a) && a[..] == s
  {
    a := new byte[|s|](i => if 0 <= i < |s| then s[i] else 0);
  }

  /**
   * readpacket for a frame that carries data: the bytes between the
   * command and the terminator are COBS-decoded into a fresh buffer, and
   * the last decoded byte must be the CRC of the others.
   */
  method DecodePacketData(cmd: byte, buf: seq<byte>, bufLen: nat) returns (r: Reply)
    requires 2 <= bufLen < |buf|
    ensures r == DecodeReply(cmd, buf[1..bufLen])
  {
    var cobsBlockLen := bufLen - 1;
    var encoded := ToArray(buf[1..bufLen]);
    assert encoded[..cobsBlockLen] == buf[1..bufLen];
    var maxDecodeLen := MaxDecodeLen(cobsBlockLen);
    var decoded := new byte[maxDecodeLen];
    var decodedLen := UnstuffData(encoded, cobsBlockLen, decoded);
    if decodedLen > maxDecodeLen || decodedLen == 0 {
      return Reply(-1, Some(cmd), None, None);
    }
    assert Decode(buf[1..bufLen]) == Some(decoded[..decodedLen]);
    r := CheckCrc(cmd, decoded, decodedLen);
  }

  /** readpacket's last step: split off the CRC byte and check it against the others. */
  method CheckCrc(cmd: byte, decoded: array<byte>, decodedLen: nat) returns (r: Reply)
    requires 1 <= decodedLen <= decoded.Length
    ensures r == Payload(cmd, decoded[..decodedLen])
  {
    ghost var d := decoded[..decodedLen];
    var crc := decoded[decodedLen - 1];
    var dataLen := decodedLen - 1;
    var c := CalcCrc(decoded, dataLen);
    assert d[..dataLen] == decoded[..dataLen] && d[dataLen] == crc;
    if c != crc {
      return Reply(-1, Some(cmd), None, Some(dataLen));
    }
    return Reply(0, Some(cmd), Some(decoded[..dataLen]), Some(dataLen));
  }

  /**
   * readpacket: a null cmd pointer returns -1 at once; otherwise it reads
   * one frame and reports as ParseFrame says.
   */
  method ReadPacket(ch: Channel, cmdOut: bool, dataOut: bool, dataLenOut: bool) returns (r: Call<Reply>)
    modifies ch
    ensures ch.tx == old(ch.tx)
    ensures !cmdOut ==> r == Returned(Reply(-1, None, None, None)) && ch.rx == old(ch.rx)
    ensures cmdOut ==> match NextFrame(old(ch.rx))
      case None => r == Blocked && ch.rx == []
      case Some(f) => r == Returned(ParseFrame(f, dataOut && dataLenOut)) && ch.rx == old(ch.rx)[|f|..]
  {
    if !cmdOut {
      return Returned(Reply(-1, None, None, None));
    }
    var got := ReadUntilTerminator(ch, true);
    if got.Blocked? {
      return Blocked;
    }
    var reply := ParsePacket(got.value.value, dataOut && dataLenOut);
    return Returned(reply);
  }

  // ---------------------------------------------------------------------
  // What a receiver makes of what a sender sends

  /** A zero byte at k, preceded only by non-zero bytes, is the first zero. */
  lemma FirstZeroAt(s: seq<byte>, k: nat)
    requires k < |s| && s[k] == 0 && NonZero(s[..k])
    ensures FirstZero(s, 0) == Some(k)
  {}

  /** The bytes of a packet before its terminator. */
  lemma PacketBody(cmd: byte, data: seq<byte>)
    requires cmd != 0
    ensures var p := Packet(cmd, data); NonZero(p[..|p| - 1])
  {
    var p := Packet(cmd, data);
    if data != [] {
      var body := Stuff(data + [Crc(data)]);
      StuffNonZero(data + [Crc(data)]);
      var q := p[..|p| - 1];
      assert q == [cmd] + body;
      assert forall i :: 1 <= i < |q| ==> q[i] == body[i - 1];
    }
  }

  /**
   * A packet with a non-zero command is exactly one frame: a reader stops
   * at its terminator, whatever follows it on the line.
   */
  lemma PacketIsOneFrame(cmd: byte, data: seq<byte>, rest: seq<byte>)
    requires cmd != 0
    ensures NextFrame(Packet(cmd, data) + rest) == Some(Packet(cmd, data))
  {
    var p := Packet(cmd, data);
    var s := p + rest;
    PacketBody(cmd, data);
    assert s[..|p| - 1] == p[..|p| - 1];
    FirstZeroAt(s, |p| - 1);
    assert s[..|p|] == p;
  }

  /**
   * readpacket gives back what sendpacket sent: the command, and for a
   * non-empty payload of at most 253 bytes the payload and its length.
   * (A larger payload with its CRC can exceed one COBS block, where the
   * encoder may lose a zero byte.)
   */
  lemma PacketRoundTrip(cmd: byte, data: seq<byte>)
    requires cmd != 0 && |data| <= MaxBlock - 1
    ensures data == [] ==> ParseFrame(Packet(cmd, data), true) == Reply(0, Some(cmd), None, None)
    ensures data != [] ==> ParseFrame(Packet(cmd, data), true) == Reply(0, Some(cmd), Some(data), Some(|data|))
  {
    if data != [] {
      var x := data + [Crc(data)];
      var body := Stuff(x);
      var p := Packet(cmd, data);
      StuffLength(x);
      RoundTripShort(x);
      DecodeLength(body);
      assert p[1..|p| - 1] == body;
      assert x[..|data|] == data;
    }
  }

  /** sendpacket followed by readpacket on the same line, as one statement about the bytes. */
  lemma PacketReadBack(cmd: byte, data: seq<byte>, rest: seq<byte>)
    requires cmd != 0 && 1 <= |data| <= MaxBlock - 1
    ensures NextFrame(Packet(cmd, data) + rest) == Some(Packet(cmd, data))
    ensures (Packet(cmd, data) + rest)[|Packet(cmd, data)|..] == rest
    ensures ParseFrame(Packet(cmd, data), true) == Reply(0, Some(cmd), Some(data), Some(|data|))
  {
    PacketIsOneFrame(cmd, data, rest);
    PacketRoundTrip(cmd, data);
  }

  /** Data accepted by readpacket arrived with their own CRC behind them. */
  lemma ParseFrameAccepts(frame: seq<byte>, dataOut: bool)
    requires ParseFrame(frame, dataOut).data.Some?
    ensures var d := ParseFrame(frame, dataOut).data.value;
      dataOut && |frame| >= 4 && Decode(frame[1..|frame| - 1]) == Some(d + [Crc(d)])
  {
    var bufLen := |frame| - 1;
    var d := Decode(frame[1..bufLen]).value;
    var n := |d| - 1;
    assert d == d[..n] + [d[n]];
  }

  /**
   * A data-less frame [cmd, FRAME_BYTE] sets cmd and returns 0 without
   * writing data or data_len.
   */
  lemma ParseFrameSimple(cmd: byte, dataOut: bool)
    ensures ParseFrame([cmd, FrameByte], dataOut) == Reply(0, Some(cmd), None, None)
  {}

  /** A frame holding only the terminator is rejected. */
  lemma ParseFrameLoneTerminator(dataOut: bool)
    ensures ParseFrame([FrameByte], dataOut).status == -1
    ensures ParseFrame([FrameByte], dataOut).data == None
  {}

  /** wait_ack accepts a frame exactly when it is the ack send_ack sends for cmd. */
  lemma AckStatusExact(cmd: byte, frame: seq<byte>)
    requires frame != [] && frame[|frame| - 1] == FrameByte
    ensures AckStatus(cmd, frame) == 0 <==> frame == Packet(cmd, [])
  {}

  /** send_ack(cmd) followed by wait_ack(cmd) succeeds for every non-zero command. */
  lemma AckRoundTrip(cmd: byte, rest: seq<byte>)
    requires cmd != 0
    ensures NextFrame(Packet(cmd, []) + rest) == Some(Packet(cmd, []))
    ensures AckStatus(cmd, Packet(cmd, [])) == 0
  {
    PacketIsOneFrame(cmd, [], rest);
  }

  /** The ack for command 0 is read as two frames, so wait_ack(0) never succeeds on it. */
  lemma AckZeroFails(rest: seq<byte>)
    ensures NextFrame(Packet(0, []) + rest) == Some([FrameByte])
    ensures AckStatus(0, [FrameByte]) == -1
  {
    var s := Packet(0, []) + rest;
    FirstZeroAt(s, 0);
    assert s[..1] == [FrameByte];
  }

  /** The reset sequence: three lone terminators, the data-less packet 'r', two more terminators. */
  lemma ResetSequenceShape()
    ensures ResetSequence == [FrameByte, FrameByte, FrameByte] + Packet(114, []) + [FrameByte, FrameByte]
  {}
}
