/**
 * The target firmware's test harness: the canary around the buffers it
 * shares with the signing code, the chunked transfer of a signed message
 * to the host, the command step of the signing loop and the fault
 * decisions of the two profiling routines.  The UOV signing routine and
 * the effect of a glitch on the attacked code are parameters.
 */
module Firmware {
  import opened Wrappers
  import opened Bytes
  import opened Cobs
  import opened SimpleSerial

  // ---------------------------------------------------------------------
  // Canary

  const Canary: seq<byte> := [0x01, 0x23, 0x45, 0x67, 0x89, 0xAB, 0xCD, 0xEF]

  /** write_canary: the eight canary bytes at d[0..8), nothing else touched. */
  method WriteCanary(d: array<byte>)
    requires d.Length >= 8
    modifies d
    ensures d[..8] == Canary && d[8..] == old(d[8..])
  {
    for i := 0 to 8
      invariant forall k :: 0 <= k < i ==> d[k] == Canary[k]
      invariant d[8..] == old(d[8..])
    {
      d[i] := Canary[i];
    }
  }

  /** check_canary: 0 when d[0..8) still holds the canary, -1 at the first byte that does not. */
  method CheckCanary(d: array<byte>) returns (r: int)
    requires d.Length >= 8
    ensures r == 0 || r == -1
    ensures r == 0 <==> d[..8] == Canary
  {
    for i := 0 to 8
      invariant forall k :: 0 <= k < i ==> d[k] == Canary[k]
    {
      if d[i] != Canary[i] {
        assert d[..8][i] != Canary[i];
        return -1;
      }
    }
    return 0;
  }

  /** Any change to one canary byte is seen by check_canary. */
  lemma CanaryDetectsOverwrite(s: seq<byte>, k: nat, v: byte)
    requires |s| >= 8 && s[..8] == Canary && k < 8 && v != s[k]
    ensures s[k := v][..8] != Canary
  {
    assert s[k := v][..8][k] == v;
  }

  // ---------------------------------------------------------------------
  // Sending the signed message in chunks

  const ChunkSize: nat := 190

  /** Command bytes of the harness protocol. */
  const DataCmd: byte := 0x64       // 'd'
  const EndCmd: byte := 0x65        // 'e'
  const CounterFaultCmd: byte := 0x66  // 'f'
  const CopyFaultCmd: byte := 0x71  // 'q'
  const StartCmd: byte := 0x73      // 's'

  /** The pieces test_sign cuts a signed message into, in order. */
  function Chunks(s: seq<byte>): seq<seq<byte>>
    decreases |s|
  {
    if s == [] then []
    else if ChunkSize < |s| then [s[..ChunkSize]] + Chunks(s[ChunkSize..])
    else [s]
  }

  /** The chunks joined back together. */
  function Flatten(cs: seq<seq<byte>>): seq<byte> {
    if cs == [] then [] else cs[0] + Flatten(cs[1..])
  }

  /** The data packets carrying the chunks cs, one after the other. */
  function DataPackets(cs: seq<seq<byte>>): seq<byte> {
    if cs == [] then [] else Packet(DataCmd, cs[0]) + DataPackets(cs[1..])
  }

  /** The message from offset i on (nothing once i has run past its end). */
  function Tail(s: seq<byte>, i: nat): seq<byte> {
    if i < |s| then s[i..] else []
  }

  function Min(a: int, b: int): int {
    if a <= b then a else b
  }

  /** The end of a session: how test_sign returns, what it sent and the input it left unread. */
  datatype Outcome = Outcome(status: Call<int>, tx: seq<byte>, rx: seq<byte>)

  /** An outcome with bytes sent before it. */
  function After(pre: seq<byte>, o: Outcome): Outcome {
    Outcome(o.status, pre + o.tx, o.rx)
  }

  /**
   * The exchange test_sign has with the host over the chunks cs, given
   * the input rx: each chunk goes out as a 'd' packet and must be
   * acknowledged with a 'd' ack; a bad ack ends it with -1, and after
   * the last chunk it sends the 'e' ack and returns 0.
   */
  function Session(cs: seq<seq<byte>>, rx: seq<byte>): Outcome
    decreases |cs|
  {
    if cs == [] then Outcome(Returned(0), Packet(EndCmd, []), rx)
    else
      var p := Packet(DataCmd, cs[0]);
      match NextFrame(rx)
      case None => Outcome(Blocked, p, [])
      case Some(f) =>
        if AckStatus(DataCmd, f) != 0 then Outcome(Returned(-1), p, rx[|f|..])
        else After(p, Session(cs[1..], rx[|f|..]))
  }

  /** The chunk test_sign sends at offset i of s, and where the message goes on. */
  lemma ChunksFrom(s: seq<byte>, i: nat)
    requires i < |s|
    ensures var len := if i + ChunkSize < |s| then ChunkSize else |s| - i;
      Chunks(Tail(s, i)) == [s[i..i + len]] + Chunks(Tail(s, i + ChunkSize))
  {
    var t := s[i..];
    if ChunkSize < |t| {
      assert t[..ChunkSize] == s[i..i + ChunkSize];
      assert t[ChunkSize..] == s[i + ChunkSize..];
    } else {
      assert Tail(s, i + ChunkSize) == [];
      assert t == s[i..|s|] && Chunks(t) == [t];
    }
  }

  lemma AfterAfter(a: seq<byte>, b: seq<byte>, o: Outcome)
    ensures After(a, After(b, o)) == After(a + b, o)
  {
    assert a + (b + o.tx) == (a + b) + o.tx;
  }

  /** One chunk: the 'd' packet for sm[i..i+len), and wait_ack('d'). */
  method SendChunk(ch: Channel, sm: array<byte>, i: nat, len: nat) returns (ack: Call<int>)
    requires i + len <= sm.Length
    modifies ch
    ensures ch.tx == old(ch.tx) + Packet(DataCmd, sm[i..i + len])
    ensures match NextFrame(old(ch.rx))
      case None => ack == Blocked && ch.rx == []
      case Some(f) => ack == Returned(AckStatus(DataCmd, f)) && ch.rx == old(ch.rx)[|f|..]
  {
    var chunk := ToArray(sm[i..i + len]);
    assert chunk[..len] == sm[i..i + len];
    var _ := SendPacket(ch, DataCmd, chunk, len);
    ack := WaitAck(ch, DataCmd);
  }

  /**
   * One pass of test_sign's loop at offset i: the chunk's packet and its
   * ack, with the session still to come before and after it.
   */
  method SendChunkAt(ch: Channel, sm: array<byte>, smlen: nat, i: nat, ghost s: seq<byte>, ghost whole: Outcome)
    returns (ack: Call<int>)
    requires smlen <= sm.Length && s == sm[..smlen] && i < smlen
    requires whole == After(ch.tx, Session(Chunks(Tail(s, i)), ch.rx))
    modifies ch
    ensures ack.Blocked? ==> whole == Outcome(Blocked, ch.tx, ch.rx)
    ensures ack.Returned? && ack.value != 0 ==> whole == Outcome(Returned(-1), ch.tx, ch.rx)
    ensures ack == Returned(0) ==> whole == After(ch.tx, Session(Chunks(Tail(s, i + ChunkSize)), ch.rx))
  {
    var len := if i + ChunkSize < smlen then ChunkSize else smlen - i;
    ChunksFrom(s, i);
    assert s[i..i + len] == sm[i..i + len];
    ghost var tx := ch.tx;
    ghost var rest := Chunks(Tail(s, i + ChunkSize));
    assert ([sm[i..i + len]] + rest)[1..] == rest;
    ack := SendChunk(ch, sm, i, len);
    if ack == Returned(0) {
      AfterAfter(tx, Packet(DataCmd, sm[i..i + len]), Session(rest, ch.rx));
    }
  }

  /**
   * test_sign after the signing call: sm[0..smlen) goes out in chunks of
   * at most 190 bytes, each acknowledged, and the 'e' ack closes the
   * transfer.
   */
  method TestSign(ch: Channel, sm: array<byte>, smlen: nat) returns (r: Call<int>)
    requires smlen <= sm.Length
    modifies ch
    ensures var o := Session(Chunks(sm[..smlen]), old(ch.rx));
      r == o.status && ch.tx == old(ch.tx) + o.tx && ch.rx == o.rx
  {
    ghost var s := sm[..smlen];
    ghost var whole := After(ch.tx, Session(Chunks(s), ch.rx));
    var i: nat := 0;
    while i < smlen
      invariant whole == After(ch.tx, Session(Chunks(Tail(s, i)), ch.rx))
      decreases smlen - i
    {
      var ack := SendChunkAt(ch, sm, smlen, i, s, whole);
      if ack.Blocked? {
        return Blocked;
      }
      if ack.value != 0 {
        return Returned(-1);
      }
      i := i + ChunkSize;
    }
    assert Tail(s, i) == [];
    SendAck(ch, EndCmd);
    return Returned(0);
  }

  // ---------------------------------------------------------------------
  // What the chunking and the session guarantee

  /** The chunks, joined in order, are the message. */
  lemma {:induction false} ChunksFlatten(s: seq<byte>)
    ensures Flatten(Chunks(s)) == s
    decreases |s|
  {
    if s != [] && ChunkSize < |s| {
      ChunksFlatten(s[ChunkSize..]);
      assert s[..ChunkSize] + s[ChunkSize..] == s;
    }
  }

  /** There are ceil(|s| / 190) chunks, none for an empty message. */
  lemma {:induction false} ChunksCount(s: seq<byte>)
    ensures |Chunks(s)| == (|s| + ChunkSize - 1) / ChunkSize
    decreases |s|
  {
    if s != [] && ChunkSize < |s| {
      ChunksCount(s[ChunkSize..]);
    }
  }

  /**
   * Chunk k starts at offset 190 * k and runs for min(190, |s| - 190 * k)
   * bytes: every chunk but the last has 190 bytes, the last 1 to 190.
   */
  lemma {:induction false} ChunkAt(s: seq<byte>, k: nat)
    requires k < |Chunks(s)|
    ensures ChunkSize * k < |s|
    ensures Chunks(s)[k] == s[ChunkSize * k..Min(ChunkSize * k + ChunkSize, |s|)]
    ensures 1 <= |Chunks(s)[k]| <= ChunkSize
    ensures k + 1 < |Chunks(s)| ==> |Chunks(s)[k]| == ChunkSize
    decreases |s|
  {
    if k > 0 {
      var t := s[ChunkSize..];
      assert Chunks(s)[k] == Chunks(t)[k - 1];
      ChunkAt(t, k - 1);
      assert ChunkSize * k == ChunkSize + ChunkSize * (k - 1);
      assert t[ChunkSize * (k - 1)..Min(ChunkSize * (k - 1) + ChunkSize, |t|)]
          == s[ChunkSize * k..Min(ChunkSize * k + ChunkSize, |s|)];
    } else if ChunkSize >= |s| {
      assert s[0..|s|] == s;
    }
  }

  /** Repeated 'd' acks. */
  function DataAcks(n: nat): seq<byte> {
    if n == 0 then [] else Packet(DataCmd, []) + DataAcks(n - 1)
  }

  /**
   * When the host acknowledges every chunk, test_sign sends every chunk
   * in order, then the 'e' ack, returns 0 and leaves the rest of the
   * input unread.
   */
  lemma {:induction false} SessionAllAcked(cs: seq<seq<byte>>, rest: seq<byte>)
    ensures Session(cs, DataAcks(|cs|) + rest) == Outcome(Returned(0), DataPackets(cs) + Packet(EndCmd, []), rest)
    decreases |cs|
  {
    if cs != [] {
      var ack := Packet(DataCmd, []);
      var tail := DataAcks(|cs| - 1) + rest;
      assert DataAcks(|cs|) + rest == ack + tail;
      AckRoundTrip(DataCmd, tail);
      assert (ack + tail)[|ack|..] == tail;
      SessionAllAcked(cs[1..], rest);
      assert Packet(DataCmd, cs[0]) + (DataPackets(cs[1..]) + Packet(EndCmd, []))
          == DataPackets(cs) + Packet(EndCmd, []);
    }
  }

  /** The first k data packets, split after the first. */
  lemma DataPacketsCons(cs: seq<seq<byte>>, k: nat)
    requires 1 <= k <= |cs|
    ensures DataPackets(cs[..k]) == Packet(DataCmd, cs[0]) + DataPackets(cs[1..][..k - 1])
  {
    assert cs[..k][1..] == cs[1..][..k - 1];
  }

  /** When test_sign returns 0 it has sent every data packet and then the 'e' ack. */
  lemma {:induction false} SessionSucceeds(cs: seq<seq<byte>>, rx: seq<byte>)
    requires Session(cs, rx).status == Returned(0)
    ensures Session(cs, rx).tx == DataPackets(cs) + Packet(EndCmd, [])
    decreases |cs|
  {
    if cs != [] {
      var f := NextFrame(rx).value;
      SessionSucceeds(cs[1..], rx[|f|..]);
      assert Packet(DataCmd, cs[0]) + (DataPackets(cs[1..]) + Packet(EndCmd, [])) == DataPackets(cs) + Packet(EndCmd, []);
    }
  }

  /**
   * When test_sign returns -1 or is left waiting for an ack, it has sent
   * the first k data packets for some k >= 1, and no 'e' ack.
   */
  lemma {:induction false} SessionStops(cs: seq<seq<byte>>, rx: seq<byte>)
    requires Session(cs, rx).status != Returned(0)
    ensures Session(cs, rx).status == Returned(-1) || Session(cs, rx).status == Blocked
    ensures exists k :: 1 <= k <= |cs| && Session(cs, rx).tx == DataPackets(cs[..k])
    decreases |cs|
  {
    DataPacketsCons(cs, 1);
    match NextFrame(rx)
    case None =>
    case Some(f) =>
      if AckStatus(DataCmd, f) == 0 {
        var o := Session(cs[1..], rx[|f|..]);
        SessionStops(cs[1..], rx[|f|..]);
        var k :| 1 <= k <= |cs| - 1 && o.tx == DataPackets(cs[1..][..k]);
        DataPacketsCons(cs, k + 1);
      }
  }

  /** An empty signed message: only the 'e' ack goes out. */
  lemma SessionEmpty(rx: seq<byte>)
    ensures Session(Chunks([]), rx) == Outcome(Returned(0), Packet(EndCmd, []), rx)
  {}

  // ---------------------------------------------------------------------
  // The signing loop of main

  const MLen: nat := 256

  /** res == 0 && cmd == 's': the frame was a start signal. */
  predicate IsStart(reply: Reply) {
    reply.status == 0 && reply.cmd == Some(StartCmd)
  }

  /**
   * main's test data_len == MLEN on a start signal AS WRITTEN: readpacket
   * leaves data_len unwritten for a frame without data, so the test reads
   * whatever `stale` the uninitialised variable holds.
   */
  function CopiesMessageAsWritten(reply: Reply, stale: nat): bool {
    IsStart(reply) && (match reply.dataLen case Some(n) => n case None => stale) == MLen
  }

  /**
   * A data-less start signal with a stale data_len of 256 makes main copy
   * 256 bytes from the data pointer, which readpacket never set.
   */
  lemma UninitialisedLengthCopies()
    ensures var reply := ParseFrame([StartCmd, FrameByte], true);
      CopiesMessageAsWritten(reply, MLen) && reply.data.None?
  {}

  /**
   * The message main signs next, as written: when the test on data_len
   * passes, memcpy copies MLEN bytes through data, which holds the
   * frame's data when readpacket wrote them and otherwise the indeterminate
   * `staleBytes` the pointer leads to; when it fails, m stays.
   */
  function NextMessageAsWritten(reply: Reply, m: seq<byte>, stale: nat, staleBytes: seq<byte>): seq<byte> {
    if !CopiesMessageAsWritten(reply, stale) then m
    else match reply.data case Some(d) => d case None => staleBytes
  }

  /**
   * What a start signal makes of m as written: m itself, 256 bytes that
   * arrived behind their own CRC, or, for a frame without data and a stale
   * data_len of 256, the bytes behind the unset data pointer.
   */
  lemma NextMessageSources(frame: seq<byte>, m: seq<byte>, stale: nat, staleBytes: seq<byte>)
    requires IsStart(ParseFrame(frame, true))
    ensures var reply := ParseFrame(frame, true);
      var d := NextMessageAsWritten(reply, m, stale, staleBytes);
      d == m ||
      (|d| == MLen && |frame| >= 4 && Decode(frame[1..|frame| - 1]) == Some(d + [Crc8.Crc(d)])) ||
      (reply.dataLen.None? && stale == MLen && d == staleBytes)
  {
    var reply := ParseFrame(frame, true);
    if reply.data.Some? {
      ParseFrameAccepts(frame, true);
    }
  }

  /**
   * The message main would sign next with data_len initialised to 0: the
   * frame's data when readpacket wrote them and they are MLEN bytes,
   * otherwise the message it already had.
   */
  function NextMessage(reply: Reply, m: seq<byte>): seq<byte> {
    if reply.dataLen == Some(MLen) && reply.data.Some? then reply.data.value else m
  }

  /** Initialising data_len to 0 is the loop as written with a stale length of 0, whatever data points to. */
  lemma NextMessageInitialised(frame: seq<byte>, m: seq<byte>, staleBytes: seq<byte>)
    requires IsStart(ParseFrame(frame, true))
    ensures NextMessageAsWritten(ParseFrame(frame, true), m, 0, staleBytes) == NextMessage(ParseFrame(frame, true), m)
  {}

  /** With data_len initialised, main would replace m only with exactly 256 bytes that arrived behind their own CRC. */
  lemma NextMessageFromFrame(frame: seq<byte>, m: seq<byte>)
    requires IsStart(ParseFrame(frame, true)) && NextMessage(ParseFrame(frame, true), m) != m
    ensures var d := NextMessage(ParseFrame(frame, true), m);
      |d| == MLen && |frame| >= 4 && Decode(frame[1..|frame| - 1]) == Some(d + [Crc8.Crc(d)])
  {
    ParseFrameAccepts(frame, true);
  }

  /** With data_len initialised, a start signal without data leaves the message as it was. */
  lemma DatalessStartKeepsMessage(m: seq<byte>)
    ensures IsStart(ParseFrame([StartCmd, FrameByte], true))
    ensures NextMessage(ParseFrame([StartCmd, FrameByte], true), m) == m
  {}

  /** What one pass of main's loop leaves behind: whether it is still waiting for input, m, what it sent, the unread input. */
  datatype Step = Step(blocked: bool, m: seq<byte>, tx: seq<byte>, rx: seq<byte>)

  /**
   * One pass of main's loop on the input rx with message m, data_len and
   * data holding `stale` and a pointer to `staleBytes` before readpacket
   * runs: read a packet; on a start signal take the next message, ack 's',
   * sign the message with `sign` and run the transfer; any other packet is
   * ignored.
   */
  function MainStep(m: seq<byte>, rx: seq<byte>, sign: seq<byte> -> seq<byte>, stale: nat, staleBytes: seq<byte>): Step {
    match NextFrame(rx)
    case None => Step(true, m, [], [])
    case Some(f) =>
      var reply := ParseFrame(f, true);
      if !IsStart(reply) then Step(false, m, [], rx[|f|..])
      else
        var m' := NextMessageAsWritten(reply, m, stale, staleBytes);
        var o := Session(Chunks(sign(m')), rx[|f|..]);
        Step(o.status.Blocked?, m', Packet(StartCmd, []) + o.tx, o.rx)
  }

  /** memcpy(m, data, MLEN) */
  method CopyMessage(m: array<byte>, data: seq<byte>)
    requires m.Length == MLen && |data| == MLen
    modifies m
    ensures m[..] == data
  {
    forall i | 0 <= i < MLen {
      m[i] := data[i];
    }
  }

  /**
   * readpacket(&cmd, data, &len) as the command loops call it; `dataOut`
   * says whether a data pointer is passed.  The ghost f is the frame read.
   */
  method ReadFrame(ch: Channel, dataOut: bool) returns (r: Call<Reply>, ghost f: seq<byte>)
    modifies ch
    ensures ch.tx == old(ch.tx)
    ensures r.Blocked? <==> NextFrame(old(ch.rx)).None?
    ensures r.Blocked? ==> ch.rx == []
    ensures r.Returned? ==> NextFrame(old(ch.rx)) == Some(f) && r.value == ParseFrame(f, dataOut) && ch.rx == old(ch.rx)[|f|..]
  {
    r := ReadPacket(ch, true, dataOut, true);
    f := if r.Returned? then NextFrame(old(ch.rx)).value else [];
  }

  /**
   * One pass of main's loop.  `sign` stands for the UOV signing routine
   * with the fixed secret key: it maps m to the signed message sm.  C
   * leaves data_len and data uninitialised on every pass; `stale` and
   * `staleBytes` are what they hold (the MLEN bytes data points to).
   */
  method MainIteration(ch: Channel, m: array<byte>, sign: seq<byte> -> seq<byte>, stale: nat, staleBytes: seq<byte>)
    returns (blocked: bool)
    requires m.Length == MLen && |staleBytes| == MLen
    modifies ch, m
    ensures var st := MainStep(old(m[..]), old(ch.rx), sign, stale, staleBytes);
      blocked == st.blocked && m[..] == st.m && ch.tx == old(ch.tx) + st.tx && ch.rx == st.rx
  {
    var got, f := ReadFrame(ch, true);
    if got.Blocked? {
      return true;
    }
    var reply := got.value;
    if IsStart(reply) {
      var dataLen := match reply.dataLen case Some(n) => n case None => stale;
      if dataLen == MLen {
        var data := match reply.data case Some(d) => d case None => staleBytes;
        CopyMessage(m, data);
      }
      ghost var t, o := ch.tx, Session(Chunks(sign(m[..])), ch.rx);
      blocked := SignAndSend(ch, m, sign);
      Assoc(t, Packet(StartCmd, []), o.tx);
      return;
    }
    return false;
  }

  /** The rest of a start signal: ack 's', sign m, run the transfer. */
  method SignAndSend(ch: Channel, m: array<byte>, sign: seq<byte> -> seq<byte>) returns (blocked: bool)
    modifies ch
    ensures var o := Session(Chunks(sign(m[..])), old(ch.rx));
      blocked == o.status.Blocked? && ch.tx == old(ch.tx) + Packet(StartCmd, []) + o.tx && ch.rx == o.rx
  {
    SendAck(ch, StartCmd);
    var sm := ToArray(sign(m[..]));
    assert sm[..sm.Length] == sign(m[..]);
    var res := TestSign(ch, sm, sm.Length);
    return res.Blocked?;
  }

  /**
   * A data-less start signal followed by an ack for every chunk: main
   * acks 's', sends every chunk of the signed message in order and the
   * 'e' ack; the message it signs is m, or the bytes behind the unset data
   * pointer when the stale data_len is 256.
   */
  lemma MainStepSigns(m: seq<byte>, sign: seq<byte> -> seq<byte>, stale: nat, staleBytes: seq<byte>, rest: seq<byte>)
    ensures var m' := if stale == MLen then staleBytes else m;
      var rx := Packet(StartCmd, []) + DataAcks(|Chunks(sign(m'))|) + rest;
      MainStep(m, rx, sign, stale, staleBytes) ==
      Step(false, m', Packet(StartCmd, []) + DataPackets(Chunks(sign(m'))) + Packet(EndCmd, []), rest)
  {
    var m' := if stale == MLen then staleBytes else m;
    var start := Packet(StartCmd, []);
    var acks := DataAcks(|Chunks(sign(m'))|) + rest;
    var rx := start + DataAcks(|Chunks(sign(m'))|) + rest;
    assert rx == start + acks;
    PacketIsOneFrame(StartCmd, [], acks);
    assert rx[|start|..] == acks;
    DatalessStartKeepsMessage(m);
    SessionAllAcked(Chunks(sign(m')), rest);
    assert start + (DataPackets(Chunks(sign(m'))) + Packet(EndCmd, []))
        == start + DataPackets(Chunks(sign(m'))) + Packet(EndCmd, []);
  }

  /** Every pass that is not left waiting consumes input, so the loop runs only as long as the host sends. */
  lemma MainStepConsumes(m: seq<byte>, rx: seq<byte>, sign: seq<byte> -> seq<byte>, stale: nat, staleBytes: seq<byte>)
    ensures var st := MainStep(m, rx, sign, stale, staleBytes);
      !st.blocked ==> |st.rx| < |rx|
  {
    match NextFrame(rx)
    case None =>
    case Some(f) =>
      var reply := ParseFrame(f, true);
      if IsStart(reply) {
        SessionShrinks(Chunks(sign(NextMessageAsWritten(reply, m, stale, staleBytes))), rx[|f|..]);
      }
  }

  /** A session never gives back input: what it leaves unread is at most what it was given. */
  lemma {:induction false} SessionShrinks(cs: seq<seq<byte>>, rx: seq<byte>)
    ensures |Session(cs, rx).rx| <= |rx|
    decreases |cs|
  {
    if cs != [] {
      match NextFrame(rx)
      case None =>
      case Some(f) =>
        if AckStatus(DataCmd, f) == 0 {
          SessionShrinks(cs[1..], rx[|f|..]);
        }
    }
  }

  // ---------------------------------------------------------------------
  // Profiling routines

  const BufferSize: nat := 68
  const SrcInitByte: byte := 0xCC
  const TargetInitByte: byte := 0xEE
  const NumExecutions: nat := 100

  /** n copies of b (memset). */
  function Fill(n: nat, b: byte): (r: seq<byte>)
    ensures |r| == n && forall i :: 0 <= i < n ==> r[i] == b
  {
    seq(n, _ => b)
  }

  /** profile_memcpy's report after the attacked copy: 'q' with the target buffer when it differs from the source, else an empty 'e' packet. */
  function CopyReport(src: seq<byte>, target: seq<byte>): seq<byte> {
    if src != target then Packet(CopyFaultCmd, target) else Packet(EndCmd, [])
  }

  /** What one pass of a profiling loop leaves behind: whether it waits for input, what it sent, the unread input. */
  datatype Round = Round(blocked: bool, tx: seq<byte>, rx: seq<byte>)

  /** The next frame on rx is a start signal, read with or without a data pointer. */
  predicate StartsRound(rx: seq<byte>, dataOut: bool) {
    match NextFrame(rx)
    case None => false
    case Some(f) => IsStart(ParseFrame(f, dataOut))
  }

  /** One pass of a profiling loop reading rx: on a start signal, the 's' ack followed by `report`. */
  function ProfileRound(rx: seq<byte>, report: seq<byte>): Round {
    match NextFrame(rx)
    case None => Round(true, [], [])
    case Some(f) =>
      Round(false, if IsStart(ParseFrame(f, false)) then Packet(StartCmd, []) + report else [], rx[|f|..])
  }

  /** ProfileRound once the next frame is known. */
  lemma ProfileRoundOf(rx: seq<byte>, report: seq<byte>, started: bool, f: seq<byte>)
    requires NextFrame(rx) == Some(f) && started == IsStart(ParseFrame(f, false))
    ensures ProfileRound(rx, report) == Round(false, if started then Packet(StartCmd, []) + report else [], rx[|f|..])
    ensures StartsRound(rx, false) == started
  {}

  /**
   * One pass of profile_memcpy's loop.  `landed` is what the target
   * buffer holds after the attacked memcpy of the source into it (the
   * source itself when the glitch had no effect).
   */
  method ProfileMemcpyIteration(ch: Channel, src: array<byte>, target: array<byte>, landed: seq<byte>)
    returns (blocked: bool)
    requires src.Length == BufferSize && target.Length == BufferSize && |landed| == BufferSize
    requires src != target
    modifies ch, src, target
    ensures var st := ProfileRound(old(ch.rx), CopyReport(Fill(BufferSize, SrcInitByte), landed));
      blocked == st.blocked && ch.tx == old(ch.tx) + st.tx && ch.rx == st.rx
    ensures StartsRound(old(ch.rx), false) ==> src[..] == Fill(BufferSize, SrcInitByte) && target[..] == landed
    ensures !StartsRound(old(ch.rx), false) ==> src[..] == old(src[..]) && target[..] == old(target[..])
  {
    ghost var report := CopyReport(Fill(BufferSize, SrcInitByte), landed);
    var got, f := ReadFrame(ch, false);
    if got.Blocked? {
      return true;
    }
    var reply := got.value;
    ProfileRoundOf(old(ch.rx), report, IsStart(reply), f);
    if IsStart(reply) {
      SendAck(ch, StartCmd);
      forall i | 0 <= i < BufferSize {
        src[i] := SrcInitByte;
      }
      forall i | 0 <= i < BufferSize {
        target[i] := TargetInitByte;
      }
      forall i | 0 <= i < BufferSize {
        target[i] := landed[i];
      }
      assert src[..] == Fill(BufferSize, SrcInitByte) && target[..] == landed;
      ReportCopy(ch, src, target);
      Assoc(old(ch.tx), Packet(StartCmd, []), report);
    }
    return false;
  }

  /** memcmp of the buffers after the copy, and the report it selects. */
  method ReportCopy(ch: Channel, src: array<byte>, target: array<byte>)
    requires src.Length == BufferSize && target.Length == BufferSize
    modifies ch
    ensures ch.tx == old(ch.tx) + CopyReport(src[..], target[..]) && ch.rx == old(ch.rx)
  {
    if src[..] != target[..] {
      var _ := SendPacket(ch, CopyFaultCmd, target, BufferSize);
      assert target[..BufferSize] == target[..];
    } else {
      var _ := SendPacket(ch, EndCmd, null, 0);
    }
  }

  /**
   * The host reads profile_memcpy's report back as the faulty target
   * buffer exactly when the copy went wrong, and as a data-less 'e'
   * otherwise.
   */
  lemma CopyReportReadBack(src: seq<byte>, target: seq<byte>)
    requires |target| == BufferSize
    ensures src != target ==> ParseFrame(CopyReport(src, target), true) == Reply(0, Some(CopyFaultCmd), Some(target), Some(BufferSize))
    ensures src == target ==> ParseFrame(CopyReport(src, target), true) == Reply(0, Some(EndCmd), None, None)
  {
    PacketRoundTrip(CopyFaultCmd, target);
    PacketRoundTrip(EndCmd, []);
  }

  /** The n-byte little-endian encoding of c (the Cortex-M4 is little-endian). */
  function LittleEndian(c: nat, n: nat): (r: seq<byte>)
    ensures |r| == n
  {
    if n == 0 then [] else [CountByte(c % 256)] + LittleEndian(c / 256, n - 1)
  }

  /** The value of a little-endian byte string. */
  function FromLittleEndian(b: seq<byte>): nat {
    if b == [] then 0 else b[0] as nat + 256 * FromLittleEndian(b[1..])
  }

  function Pow256(n: nat): (r: nat)
    ensures r >= 1
  {
    if n == 0 then 1 else 256 * Pow256(n - 1)
  }

  /** A value below 256^n survives the n-byte encoding. */
  lemma {:induction false} LittleEndianRoundTrip(c: nat, n: nat)
    requires c < Pow256(n)
    ensures FromLittleEndian(LittleEndian(c, n)) == c
    decreases n
  {
    if n > 0 {
      LittleEndianRoundTrip(c / 256, n - 1);
      CountByteValue(c % 256);
      assert LittleEndian(c, n)[1..] == LittleEndian(c / 256, n - 1);
    }
  }

  /** profile_unrolled_loop's report: 'f' with the 4 bytes of the counter when it is not 100, else an empty 'e' packet. */
  function CounterReport(counter: nat): seq<byte> {
    if counter != NumExecutions then Packet(CounterFaultCmd, LittleEndian(counter, 4)) else Packet(EndCmd, [])
  }

  /**
   * One pass of profile_unrolled_loop's loop; `counter` is what the
   * attacked run of 100 increments left in the unsigned int counter.
   */
  method ProfileUnrolledLoopIteration(ch: Channel, counter: nat) returns (blocked: bool)
    requires counter < Pow256(4)
    modifies ch
    ensures var st := ProfileRound(old(ch.rx), CounterReport(counter));
      blocked == st.blocked && ch.tx == old(ch.tx) + st.tx && ch.rx == st.rx
  {
    ghost var report := CounterReport(counter);
    var got, f := ReadFrame(ch, false);
    if got.Blocked? {
      return true;
    }
    var reply := got.value;
    ProfileRoundOf(old(ch.rx), report, IsStart(reply), f);
    if IsStart(reply) {
      SendAck(ch, StartCmd);
      ReportCounter(ch, counter);
      Assoc(old(ch.tx), Packet(StartCmd, []), report);
    }
    return false;
  }

  /** The test counter != NUM_EXECUTIONS and the report it selects. */
  method ReportCounter(ch: Channel, counter: nat)
    modifies ch
    ensures ch.tx == old(ch.tx) + CounterReport(counter) && ch.rx == old(ch.rx)
  {
    if counter != NumExecutions {
      var bytes := ToArray(LittleEndian(counter, 4));
      assert bytes[..4] == LittleEndian(counter, 4);
      var _ := SendPacket(ch, CounterFaultCmd, bytes, 4);
    } else {
      var _ := SendPacket(ch, EndCmd, null, 0);
    }
  }

  /** The host reads a faulty counter back exactly, and a correct run as a data-less 'e'. */
  lemma CounterReportReadBack(counter: nat)
    requires counter < Pow256(4)
    ensures counter != NumExecutions ==>
      var r := ParseFrame(CounterReport(counter), true);
      r.status == 0 && r.cmd == Some(CounterFaultCmd) && r.data.Some? && FromLittleEndian(r.data.value) == counter
    ensures counter == NumExecutions ==> ParseFrame(CounterReport(counter), true) == Reply(0, Some(EndCmd), None, None)
  {
    PacketRoundTrip(CounterFaultCmd, LittleEndian(counter, 4));
    PacketRoundTrip(EndCmd, []);
    LittleEndianRoundTrip(counter, 4);
  }

  // ---------------------------------------------------------------------
  // The command loops, run until the host stops sending

  /** Everything a profiling loop sends for the input rx, the pass that reads frame k reporting report(k). */
  function ProfileSession(rx: seq<byte>, report: nat -> seq<byte>, k: nat): seq<byte>
    decreases |rx|
  {
    var st := ProfileRound(rx, report(k));
    if st.blocked then [] else st.tx + ProfileSession(st.rx, report, k + 1)
  }

  /** The reports of profile_unrolled_loop when pass k leaves counters(k) in the counter. */
  function CounterReports(counters: nat -> nat): nat -> seq<byte> {
    (k: nat) => CounterReport(counters(k))
  }

  /** The reports of profile_memcpy when pass k leaves landed(k) in the target buffer. */
  function CopyReports(landed: nat -> seq<byte>): nat -> seq<byte> {
    (k: nat) => CopyReport(Fill(BufferSize, SrcInitByte), landed(k))
  }

  /** One more pass of a loop, as the invariant of the loop needs it. */
  lemma ProfileSessionStep(rx: seq<byte>, report: nat -> seq<byte>, k: nat, t: seq<byte>)
    ensures var st := ProfileRound(rx, report(k));
      !st.blocked ==> t + ProfileSession(rx, report, k) == (t + st.tx) + ProfileSession(st.rx, report, k + 1)
  {
    var st := ProfileRound(rx, report(k));
    if !st.blocked {
      Assoc(t, st.tx, ProfileSession(st.rx, report, k + 1));
    }
  }

  /**
   * profile_unrolled_loop: the reset sequence, then one pass per frame
   * received for as long as the host sends.
   */
  method ProfileUnrolledLoop(ch: Channel, counters: nat -> nat)
    requires forall k :: counters(k) < Pow256(4)
    modifies ch
    ensures ch.tx == old(ch.tx) + ResetSequence + ProfileSession(old(ch.rx), CounterReports(counters), 0)
    ensures ch.rx == []
  {
    SendResetSequence(ch);
    ghost var whole := ch.tx + ProfileSession(ch.rx, CounterReports(counters), 0);
    var k := 0;
    while true
      invariant whole == ch.tx + ProfileSession(ch.rx, CounterReports(counters), k)
      decreases |ch.rx|
    {
      ghost var t, rx := ch.tx, ch.rx;
      ProfileSessionStep(rx, CounterReports(counters), k, t);
      var blocked := ProfileUnrolledLoopIteration(ch, counters(k));
      if blocked {
        return;
      }
      k := k + 1;
    }
  }

  /**
   * profile_memcpy: the reset sequence, then one pass per frame received
   * for as long as the host sends, with its own source and target buffers.
   */
  method ProfileMemcpy(ch: Channel, landed: nat -> seq<byte>)
    requires forall k :: |landed(k)| == BufferSize
    modifies ch
    ensures ch.tx == old(ch.tx) + ResetSequence + ProfileSession(old(ch.rx), CopyReports(landed), 0)
    ensures ch.rx == []
  {
    SendResetSequence(ch);
    var src := new byte[BufferSize];
    var target := new byte[BufferSize];
    ghost var whole := ch.tx + ProfileSession(ch.rx, CopyReports(landed), 0);
    var k := 0;
    while true
      invariant fresh(src) && fresh(target)
      invariant src.Length == BufferSize && target.Length == BufferSize
      invariant whole == ch.tx + ProfileSession(ch.rx, CopyReports(landed), k)
      decreases |ch.rx|
    {
      ghost var t, rx := ch.tx, ch.rx;
      ProfileSessionStep(rx, CopyReports(landed), k, t);
      var blocked := ProfileMemcpyIteration(ch, src, target, landed(k));
      if blocked {
        return;
      }
      k := k + 1;
    }
  }

  /**
   * The values main's uninitialised data_len and data hold on pass p of
   * its loop, before readpacket runs: len(p), and the MLEN bytes
   * bytes(p, 0), ..., bytes(p, MLEN - 1) that data points to.
   */
  datatype Stale = Stale(len: nat -> nat, bytes: (nat, nat) -> byte)

  function StaleBytes(stale: Stale, p: nat): (b: seq<byte>)
    ensures |b| == MLen
  {
    seq(MLen, i requires 0 <= i < MLen => stale.bytes(p, i))
  }

  /** Everything main's signing loop sends for the input rx, starting from message m at pass p. */
  function MainSession(m: seq<byte>, rx: seq<byte>, sign: seq<byte> -> seq<byte>, stale: Stale, p: nat): seq<byte>
    decreases |rx|
  {
    var st := MainStep(m, rx, sign, stale.len(p), StaleBytes(stale, p));
    if st.blocked then st.tx
    else
      MainStepConsumes(m, rx, sign, stale.len(p), StaleBytes(stale, p));
      st.tx + MainSession(st.m, st.rx, sign, stale, p + 1)
  }

  /** One more pass of main's loop, as the invariant of the loop needs it. */
  lemma MainSessionStep(m: seq<byte>, rx: seq<byte>, sign: seq<byte> -> seq<byte>, stale: Stale, p: nat, t: seq<byte>)
    ensures var st := MainStep(m, rx, sign, stale.len(p), StaleBytes(stale, p));
      !st.blocked ==> t + MainSession(m, rx, sign, stale, p) == (t + st.tx) + MainSession(st.m, st.rx, sign, stale, p + 1)
  {
    var st := MainStep(m, rx, sign, stale.len(p), StaleBytes(stale, p));
    if !st.blocked {
      Assoc(t, st.tx, MainSession(st.m, st.rx, sign, stale, p + 1));
    }
  }

  /**
   * The signing part of main: clear m, send the reset sequence, then one
   * pass per frame received for as long as the host sends.  The pass
   * counter p only selects the indeterminate values of that pass.
   */
  method SigningLoop(ch: Channel, m: array<byte>, sign: seq<byte> -> seq<byte>, stale: Stale)
    requires m.Length == MLen
    modifies ch, m
    ensures ch.tx == old(ch.tx) + ResetSequence + MainSession(Fill(MLen, 0), old(ch.rx), sign, stale, 0)
  {
    forall i | 0 <= i < MLen {
      m[i] := 0;
    }
    assert m[..] == Fill(MLen, 0);
    SendResetSequence(ch);
    var p: nat := 0;
    ghost var whole := ch.tx + MainSession(m[..], ch.rx, sign, stale, p);
    while true
      invariant whole == ch.tx + MainSession(m[..], ch.rx, sign, stale, p)
      decreases |ch.rx|
    {
      ghost var t, rx, m0 := ch.tx, ch.rx, m[..];
      var staleBytes := StaleBytes(stale, p);
      MainSessionStep(m0, rx, sign, stale, p, t);
      MainStepConsumes(m0, rx, sign, stale.len(p), staleBytes);
      var blocked := MainIteration(ch, m, sign, stale.len(p), staleBytes);
      if blocked {
        return;
      }
      p := p + 1;
    }
  }
}
