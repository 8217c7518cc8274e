/**
 * Consistent Overhead Byte Stuffing as SimpleSerial implements it
 * (Cheshire and Baker, IEEE/ACM Transactions on Networking, 1999): the data
 * are cut into blocks of at most 254 non-zero bytes, each sent behind a
 * code byte 1 + (its length), so that the frame byte 0x00 never occurs in
 * the encoding.  The decoder puts a 0x00 back after every block whose code
 * is below 0xFF, except after the last block.
 *
 * This encoder closes a block either at a zero byte or when the block is
 * full; a zero that arrives exactly when the block is full closes the full
 * block (code 0xFF, after which the decoder restores nothing) and so is
 * lost.  Survivors describes what comes back in general, and
 * EncodeFromFixed a variant that never loses a byte.
 */
module Cobs {
  import opened Wrappers
  import opened Bytes

  /** The longest block a code byte can announce. */
  const MaxBlock: nat := 254

  predicate NonZero(s: seq<byte>) {
    forall i :: 0 <= i < |s| ==> s[i] != FrameByte
  }

  /** A block closed behind its code byte. */
  function Close(block: seq<byte>): (r: seq<byte>)
    requires |block| <= MaxBlock
    ensures |r| == |block| + 1 && r[0] as int == |block| + 1 && r[0] != FrameByte && r[1..] == block
  {
    CountByteValue(|block| + 1);
    [CountByte(|block| + 1)] + block
  }

  /**
   * What the encoder emits from a state whose open block holds `block`,
   * for the input `rest` still to come.
   */
  function EncodeFrom(block: seq<byte>, rest: seq<byte>): seq<byte>
    requires |block| <= MaxBlock
    decreases |rest|
  {
    if rest == [] then Close(block)
    else if rest[0] == FrameByte || |block| == MaxBlock then
      Close(block) + EncodeFrom(if rest[0] != FrameByte then [rest[0]] else [], rest[1..])
    else EncodeFrom(block + [rest[0]], rest[1..])
  }

  /** cobs_stuff_data: nothing for an empty input. */
  function Stuff(x: seq<byte>): seq<byte> {
    if x == [] then [] else EncodeFrom([], x)
  }

  /** get_max_encode_len */
  function MaxEncodeLen(n: nat): nat {
    n + n / 254 + 1
  }

  /** get_max_decode_len */
  function MaxDecodeLen(n: nat): nat {
    n
  }

  /**
   * cobs_unstuff_data, block by block: None for a zero code byte or a block
   * running past the end of the input.
   */
  function Decode(s: seq<byte>): Option<seq<byte>>
    decreases |s|
  {
    if s == [] then Some([])
    else
      var code := s[0] as int;
      if code == 0 || code > |s| then None
      else
        match Decode(s[code..])
        case None => None
        case Some(r) => Some(s[1..code] + (if code < 0xFF && code < |s| then [FrameByte] else []) + r)
  }

  // ---------------------------------------------------------------------
  // The encoder's output

  /** No encoding contains the frame byte. */
  lemma {:induction false} EncodeFromNonZero(block: seq<byte>, rest: seq<byte>)
    requires |block| <= MaxBlock && NonZero(block)
    ensures NonZero(EncodeFrom(block, rest))
    decreases |rest|
  {
    if rest != [] {
      if rest[0] == FrameByte || |block| == MaxBlock {
        EncodeFromNonZero(if rest[0] != FrameByte then [rest[0]] else [], rest[1..]);
      } else {
        EncodeFromNonZero(block + [rest[0]], rest[1..]);
      }
    }
  }

  lemma StuffNonZero(x: seq<byte>)
    ensures NonZero(Stuff(x))
  {
    if x != [] {
      EncodeFromNonZero([], x);
    }
  }

  /** Every output byte beyond the open block is paid for by an input byte or a full block. */
  lemma {:induction false} EncodeFromLength(block: seq<byte>, rest: seq<byte>)
    requires |block| <= MaxBlock
    ensures |EncodeFrom(block, rest)| >= |block| + 1
    ensures rest != [] ==> |EncodeFrom(block, rest)| >= |block| + 2
    ensures 254 * |EncodeFrom(block, rest)| <= 254 + 255 * (|block| + |rest|)
    decreases |rest|
  {
    if rest != [] {
      if rest[0] == FrameByte || |block| == MaxBlock {
        EncodeFromLength(if rest[0] != FrameByte then [rest[0]] else [], rest[1..]);
      } else {
        EncodeFromLength(block + [rest[0]], rest[1..]);
      }
    }
  }

  /** The encoding is empty exactly for the empty input and never exceeds get_max_encode_len. */
  lemma StuffLength(x: seq<byte>)
    ensures |Stuff(x)| == 0 <==> x == []
    ensures |Stuff(x)| <= MaxEncodeLen(|x|)
  {
    if x != [] {
      EncodeFromLength([], x);
      var n := |x|;
      var l := |Stuff(x)|;
      assert 254 * (l - 1 - n) <= n;
      DivBound(l - 1 - n, n);
    }
  }

  lemma DivBound(e: int, n: nat)
    requires 254 * e <= n
    ensures e <= n / 254
  {}

  // ---------------------------------------------------------------------
  // The decoder

  /** A successful decoding is never longer than its input (get_max_decode_len). */
  lemma {:induction false} DecodeLength(s: seq<byte>)
    requires Decode(s).Some?
    ensures |Decode(s).value| <= MaxDecodeLen(|s|)
    decreases |s|
  {
    if s != [] {
      DecodeLength(s[s[0] as int..]);
    }
  }

  /** Decoding one closed block followed by more encoded bytes. */
  lemma DecodeClose(block: seq<byte>, t: seq<byte>)
    requires |block| <= MaxBlock
    ensures Decode(Close(block) + t) ==
      match Decode(t)
      case None => None
      case Some(r) => Some(block + (if |block| < MaxBlock && t != [] then [FrameByte] else []) + r)
  {
    var s := Close(block) + t;
    assert s[1..|block| + 1] == block;
    assert s[|block| + 1..] == t;
  }

  // ---------------------------------------------------------------------
  // Round trip

  /** The length of the open block after the encoder has read x[..i]. */
  function BlockLen(x: seq<byte>, i: nat): (k: nat)
    requires i <= |x|
    ensures k <= i && k <= MaxBlock
  {
    if i == 0 then 0
    else if x[i - 1] == FrameByte then 0
    else if BlockLen(x, i - 1) == MaxBlock then 1
    else BlockLen(x, i - 1) + 1
  }

  /** The zero at x[i] arrives while the open block is full, and is lost. */
  predicate Swallowed(x: seq<byte>, i: nat)
    requires i < |x|
  {
    x[i] == FrameByte && BlockLen(x, i) == MaxBlock
  }

  /** x[i..] without the zeros that are lost. */
  function Survivors(x: seq<byte>, i: nat): (r: seq<byte>)
    requires i <= |x|
    ensures |r| <= |x| - i
    decreases |x| - i
  {
    if i == |x| then []
    else (if Swallowed(x, i) then [] else [x[i]]) + Survivors(x, i + 1)
  }

  /** The length of the open block after one more input byte. */
  function NextLen(k: nat, b: byte): (k': nat)
    requires k <= MaxBlock
    ensures k' <= MaxBlock
  {
    if b == FrameByte then 0 else if k == MaxBlock then 1 else k + 1
  }

  /** What survives of `rest` when the encoder meets it with an open block of k bytes. */
  function Kept(k: nat, rest: seq<byte>): seq<byte>
    requires k <= MaxBlock
    decreases |rest|
  {
    if rest == [] then []
    else (if rest[0] == FrameByte && k == MaxBlock then [] else [rest[0]]) + Kept(NextLen(k, rest[0]), rest[1..])
  }

  lemma KeptStep(k: nat, rest: seq<byte>)
    requires k <= MaxBlock && rest != []
    ensures Kept(k, rest) == (if rest[0] == FrameByte && k == MaxBlock then [] else [rest[0]]) + Kept(NextLen(k, rest[0]), rest[1..])
  {}

  /** Decoding a closed block in front of a non-empty encoding. */
  lemma DecodeCloseSome(block: seq<byte>, t: seq<byte>, d: seq<byte>)
    requires |block| <= MaxBlock && t != [] && Decode(t) == Some(d)
    ensures Decode(Close(block) + t) == Some(block + (if |block| < MaxBlock then [FrameByte] else []) + d)
  {
    DecodeClose(block, t);
  }

  lemma Assoc(a: seq<byte>, b: seq<byte>, c: seq<byte>)
    ensures a + b + c == a + (b + c)
  {}

  lemma Regroup(a: seq<byte>, b: seq<byte>, c: seq<byte>, d: seq<byte>)
    ensures a + b + (c + d) == a + ((b + c) + d)
  {}

  /** Decoding what the encoder emits from a state gives back the open block and what survives of the rest. */
  lemma {:induction false} DecodeEncodeFrom(block: seq<byte>, rest: seq<byte>)
    requires |block| <= MaxBlock
    ensures Decode(EncodeFrom(block, rest)) == Some(block + Kept(|block|, rest))
    decreases |rest|
  {
    if rest == [] {
      DecodeClose(block, []);
      assert Close(block) + [] == Close(block);
      assert Kept(|block|, rest) == [] && block + [] + [] == block + [];
    } else {
      var b, r := rest[0], rest[1..];
      if b == FrameByte || |block| == MaxBlock {
        var next: seq<byte> := if b != FrameByte then [b] else [];
        DecodeEncodeFrom(next, r);
        EncodeFromLength(next, r);
        DecodeCloseSome(block, EncodeFrom(next, r), next + Kept(|next|, r));
        var z: seq<byte> := if |block| < MaxBlock then [FrameByte] else [];
        Regroup(block, z, next, Kept(|next|, r));
        assert EncodeFrom(block, rest) == Close(block) + EncodeFrom(next, r);
        KeptStep(|block|, rest);
        assert z + next == (if b == FrameByte && |block| == MaxBlock then [] else [b]);
      } else {
        DecodeEncodeFrom(block + [b], r);
        KeptStep(|block|, rest);
        Assoc(block, [b], Kept(|block| + 1, r));
        assert EncodeFrom(block, rest) == EncodeFrom(block + [b], r);
      }
    }
  }

  /** Kept, read along the whole input, is Survivors. */
  lemma {:induction false} KeptIsSurvivors(x: seq<byte>, i: nat)
    requires i <= |x|
    ensures Kept(BlockLen(x, i), x[i..]) == Survivors(x, i)
    decreases |x| - i
  {
    if i < |x| {
      KeptIsSurvivors(x, i + 1);
      assert x[i..][0] == x[i] && x[i..][1..] == x[i + 1..];
      assert BlockLen(x, i + 1) == NextLen(BlockLen(x, i), x[i]);
    }
  }

  /** What cobs_unstuff_data makes of cobs_stuff_data's output: the input without its lost zeros. */
  lemma DecodeStuff(x: seq<byte>)
    ensures Decode(Stuff(x)) == Some(Survivors(x, 0))
  {
    if x != [] {
      DecodeEncodeFrom([], x);
      KeptIsSurvivors(x, 0);
      assert x[0..] == x && [] + Kept(0, x) == Kept(0, x);
    }
  }

  /** Survivors keeps everything exactly when no zero is lost. */
  lemma {:induction false} SurvivorsAll(x: seq<byte>, i: nat)
    requires i <= |x|
    ensures Survivors(x, i) == x[i..] <==> forall p :: i <= p < |x| ==> !Swallowed(x, p)
    decreases |x| - i
  {
    if i < |x| {
      SurvivorsAll(x, i + 1);
      assert x[i..] == [x[i]] + x[i + 1..];
      if Swallowed(x, i) {
        assert |Survivors(x, i)| < |x[i..]|;
      }
    }
  }

  /** The round trip holds exactly for the inputs in which no zero is lost. */
  lemma RoundTrip(x: seq<byte>)
    ensures Decode(Stuff(x)) == Some(x) <==> forall p :: 0 <= p < |x| ==> !Swallowed(x, p)
  {
    DecodeStuff(x);
    SurvivorsAll(x, 0);
    assert x[0..] == x;
  }

  /** Inputs of at most 254 bytes never fill a block before a zero, so they always come back. */
  lemma RoundTripShort(x: seq<byte>)
    requires |x| <= MaxBlock
    ensures Decode(Stuff(x)) == Some(x)
  {
    RoundTrip(x);
  }

  /**
   * The open block, in terms of the input alone: after a run of r non-zero
   * bytes it holds nothing when r == 0 and otherwise the last
   * (r - 1) % 254 + 1 of them.
   */
  function RunBefore(x: seq<byte>, i: nat): (r: nat)
    requires i <= |x|
    ensures r <= i
  {
    if i == 0 || x[i - 1] == FrameByte then 0 else RunBefore(x, i - 1) + 1
  }

  lemma {:induction false} BlockLenOfRun(x: seq<byte>, i: nat)
    requires i <= |x|
    ensures BlockLen(x, i) == if RunBefore(x, i) == 0 then 0 else (RunBefore(x, i) - 1) % 254 + 1
  {
    if i > 0 && x[i - 1] != FrameByte {
      BlockLenOfRun(x, i - 1);
    }
  }

  /** A zero is lost exactly when the run of non-zero bytes before it has a length that is a positive multiple of 254. */
  lemma SwallowedIffRun(x: seq<byte>, i: nat)
    requires i < |x|
    ensures Swallowed(x, i) <==> x[i] == FrameByte && RunBefore(x, i) > 0 && RunBefore(x, i) % 254 == 0
  {
    BlockLenOfRun(x, i);
  }

  /** The smallest input that loses its zero: 254 non-zero bytes and then 0x00. */
  lemma SwallowExample()
    ensures var x := seq(254, _ => 1 as byte) + [FrameByte]; Decode(Stuff(x)) == Some(x[..254])
  {
    var x := seq(254, _ => 1 as byte) + [FrameByte];
    FullRunBlockLen(x, 254);
    DecodeStuff(x);
    assert Survivors(x, 254) == [];
    SurvivorsPrefix(x, 254);
    assert x[..254] + [] == x[..254];
  }

  lemma {:induction false} FullRunBlockLen(x: seq<byte>, i: nat)
    requires i <= |x| && i <= MaxBlock
    requires forall p :: 0 <= p < i ==> x[p] != FrameByte
    ensures BlockLen(x, i) == i
  {
    if i > 0 {
      FullRunBlockLen(x, i - 1);
    }
  }

  /** Nothing before position j is lost when every earlier block is still below full. */
  lemma {:induction false} SurvivorsPrefix(x: seq<byte>, j: nat)
    requires j <= |x| && j <= MaxBlock
    requires forall p :: 0 <= p < j ==> x[p] != FrameByte
    ensures Survivors(x, 0) == x[..j] + Survivors(x, j)
  {
    if j > 0 {
      SurvivorsPrefix(x, j - 1);
      FullRunBlockLen(x, j - 1);
      assert x[..j] == x[..j - 1] + [x[j - 1]];
      SurvivorsStep(x, j - 1);
    }
  }

  lemma SurvivorsStep(x: seq<byte>, i: nat)
    requires i < |x| && x[i] != FrameByte
    ensures Survivors(x, i) == [x[i]] + Survivors(x, i + 1)
  {}

  // ---------------------------------------------------------------------
  // An encoder that loses nothing

  /**
   * The evidently intended encoder: a full block is closed before the next
   * byte is looked at, so a zero always closes a block whose code is below
   * 0xFF and the decoder restores it.
   */
  function EncodeFromFixed(block: seq<byte>, rest: seq<byte>): seq<byte>
    requires |block| <= MaxBlock
    decreases |rest|, |block|
  {
    if rest == [] then Close(block)
    else if |block| == MaxBlock then Close(block) + EncodeFromFixed([], rest)
    else if rest[0] == FrameByte then Close(block) + EncodeFromFixed([], rest[1..])
    else EncodeFromFixed(block + [rest[0]], rest[1..])
  }

  function StuffFixed(x: seq<byte>): seq<byte> {
    if x == [] then [] else EncodeFromFixed([], x)
  }

  lemma {:induction false} EncodeFromFixedShape(block: seq<byte>, rest: seq<byte>)
    requires |block| <= MaxBlock && NonZero(block)
    ensures NonZero(EncodeFromFixed(block, rest))
    ensures |EncodeFromFixed(block, rest)| >= |block| + 1
    ensures 254 * |EncodeFromFixed(block, rest)| <= 254 + 255 * (|block| + |rest|)
    decreases |rest|, |block|
  {
    if rest != [] {
      if |block| == MaxBlock {
        EncodeFromFixedShape([], rest);
      } else if rest[0] == FrameByte {
        EncodeFromFixedShape([], rest[1..]);
      } else {
        EncodeFromFixedShape(block + [rest[0]], rest[1..]);
      }
    }
  }

  lemma {:induction false} DecodeEncodeFromFixed(block: seq<byte>, rest: seq<byte>)
    requires |block| <= MaxBlock
    ensures Decode(EncodeFromFixed(block, rest)) == Some(block + rest)
    decreases |rest|, |block|
  {
    if rest == [] {
      DecodeClose(block, []);
      assert Close(block) + [] == Close(block);
      assert block + [] + [] == block + rest;
    } else if |block| == MaxBlock {
      DecodeEncodeFromFixed([], rest);
      EncodeFromFixedShape([], rest);
      DecodeCloseSome(block, EncodeFromFixed([], rest), [] + rest);
      assert block + [] + ([] + rest) == block + rest;
      assert EncodeFromFixed(block, rest) == Close(block) + EncodeFromFixed([], rest);
    } else if rest[0] == FrameByte {
      DecodeEncodeFromFixed([], rest[1..]);
      EncodeFromFixedShape([], rest[1..]);
      DecodeCloseSome(block, EncodeFromFixed([], rest[1..]), [] + rest[1..]);
      assert rest == [FrameByte] + rest[1..];
      Assoc(block, [FrameByte], rest[1..]);
      assert [] + rest[1..] == rest[1..];
      assert EncodeFromFixed(block, rest) == Close(block) + EncodeFromFixed([], rest[1..]);
    } else {
      DecodeEncodeFromFixed(block + [rest[0]], rest[1..]);
      assert rest == [rest[0]] + rest[1..];
      Assoc(block, [rest[0]], rest[1..]);
      assert EncodeFromFixed(block, rest) == EncodeFromFixed(block + [rest[0]], rest[1..]);
    }
  }

  /** The corrected encoder: no frame byte, the same length bound, and a round trip for every input. */
  lemma StuffFixedCorrect(x: seq<byte>)
    ensures NonZero(StuffFixed(x))
    ensures |StuffFixed(x)| <= MaxEncodeLen(|x|)
    ensures Decode(StuffFixed(x)) == Some(x)
  {
    if x != [] {
      EncodeFromFixedShape([], x);
      DecodeEncodeFromFixed([], x);
      assert [] + x == x;
      var l := |StuffFixed(x)|;
      DivBound(l - 1 - |x|, |x|);
    }
  }

  // ---------------------------------------------------------------------
  // The C routines over output arrays

  /** The encoder's state as it reads one byte: what it has finished writing, and its open block. */
  function StepDone(done: seq<byte>, block: seq<byte>, b: byte): seq<byte>
    requires |block| <= MaxBlock
  {
    if b == FrameByte || |block| == MaxBlock then done + Close(block) else done
  }

  function StepBlock(block: seq<byte>, b: byte): (r: seq<byte>)
    requires |block| <= MaxBlock
    ensures |r| == NextLen(|block|, b)
  {
    if b == FrameByte || |block| == MaxBlock then (if b != FrameByte then [b] else []) else block + [b]
  }

  /** One step of the encoder keeps the total output the same. */
  lemma StepKeepsOutput(done: seq<byte>, block: seq<byte>, b: byte, r: seq<byte>)
    requires |block| <= MaxBlock
    ensures StepDone(done, block, b) + EncodeFrom(StepBlock(block, b), r) == done + EncodeFrom(block, [b] + r)
  {
    assert ([b] + r)[0] == b && ([b] + r)[1..] == r;
    if b == FrameByte || |block| == MaxBlock {
      Assoc(done, Close(block), EncodeFrom(StepBlock(block, b), r));
    }
  }

  /** What one iteration of cobs_stuff_data's loop needs to know about the encoding. */
  lemma StuffStep(x: seq<byte>, i: nat, done: seq<byte>, block: seq<byte>, total: seq<byte>)
    requires i < |x| && |block| <= MaxBlock && done + EncodeFrom(block, x[i..]) == total
    ensures StepDone(done, block, x[i]) + EncodeFrom(StepBlock(block, x[i]), x[i + 1..]) == total
    ensures |StepDone(done, block, x[i])| + |StepBlock(block, x[i])| + 1 <= |total|
    ensures |StepDone(done, block, x[i])| == |done| + (if x[i] == FrameByte || |block| == MaxBlock then |block| + 1 else 0)
  {
    assert x[i..] == [x[i]] + x[i + 1..];
    StepKeepsOutput(done, block, x[i], x[i + 1..]);
    EncodeFromLength(StepBlock(block, x[i]), x[i + 1..]);
  }

  /**
   * How cobs_stuff_data's output array looks while it runs: the finished
   * blocks, a placeholder for the open block's code byte at c, the open
   * block, and from o on the bytes it has not written.
   */
  ghost predicate Layout(s: seq<byte>, orig: seq<byte>, c: nat, o: nat, done: seq<byte>, block: seq<byte>)
  {
    c < o <= |s| == |orig| && s[..c] == done && s[c + 1..o] == block && s[o..] == orig[o..]
  }

  lemma LayoutClose(s: seq<byte>, orig: seq<byte>, c: nat, o: nat, done: seq<byte>, block: seq<byte>, v: byte)
    requires Layout(s, orig, c, o, done, block) && |block| <= MaxBlock && o < |s| && v == CountByte(|block| + 1)
    ensures Layout(s[c := v][o := 0], orig, o, o + 1, done + Close(block), [])
  {
    var s' := s[c := v][o := 0];
    assert s'[..o] == s[..c] + [v] + s[c + 1..o];
  }

  lemma LayoutPush(s: seq<byte>, orig: seq<byte>, c: nat, o: nat, done: seq<byte>, block: seq<byte>, b: byte)
    requires Layout(s, orig, c, o, done, block) && o < |s|
    ensures Layout(s[o := b], orig, c, o + 1, done, block + [b])
  {
    assert s[o := b][c + 1..o + 1] == s[c + 1..o] + [b];
  }

  lemma LayoutFinish(s: seq<byte>, orig: seq<byte>, c: nat, o: nat, done: seq<byte>, block: seq<byte>, v: byte)
    requires Layout(s, orig, c, o, done, block) && |block| <= MaxBlock && v == CountByte(|block| + 1)
    ensures s[c := v][..o] == done + Close(block)
    ensures s[c := v][o..] == orig[o..]
  {
    var s' := s[c := v];
    assert s'[..o] == s[..c] + [v] + s[c + 1..o];
  }

  /** Closing the open block: its code byte goes in, a placeholder starts the next block. */
  method CloseBlock(out: array<byte>, codeIndex: nat, outIndex: nat, code: nat,
                    ghost orig: seq<byte>, ghost done: seq<byte>, ghost block: seq<byte>)
    requires |block| <= MaxBlock && code == |block| + 1 && outIndex < out.Length
    requires Layout(out[..], orig, codeIndex, outIndex, done, block)
    modifies out
    ensures Layout(out[..], orig, outIndex, outIndex + 1, done + Close(block), [])
  {
    LayoutClose(out[..], orig, codeIndex, outIndex, done, block, CountByte(code));
    out[codeIndex] := CountByte(code);
    out[outIndex] := 0;
  }

  /** Closing the last block: only its code byte goes in. */
  method FinishBlock(out: array<byte>, codeIndex: nat, outIndex: nat, code: nat,
                     ghost orig: seq<byte>, ghost done: seq<byte>, ghost block: seq<byte>)
    requires |block| <= MaxBlock && code == |block| + 1
    requires Layout(out[..], orig, codeIndex, outIndex, done, block)
    modifies out
    ensures out[..outIndex] == done + Close(block) && out[outIndex..] == orig[outIndex..]
  {
    LayoutFinish(out[..], orig, codeIndex, outIndex, done, block, CountByte(code));
    out[codeIndex] := CountByte(code);
  }

  /** Appending a non-zero byte to the open block. */
  method PushByte(out: array<byte>, b: byte, codeIndex: nat, outIndex: nat,
                  ghost orig: seq<byte>, ghost done: seq<byte>, ghost block: seq<byte>)
    requires outIndex < out.Length && Layout(out[..], orig, codeIndex, outIndex, done, block)
    modifies out
    ensures Layout(out[..], orig, codeIndex, outIndex + 1, done, block + [b])
  {
    LayoutPush(out[..], orig, codeIndex, outIndex, done, block, b);
    out[outIndex] := b;
  }

  /**
   * One pass of cobs_stuff_data's loop body for the byte b: close the open
   * block if b is the frame byte or the block is full, then append b
   * unless it is the frame byte.
   */
  method StuffByte(out: array<byte>, b: byte, codeIndex: nat, outIndex: nat, code: nat,
                   ghost orig: seq<byte>, ghost done: seq<byte>, ghost block: seq<byte>,
                   ghost x: seq<byte>, ghost i: nat, ghost total: seq<byte>)
    returns (codeIndex': nat, outIndex': nat, code': nat)
    requires |block| <= MaxBlock && code == |block| + 1
    requires codeIndex == |done| && outIndex == codeIndex + |block| + 1
    requires Layout(out[..], orig, codeIndex, outIndex, done, block)
    requires i < |x| && b == x[i] && done + EncodeFrom(block, x[i..]) == total && |total| <= out.Length
    modifies out
    ensures StepDone(done, block, b) + EncodeFrom(StepBlock(block, b), x[i + 1..]) == total
    ensures code' == |StepBlock(block, b)| + 1
    ensures codeIndex' == |StepDone(done, block, b)| && outIndex' == codeIndex' + code'
    ensures Layout(out[..], orig, codeIndex', outIndex', StepDone(done, block, b), StepBlock(block, b))
  {
    StuffStep(x, i, done, block, total);
    codeIndex', outIndex', code' := codeIndex, outIndex, code;
    ghost var d, k := done, block;
    if b == FrameByte || code == 0xFF {
      CloseBlock(out, codeIndex', outIndex', code', orig, d, k);
      codeIndex' := outIndex';
      outIndex' := outIndex' + 1;
      code' := 1;
      d, k := d + Close(k), [];
    }
    if b != FrameByte {
      PushByte(out, b, codeIndex', outIndex', orig, d, k);
      outIndex' := outIndex' + 1;
      code' := code' + 1;
      k := k + [b];
    }
    assert d == StepDone(done, block, b) && k == StepBlock(block, b);
  }

  /**
   * cobs_stuff_data: `out` must have room for get_max_encode_len(len)
   * bytes; a null or empty input writes nothing.  Nothing past the
   * returned length is written.
   */
  method StuffData(buf: array?<byte>, len: nat, out: array<byte>) returns (outLen: nat)
    requires buf != null ==> len <= buf.Length && buf != out
    requires out.Length >= MaxEncodeLen(len)
    modifies out
    ensures outLen <= out.Length
    ensures buf == null ==> outLen == 0
    ensures buf != null ==> out[..outLen] == Stuff(buf[..len])
    ensures out[outLen..] == old(out[outLen..])
  {
    if buf == null || len == 0 {
      return 0;
    }
    ghost var x := buf[..len];
    ghost var total := Stuff(x);
    ghost var orig := out[..];
    StuffLength(x);
    ghost var done: seq<byte> := [];
    ghost var block: seq<byte> := [];
    var outIndex: nat := 1;
    var codeIndex: nat := 0;
    var code: nat := 1;
    var i := 0;
    while i < len
      invariant 0 <= i <= len && unchanged(buf)
      invariant |block| <= MaxBlock && code == |block| + 1
      invariant codeIndex == |done| && outIndex == codeIndex + |block| + 1
      invariant done + EncodeFrom(block, x[i..]) == total
      invariant |total| <= out.Length
      invariant Layout(out[..], orig, codeIndex, outIndex, done, block)
    {
      var b := buf[i];
      codeIndex, outIndex, code := StuffByte(out, b, codeIndex, outIndex, code, orig, done, block, x, i, total);
      done, block := StepDone(done, block, b), StepBlock(block, b);
      i := i + 1;
    }
    assert x[len..] == [];
    assert EncodeFrom(block, []) == Close(block);
    FinishBlock(out, codeIndex, outIndex, code, orig, done, block);
    outLen := outIndex;
  }

  /** A decoding with `acc` already written in front of it. */
  function Behind(acc: seq<byte>, d: Option<seq<byte>>): (r: Option<seq<byte>>)
    ensures r.Some? <==> d.Some?
  {
    match d
    case None => None
    case Some(t) => Some(acc + t)
  }

  lemma BehindBehind(a: seq<byte>, b: seq<byte>, d: Option<seq<byte>>)
    ensures Behind(a, Behind(b, d)) == Behind(a + b, d)
  {
    if d.Some? {
      Assoc(a, b, d.value);
    }
  }

  /** Decode of a well-formed first block, in terms of Behind. */
  lemma DecodeFront(t: seq<byte>)
    requires t != [] && 0 < t[0] as int <= |t|
    ensures Decode(t) == Behind(t[1..t[0] as int] + (if t[0] as int < 0xFF && t[0] as int < |t| then [FrameByte] else []),
                                Decode(t[t[0] as int..]))
  {}

  /**
   * cobs_unstuff_data's loop from input position p with `acc` already
   * written: the decoding it finishes with, or None where it gives up.
   */
  function DecodeLoop(s: seq<byte>, p: nat, acc: seq<byte>): Option<seq<byte>>
    requires p <= |s|
    decreases |s| - p
  {
    if p == |s| then Some(acc)
    else
      var code := s[p] as int;
      if code == 0 || p + code > |s| then None
      else DecodeLoop(s, p + code, acc + s[p + 1..p + code] + (if code < 0xFF && p + code < |s| then [FrameByte] else []))
  }

  /** Decode of a suffix whose first block is well formed. */
  lemma DecodeSuffix(s: seq<byte>, p: nat)
    requires p < |s| && 0 < s[p] as int && p + s[p] as int <= |s|
    ensures Decode(s[p..]) == Behind(s[p + 1..p + s[p] as int] + (if s[p] as int < 0xFF && p + s[p] as int < |s| then [FrameByte] else []),
                                     Decode(s[p + s[p] as int..]))
  {
    var t := s[p..];
    var code := s[p] as int;
    assert t[0] == s[p] && |t| == |s| - p;
    assert t[1..code] == s[p + 1..p + code] && t[code..] == s[p + code..];
    DecodeFront(t);
  }

  /** One block of the loop, given what the rest of the loop finishes with. */
  lemma DecodeLoopStep(s: seq<byte>, p: nat, acc: seq<byte>)
    requires p < |s| && 0 < s[p] as int && p + s[p] as int <= |s|
    requires var code := s[p] as int;
      DecodeLoop(s, p + code, acc + s[p + 1..p + code] + (if code < 0xFF && p + code < |s| then [FrameByte] else []))
      == Behind(acc + s[p + 1..p + code] + (if code < 0xFF && p + code < |s| then [FrameByte] else []), Decode(s[p + code..]))
    ensures DecodeLoop(s, p, acc) == Behind(acc, Decode(s[p..]))
  {
    var code := s[p] as int;
    var z: seq<byte> := if code < 0xFF && p + code < |s| then [FrameByte] else [];
    DecodeSuffix(s, p);
    BehindBehind(acc, s[p + 1..p + code] + z, Decode(s[p + code..]));
    Assoc(acc, s[p + 1..p + code], z);
  }

  /** The loop finishes the decoding of the rest of the input, behind what it has written. */
  lemma {:induction false} DecodeLoopIsDecodeFrom(s: seq<byte>, p: nat, acc: seq<byte>)
    requires p <= |s|
    ensures DecodeLoop(s, p, acc) == Behind(acc, Decode(s[p..]))
    decreases |s| - p
  {
    if p == |s| {
      assert s[p..] == [] && acc + [] == acc;
    } else if 0 < s[p] as int && p + s[p] as int <= |s| {
      var code := s[p] as int;
      DecodeLoopIsDecodeFrom(s, p + code, acc + s[p + 1..p + code] + (if code < 0xFF && p + code < |s| then [FrameByte] else []));
      DecodeLoopStep(s, p, acc);
    } else {
      assert s[p..][0] == s[p];
    }
  }

  /** So the loop run over the whole input from nothing is Decode. */
  lemma DecodeLoopIsDecode(s: seq<byte>)
    ensures DecodeLoop(s, 0, []) == Decode(s)
  {
    DecodeLoopIsDecodeFrom(s, 0, []);
    assert s[0..] == s;
    match Decode(s) {
      case None =>
      case Some(r) => assert [] + r == r;
    }
  }

  /** What cobs_unstuff_data's output array holds: the decoding so far, in its first o places. */
  ghost predicate Written(a: seq<byte>, o: nat, acc: seq<byte>) {
    o <= |a| && a[..o] == acc
  }

  lemma WrittenStart(a: seq<byte>)
    ensures Written(a, 0, [])
  {}

  lemma WrittenPush(a: seq<byte>, o: nat, acc: seq<byte>, v: byte)
    requires o < |a| && Written(a, o, acc)
    ensures Written(a[o := v], o + 1, acc + [v])
  {
    assert a[o := v][..o + 1] == a[..o] + [v];
  }

  lemma SliceExtend(acc: seq<byte>, s: seq<byte>, start: nat, i: nat)
    requires start <= i < |s|
    ensures acc + s[start..i] + [s[i]] == acc + s[start..i + 1]
  {
    assert s[start..i + 1] == s[start..i] + [s[i]];
  }

  lemma SliceEmpty(acc: seq<byte>, s: seq<byte>, start: nat)
    requires start <= |s|
    ensures acc + s[start..start] == acc && acc + [] == acc
  {}

  /** The copy loop of cobs_unstuff_data: buf[start..end) is appended to the output at outIndex. */
  method CopyBlock(buf: array<byte>, len: nat, out: array<byte>, start: nat, end: nat, outIndex: nat,
                   ghost s: seq<byte>, ghost acc: seq<byte>)
    returns (outIndex': nat, ghost w: seq<byte>)
    requires len <= buf.Length && buf != out && buf[..len] == s
    requires start <= end <= len && outIndex == |acc| && outIndex + (end - start) <= out.Length
    requires Written(out[..], outIndex, acc)
    modifies out
    ensures outIndex' == outIndex + (end - start) && w == acc + s[start..end]
    ensures Written(out[..], outIndex', w)
    ensures forall k :: outIndex' <= k < out.Length ==> out[k] == old(out[k])
  {
    SliceEmpty(acc, s, start);
    w := acc;
    outIndex' := outIndex;
    var i := start;
    while i < end
      invariant start <= i <= end && outIndex' == |w| == |acc| + (i - start)
      invariant w == acc + s[start..i] && Written(out[..], outIndex', w)
      invariant forall k :: outIndex' <= k < out.Length ==> out[k] == old(out[k])
    {
      WrittenPush(out[..], outIndex', w, s[i]);
      SliceExtend(acc, s, start, i);
      out[outIndex'] := buf[i];
      w := w + [s[i]];
      outIndex' := outIndex' + 1;
      i := i + 1;
    }
  }

  /** out[outIndex++] = b, past what has been written so far. */
  method PutByte(out: array<byte>, outIndex: nat, ghost acc: seq<byte>, b: byte)
    returns (outIndex': nat, ghost acc': seq<byte>)
    requires outIndex < out.Length && Written(out[..], outIndex, acc)
    modifies out
    ensures outIndex' == outIndex + 1 && acc' == acc + [b] && Written(out[..], outIndex', acc')
    ensures forall k :: outIndex' <= k < out.Length ==> out[k] == old(out[k])
  {
    WrittenPush(out[..], outIndex, acc, b);
    out[outIndex] := b;
    outIndex' := outIndex + 1;
    acc' := acc + [b];
  }

  /**
   * One pass of cobs_unstuff_data's loop over a well-formed block: its bytes
   * are copied, then the implied zero when the code is below 0xFF and input
   * is left.
   */
  method DecodeBlock(buf: array<byte>, len: nat, out: array<byte>, inIndex: nat, outIndex: nat,
                     ghost s: seq<byte>, ghost acc: seq<byte>)
    returns (inIndex': nat, outIndex': nat, ghost acc': seq<byte>)
    requires len <= buf.Length && buf != out && buf[..len] == s && out.Length >= len
    requires inIndex < len && outIndex <= inIndex && outIndex == |acc| && Written(out[..], outIndex, acc)
    requires buf[inIndex] != 0 && inIndex + buf[inIndex] as int <= len
    modifies out
    ensures inIndex < inIndex' <= len && outIndex <= outIndex' <= inIndex' && outIndex' == |acc'| && Written(out[..], outIndex', acc')
    ensures DecodeLoop(s, inIndex, acc) == DecodeLoop(s, inIndex', acc')
    ensures forall k :: outIndex' <= k < out.Length ==> out[k] == old(out[k])
  {
    var code := buf[inIndex] as int;
    var end := inIndex + code;
    ghost var w;
    outIndex', w := CopyBlock(buf, len, out, inIndex + 1, end, outIndex, s, acc);
    inIndex' := end;
    if code < 0xFF && end < len {
      outIndex', acc' := PutByte(out, outIndex', w, FrameByte);
    } else {
      acc' := w + [];
    }
  }

  /**
   * cobs_unstuff_data: `out` must have room for get_max_decode_len(len)
   * bytes.  A zero code byte or a block running past the end of the input
   * makes it return 0; otherwise it returns the length of the decoding,
   * which it has written to `out`.
   */
  method UnstuffData(buf: array?<byte>, len: nat, out: array<byte>) returns (outLen: nat)
    requires buf != null ==> len <= buf.Length && buf != out
    requires out.Length >= MaxDecodeLen(len)
    modifies out
    ensures outLen <= out.Length
    ensures buf == null ==> outLen == 0
    ensures buf != null && Decode(buf[..len]).None? ==> outLen == 0
    ensures buf != null && Decode(buf[..len]).Some? ==> out[..outLen] == Decode(buf[..len]).value
    ensures buf != null && Decode(buf[..len]).Some? ==> out[outLen..] == old(out[outLen..])
  {
    if buf == null || len == 0 {
      return 0;
    }
    ghost var s := buf[..len];
    ghost var acc: seq<byte> := [];
    WrittenStart(out[..]);
    var inIndex := 0;
    var outIndex := 0;
    while inIndex < len
      invariant inIndex <= len && buf[..len] == s
      invariant outIndex <= inIndex && outIndex == |acc| && Written(out[..], outIndex, acc)
      invariant DecodeLoop(s, 0, []) == DecodeLoop(s, inIndex, acc)
      invariant forall k :: outIndex <= k < out.Length ==> out[k] == old(out[k])
      decreases len - inIndex
    {
      var code := buf[inIndex] as int;
      if code == 0 || inIndex + code > len {
        DecodeLoopIsDecode(s);
        return 0;
      }
      inIndex, outIndex, acc := DecodeBlock(buf, len, out, inIndex, outIndex, s, acc);
    }
    DecodeLoopIsDecode(s);
    outLen := outIndex;
  }
}
