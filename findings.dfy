/** Three places where the firmware's onWrite, as written, reads or writes
    outside the memory it owns, each modelled as written beside an input
    that shows it. The rest of the model uses the guarded behaviour. */
module Findings {
  import opened Protocol
  import opened Dispatch

  // ---- The demo loop bound ----

  /** Bytes in an `int` on the ESP32-C3 target. */
  const IntSize: nat := 4

  /** The demo loop as written runs `i < sizeof(zonar)`: a size in bytes, not
      the number of cells. */
  function SourceDemoLoopBound(): (n: nat)
    ensures n == DemoCells * IntSize
  {
    |Zonar| * IntSize
  }

  /** Pattern index written by the as-written loop at iteration i. */
  function SourceDemoWriteIndex(i: nat): nat {
    i * 3 + 2
  }

  /** The as-written loop reads zonar at index 200 and beyond, and writes
      pattern bytes up to index 2399, four times the 600 bytes the demo has. */
  lemma SourceDemoLoopOverruns()
    ensures SourceDemoLoopBound() - 1 >= |Zonar|
    ensures SourceDemoWriteIndex(SourceDemoLoopBound() - 1) == 2399
    ensures SourceDemoWriteIndex(SourceDemoLoopBound() - 1) >= 3 * DemoCells
  {
  }

  // ---- The unchecked SetPattern copy ----

  /** One iteration of the copy loop: the buffer index read, the pattern index written. */
  datatype Access = Access(bufferIndex: nat, patternIndex: nat)

  /** The accesses of the copy loop as written, which runs to the declared
      pattern length with no check against the buffer or the capacity. */
  function SourceCopyAccesses(b: seq<bv8>): (a: seq<Access>)
    requires |b| >= 4
    ensures |a| == PatternSize(b[2], b[3])
  {
    var n := PatternSize(b[2], b[3]);
    seq(n, i requires 0 <= i < n => Access(i + 4, i))
  }

  /** `D0 04 FF FF D1` declares 195075 pattern bytes in a 5-byte buffer: the
      loop as written reads past the buffer and writes past the capacity. */
  lemma SourceCopyOverruns()
    ensures var b: seq<bv8> := [0xD0, 0x04, 0xFF, 0xFF, 0xD1];
      |SourceCopyAccesses(b)| == 195075
      && SourceCopyAccesses(b)[Capacity].bufferIndex >= |b|
      && SourceCopyAccesses(b)[Capacity].patternIndex >= Capacity
  {
  }

  /** Behind the bound check the same accesses all stay in bounds. */
  lemma GuardedCopyInBounds(b: seq<bv8>)
    requires PatternFits(b)
    ensures forall i :: 0 <= i < |SourceCopyAccesses(b)| ==>
      SourceCopyAccesses(b)[i].bufferIndex < |b| && SourceCopyAccesses(b)[i].patternIndex < Capacity
  {
  }

  // ---- The header tests on a short buffer ----

  /** The byte at index i, or None where the buffer has none. */
  function Peek(b: seq<bv8>, i: nat): (r: Option<bv8>)
    ensures r.Some? <==> i < |b|
    ensures r.Some? ==> r.value == b[i]
  {
    if i < |b| then Some(b[i]) else None
  }

  predicate ReadsInBounds(r: seq<nat>, b: seq<bv8>) {
    forall i :: 0 <= i < |r| ==> r[i] < |b|
  }

  /** The indices the magic test reads as written:
      `b[0] == 0x61 && b[1] == 0x73 && b[2] == 0x64 & b[3] == 0x66`.
      `&` binds tighter than `&&` and does not short-circuit, so once the
      first two bytes match, both index 2 and index 3 are read. A read past
      the buffer yields an unknown value, so the model lists only the reads
      that certainly happen. */
  function SourceMagicReads(b: seq<bv8>): (r: seq<nat>)
    ensures |r| >= 1 && r[0] == 0
    ensures |r| == 4 <==> |b| >= 2 && b[0] == 0x61 && b[1] == 0x73
    ensures |r| == 4 ==> r == [0, 1, 2, 3]
  {
    [0] + (if Peek(b, 0) == Some(0x61) then
             [1] + (if Peek(b, 1) == Some(0x73) then [2, 3] else [])
           else [])
  }

  /** The indices the header tests read as written, in order and with
      repeats: the magic test; then `b[0] == 0xD0 && b[bleLength - 1] == 0xD1`,
      which reads index 0 again and the last byte only after a D0; then the
      command byte, and the payload bytes the branch passes on: one for
      brightness and speed, two for the pattern geometry. The listing stops
      at the first read past the buffer, whose value is unknown; past that
      read `bleLength - 1` is the last index, since the buffer is not empty. */
  function SourceHeaderReads(b: seq<bv8>): (r: seq<nat>)
    ensures |r| >= 1 && r[0] == 0
    ensures |b| == 0 ==> r == [0]
  {
    var m := SourceMagicReads(b);
    if !ReadsInBounds(m, b) || IsMagic(b) then m
    else if b[0] != FrameStart then m + [0]
    else
      var e := |b| - 1;
      if b[e] != FrameEnd then m + [0, e]
      else
        m + [0, e, 1] + (if b[1] == Code(SetBrightness) || b[1] == Code(SetSpeed) then [2]
                      else if b[1] == Code(SetPattern) then [2, 3]
                      else [])
  }

  /** The as-written header tests stay inside the buffer exactly when it is
      not empty, is neither `61` alone nor a two- or three-byte prefix
      `61 73 ..` of the magic, and, when it is a pattern frame, holds both
      geometry bytes. A brightness or speed frame always holds its byte
      (`SetByteFrameHoldsPayload`). */
  lemma SourceHeaderReadsInBoundsIff(b: seq<bv8>)
    ensures ReadsInBounds(SourceHeaderReads(b), b) <==>
      |b| >= 1
      && !(|b| == 1 && b[0] == 0x61)
      && !(|b| < 4 && |b| >= 2 && b[0] == 0x61 && b[1] == 0x73)
      && !(Classify(b).Framed? && b[1] == 4 && |b| < 4)
  {
    var m := SourceMagicReads(b);
    var r := SourceHeaderReads(b);
    if |b| == 0 {
      assert r[0] >= |b|;
    } else if |b| == 1 && b[0] == 0x61 {
      assert r[1] >= |b|;
    } else if |b| >= 2 && b[0] == 0x61 && b[1] == 0x73 {
      assert m == [0, 1, 2, 3];
      if |b| < 4 {
        assert r[3] >= |b|;
      }
    } else {
      assert ReadsInBounds(m, b) && !IsMagic(b);
      if b[0] == FrameStart && b[|b| - 1] == FrameEnd {
        assert |b| >= 2 && Classify(b) == Framed(b[1]);
        if b[1] == 4 && |b| < 4 {
          assert r[|m| + 4] == 3;
        }
      }
    }
  }

  /** `61 73` matches the first two magic bytes, and the `&` then reads
      indices 2 and 3 of a two-byte buffer. */
  lemma SourceShortMagicOverreads()
    ensures var b: seq<bv8> := [0x61, 0x73];
      SourceHeaderReads(b) == [0, 1, 2, 3] && !ReadsInBounds(SourceHeaderReads(b), b)
  {
    var b: seq<bv8> := [0x61, 0x73];
    assert SourceHeaderReads(b)[2] == 2;
  }

  /** `D0 04 D1` is a pattern frame whose geometry read takes index 3 of a
      three-byte buffer. */
  lemma SourceShortPatternOverreads()
    ensures var b: seq<bv8> := [0xD0, 0x04, 0xD1];
      SourceHeaderReads(b) == [0, 0, 2, 1, 2, 3] && !ReadsInBounds(SourceHeaderReads(b), b)
  {
    var b: seq<bv8> := [0xD0, 0x04, 0xD1];
    assert SourceHeaderReads(b)[5] == 3;
  }

  /** A brightness or speed frame always holds the byte its branch reads:
      with the command at index 1 and D1 last, such a frame has at least
      three bytes. */
  lemma SetByteFrameHoldsPayload(b: seq<bv8>)
    requires Classify(b).Framed? && (b[1] == Code(SetBrightness) || b[1] == Code(SetSpeed))
    ensures |b| >= 3
  {
  }

  /** The empty buffer: the magic test reads index 0, which does not exist. */
  lemma SourceEmptyOverreads()
    ensures !ReadsInBounds(SourceHeaderReads([]), [])
  {
  }

  /** The guarded handler reads only bytes that exist and answers each of
      these buffers: the empty one and `61 73` are chatter, the short
      pattern frame is refused and changes nothing. */
  lemma GuardedHeaderTotal(s: ConfigState)
    requires Valid(s)
    ensures Classify([]) == Chatter
    ensures Process(s, []).reply == Some(LolcatFrame()) && Process(s, []).state == s
    ensures Classify([0x61, 0x73]) == Chatter
    ensures Process(s, [0x61, 0x73]).reply == Some(LolcatFrame())
    ensures Process(s, [0x61, 0x73]).state == s
    ensures Process(s, [0xD0, 0x04, 0xD1]).reply == Some(ErrorFrame())
    ensures Process(s, [0xD0, 0x04, 0xD1]).state == s
  {
  }
}
