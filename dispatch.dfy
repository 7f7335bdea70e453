/** What one onWrite callback does to the configuration, stated on values: the
    new configuration, the response frame (if any) and whether the pattern is
    saved. The imperative handler in module Remixer is proved to do exactly this. */
module Dispatch {
  import opened Protocol

  /** Size in bytes of the configuration's pattern buffer. */
  const Capacity: nat := 3072

  /** The built-in demo: 20 LEDs high, 10 frames, one "Z" cell per LED and frame. */
  const DemoHeight: bv8 := 20
  const DemoCount: bv8 := 10
  const DemoCells: nat := 200

  /** The upper half of the big "Z", one entry per cell, row by row. */
  const Zonar: seq<int> := [
    1, 0, 0, 0, 0, 0, 0, 0, 0, 0, 0, 0, 0, 0, 0, 0, 0, 0, 1, 1,
    1, 0, 0, 0, 0, 0, 0, 0, 0, 0, 0, 0, 0, 0, 0, 0, 0, 1, 0, 1,
    1, 0, 0, 0, 0, 0, 0, 0, 0, 0, 0, 0, 0, 0, 0, 0, 1, 0, 0, 1,
    1, 0, 0, 0, 0, 0, 0, 0, 0, 0, 0, 0, 0, 0, 0, 1, 0, 0, 0, 1,
    1, 0, 0, 0, 0, 0, 0, 0, 0, 0, 0, 0, 0, 0, 1, 0, 0, 0, 0, 1,
    1, 0, 0, 0, 0, 0, 0, 0, 0, 0, 0, 0, 0, 1, 0, 0, 0, 0, 0, 1,
    1, 0, 0, 0, 0, 0, 0, 0, 0, 0, 0, 0, 1, 0, 0, 0, 0, 0, 0, 1,
    1, 0, 0, 0, 0, 0, 0, 0, 0, 0, 0, 1, 0, 0, 0, 0, 0, 0, 0, 1,
    1, 0, 0, 0, 0, 0, 0, 0, 0, 0, 1, 0, 0, 0, 0, 0, 0, 0, 0, 1,
    1, 0, 0, 0, 0, 0, 0, 0, 0, 1, 0, 0, 0, 0, 0, 0, 0, 0, 0, 1
  ]

  /** The configuration as the protocol sees it. */
  datatype ConfigState = ConfigState(
    brightness: bv8,
    speed: bv8,
    frameHeight: bv8,
    frameCount: bv8,
    patternLength: nat,
    pattern: seq<bv8>)

  /** Memory safety: the buffer has its fixed size and the pattern fits in it. */
  predicate Valid(s: ConfigState) {
    |s.pattern| == Capacity && s.patternLength <= Capacity
  }

  /** The declared geometry agrees with the pattern length. */
  predicate Consistent(s: ConfigState) {
    s.patternLength == PatternSize(s.frameHeight, s.frameCount)
  }

  /** Bytes needed by `frames` frames of `height` RGB pixels, computed in int
      as C++ promotes the byte operands. */
  function PatternSize(height: bv8, frames: bv8): (n: nat)
    ensures n % 3 == 0 && n <= 255 * 255 * 3
    ensures n == 0 <==> height == 0 || frames == 0
  {
    var h, f := height as nat, frames as nat;
    ProductBound(h, f);
    var p := h * f;
    p * 3
  }

  lemma ProductBound(h: nat, f: nat)
    requires h <= 255 && f <= 255
    ensures h * f <= 255 * 255
    ensures h * f == 0 <==> h == 0 || f == 0
  {
    MulAtMost(h, 255, f);
    MulAtMost(f, 255, 255);
    if h > 0 && f > 0 {
      MulAtMost(1, h, f);
    }
  }

  lemma MulAtMost(a: nat, b: nat, c: nat)
    requires a <= b
    ensures a * c <= b * c
  {
    var d := b - a;
    assert b * c == a * c + d * c;
  }

  /** The blue channel of demo cell `i`. */
  function DemoBlue(i: nat): bv8
    requires i < DemoCells
  {
    if Zonar[i] == 1 then 0xFF else 0x00
  }

  /** The demo fill applied to buffer `p`: cell i gets colour (0, 0, DemoBlue(i)),
      the bytes past the 200 cells keep their contents. */
  function DemoPattern(p: seq<bv8>): (q: seq<bv8>)
    requires |p| == Capacity
    ensures |q| == Capacity
    ensures q[3 * DemoCells..] == p[3 * DemoCells..]
  {
    seq(Capacity, k requires 0 <= k < Capacity =>
      if k < 3 * DemoCells then (if k % 3 == 2 then DemoBlue(k / 3) else 0x00) else p[k])
  }

  /** The demo fill, cell by cell. */
  lemma DemoPatternCells(p: seq<bv8>, i: nat)
    requires |p| == Capacity && i < DemoCells
    ensures DemoPattern(p)[3 * i] == 0x00 && DemoPattern(p)[3 * i + 1] == 0x00
    ensures DemoPattern(p)[3 * i + 2] == (if Zonar[i] == 1 then 0xFF else 0x00)
  {
    assert (3 * i + 2) / 3 == i && (3 * i + 2) % 3 == 2;
    assert (3 * i + 1) % 3 == 1 && (3 * i) % 3 == 0;
  }

  /** A buffer that holds the demo cells in its first 600 bytes and the old
      contents after them is the demo fill of the old contents. */
  lemma DemoPatternFromCells(p: seq<bv8>, q: seq<bv8>)
    requires |p| == Capacity && |q| == Capacity
    requires forall j :: 0 <= j < DemoCells ==>
      q[3 * j] == 0x00 && q[3 * j + 1] == 0x00 && q[3 * j + 2] == DemoBlue(j)
    requires forall k :: 3 * DemoCells <= k < Capacity ==> q[k] == p[k]
    ensures q == DemoPattern(p)
  {
    forall k | 0 <= k < 3 * DemoCells
      ensures q[k] == DemoPattern(p)[k]
    {
      var j := k / 3;
      assert k == 3 * j + k % 3;
    }
  }

  /** The pattern a SetPattern command leaves: its first n bytes are taken from
      the buffer at offset 4, the rest of the buffer is cleared. */
  function LoadedPattern(b: seq<bv8>, n: nat): (q: seq<bv8>)
    requires n <= Capacity && 4 + n <= |b|
    ensures |q| == Capacity
    ensures q[..n] == b[4..4 + n]
    ensures forall k :: n <= k < Capacity ==> q[k] == 0x00
  {
    seq(Capacity, i requires 0 <= i < Capacity => if i < n then b[i + 4] else 0x00)
  }

  /** A SetPattern buffer is applied when it holds both geometry bytes, the
      pattern it declares fits the capacity, and the buffer holds that many
      bytes after them. */
  function PatternFits(b: seq<bv8>): (ok: bool)
    ensures ok <==> |b| >= 4 && b[2] as nat * b[3] as nat <= Capacity / 3
                    && |b| >= 4 + 3 * (b[2] as nat * b[3] as nat)
  {
    |b| >= 4 && PatternSize(b[2], b[3]) <= Capacity && 4 + PatternSize(b[2], b[3]) <= |b|
  }

  /** The outcome of one write: new configuration, response frame, saved or not. */
  datatype Step = Step(state: ConfigState, reply: Option<seq<bv8>>, saved: bool)

  function Reply(s: ConfigState, frame: seq<bv8>): Step {
    Step(s, Some(frame), false)
  }

  /** onWrite on a configuration value. */
  function Process(s: ConfigState, b: seq<bv8>): (r: Step)
    requires Valid(s)
    ensures Valid(r.state)
    ensures Consistent(s) ==> Consistent(r.state)
    ensures r.reply.None? <==> IsMagic(b)
    ensures r.reply.Some? ==> r.reply.value in {SuccessFrame(), ErrorFrame(), LolcatFrame()}
    ensures r.reply == Some(LolcatFrame()) <==> Classify(b) == Chatter
    ensures r.reply != Some(SuccessFrame()) && r.reply.Some? ==> r.state == s && !r.saved
    ensures r.state.pattern != s.pattern ==> r.saved
  {
    match Classify(b)
    case LegacyMagic =>
      var t := s.(frameHeight := DemoHeight, frameCount := DemoCount,
                  pattern := DemoPattern(s.pattern));
      Step(t.(patternLength := PatternSize(t.frameHeight, t.frameCount)), None, true)
    case Framed(command) =>
      if command == Code(SetBrightness) then
        if |b| >= 4 then Reply(s.(brightness := b[2]), SuccessFrame()) else Reply(s, ErrorFrame())
      else if command == Code(SetSpeed) then
        if |b| >= 4 then Reply(s.(speed := b[2]), SuccessFrame()) else Reply(s, ErrorFrame())
      else if command == Code(SetPattern) then
        if PatternFits(b) then
          var n := PatternSize(b[2], b[3]);
          Step(s.(frameHeight := b[2], frameCount := b[3], patternLength := n,
                  pattern := LoadedPattern(b, n)),
               Some(SuccessFrame()), true)
        else Reply(s, ErrorFrame())
      else Reply(s, ErrorFrame())
    case Chatter => Reply(s, LolcatFrame())
  }

  // ---- Properties of one write ----

  /** The legacy magic installs the 20 x 10 demo, saves it and sends nothing. */
  lemma MagicInstallsDemo(s: ConfigState, b: seq<bv8>)
    requires Valid(s) && |b| >= 4 && b[..4] == Magic
    ensures var r := Process(s, b);
      r.state == s.(frameHeight := 20, frameCount := 10, patternLength := 600,
                    pattern := DemoPattern(s.pattern))
      && r.reply == None && r.saved
  {
  }

  /** SetBrightness and SetSpeed take the byte after the command verbatim, for
      every value, and touch nothing else. */
  lemma SetByteExact(s: ConfigState, v: bv8, rest: seq<bv8>)
    requires Valid(s)
    ensures Process(s, EncodeFrame(2, [v] + rest)) == Step(s.(brightness := v), Some(SuccessFrame()), false)
    ensures Process(s, EncodeFrame(3, [v] + rest)) == Step(s.(speed := v), Some(SuccessFrame()), false)
  {
  }

  /** A brightness or speed frame without a payload byte is answered with Error. */
  lemma SetByteNeedsPayload(s: ConfigState, command: bv8)
    requires Valid(s) && (command == 2 || command == 3)
    ensures Process(s, EncodeFrame(command, [])) == Step(s, Some(ErrorFrame()), false)
  {
  }

  /** A SetPattern that fits installs the declared geometry and bytes, clears
      the rest of the buffer, saves, and answers Success. */
  lemma SetPatternAccepted(s: ConfigState, b: seq<bv8>)
    requires Valid(s) && Classify(b) == Framed(4) && PatternFits(b)
    ensures var r := Process(s, b);
      r.state.frameHeight == b[2] && r.state.frameCount == b[3]
      && r.state.patternLength == b[2] as int * b[3] as int * 3
      && (forall i :: 0 <= i < r.state.patternLength ==> r.state.pattern[i] == b[i + 4])
      && (forall i :: r.state.patternLength <= i < Capacity ==> r.state.pattern[i] == 0)
      && r.state.brightness == s.brightness && r.state.speed == s.speed
      && r.reply == Some(SuccessFrame()) && r.saved
  {
  }

  /** A SetPattern whose declared pattern exceeds the capacity, or that carries
      fewer bytes than it declares, is answered with Error and changes nothing. */
  lemma SetPatternRejected(s: ConfigState, b: seq<bv8>)
    requires Valid(s) && Classify(b) == Framed(4) && !PatternFits(b)
    ensures Process(s, b) == Step(s, Some(ErrorFrame()), false)
  {
  }

  /** SetPattern succeeds exactly when the buffer passes the bound check. */
  lemma SetPatternSuccessIff(s: ConfigState, b: seq<bv8>)
    requires Valid(s) && Classify(b) == Framed(4)
    ensures Process(s, b).reply == Some(SuccessFrame()) <==> PatternFits(b)
  {
  }

  /** A standard frame with any other command byte, 0 and 1 included, is
      answered with Error and changes nothing. */
  lemma UnknownCommandRejected(s: ConfigState, b: seq<bv8>)
    requires Valid(s) && Classify(b).Framed?
    requires Classify(b).command !in {2, 3, 4}
    ensures Process(s, b) == Step(s, Some(ErrorFrame()), false)
  {
  }

  /** Rejection is idempotent: repeating a rejected write changes nothing either. */
  lemma RejectionIdempotent(s: ConfigState, b: seq<bv8>)
    requires Valid(s) && Process(s, b).reply == Some(ErrorFrame())
    ensures Process(Process(s, b).state, b) == Process(s, b)
  {
  }

  // ---- Properties of a session of writes ----

  /** The configuration after the writes `bs`, in order. */
  function Session(s: ConfigState, bs: seq<seq<bv8>>): (t: ConfigState)
    requires Valid(s)
    ensures Valid(t)
    decreases |bs|
  {
    if bs == [] then s else Session(Process(s, bs[0]).state, bs[1..])
  }

  /** No sequence of writes, however malformed, breaks the buffer bounds or
      the agreement of the geometry with the pattern length. */
  lemma {:induction false} SessionConsistent(s: ConfigState, bs: seq<seq<bv8>>)
    requires Valid(s) && Consistent(s)
    ensures Consistent(Session(s, bs))
    decreases |bs|
  {
    if bs != [] {
      SessionConsistent(Process(s, bs[0]).state, bs[1..]);
    }
  }

  /** A session made only of frames with unknown commands (0, 1 and 5 to 255)
      leaves the configuration as it was. */
  lemma {:induction false} RejectedSessionUnchanged(s: ConfigState, bs: seq<seq<bv8>>)
    requires Valid(s)
    requires forall i :: 0 <= i < |bs| ==> Classify(bs[i]).Framed? && Classify(bs[i]).command !in {2, 3, 4}
    ensures Session(s, bs) == s
    decreases |bs|
  {
    if bs != [] {
      UnknownCommandRejected(s, bs[0]);
      RejectedSessionUnchanged(s, bs[1..]);
    }
  }

  // ---- The documented example exchanges ----

  lemma ExampleBrightness(s: ConfigState)
    requires Valid(s)
    ensures Process(s, [0xD0, 0x02, 0x80, 0xD1]) == Step(s.(brightness := 128), Some(SuccessFrame()), false)
  {
  }

  lemma ExampleBlinkingPixel(s: ConfigState)
    requires Valid(s)
    ensures var r := Process(s, [0xD0, 0x04, 0x01, 0x02, 0xFF, 0xFF, 0xFF, 0x00, 0x00, 0x00, 0xD1]);
      r.state.frameHeight == 1 && r.state.frameCount == 2 && r.state.patternLength == 6
      && r.state.pattern[..6] == [0xFF, 0xFF, 0xFF, 0x00, 0x00, 0x00]
      && r.reply == Some(SuccessFrame())
  {
  }

  lemma ExampleOversizedPattern(s: ConfigState)
    requires Valid(s)
    ensures Process(s, [0xD0, 0x04, 0xFF, 0xFF, 0xD1]) == Step(s, Some(ErrorFrame()), false)
  {
  }

  lemma ExampleUnknownCommand(s: ConfigState)
    requires Valid(s)
    ensures Process(s, [0xD0, 0x05, 0xD1]) == Step(s, Some(ErrorFrame()), false)
  {
  }

  lemma ExampleChatter(s: ConfigState)
    requires Valid(s)
    ensures Process(s, [0xFF, 0xFF, 0xFF]) == Step(s, Some(LolcatFrame()), false)
    ensures Process(s, []) == Step(s, Some(LolcatFrame()), false)
  {
  }
}
