/** Wire format of the LED Remixer control characteristic: the command codes,
    the classification of an incoming buffer, and the fixed response frames. */
module Protocol {

  datatype Option<T> = None | Some(value: T)

  /** Start and end markers of a standard frame `D0 <command> <payload...> D1`. */
  const FrameStart: bv8 := 0xD0
  const FrameEnd: bv8 := 0xD1

  /** The header-less legacy trigger "asdf". */
  const Magic: seq<bv8> := [0x61, 0x73, 0x64, 0x66]

  /** The firmware's CommCode enumeration, in declaration order. */
  datatype CommCode = Success | Error | SetBrightness | SetSpeed | SetPattern

  /** The numeric value of a CommCode (its position in the enumeration). */
  function Code(c: CommCode): (b: bv8)
    ensures b <= 4
  {
    match c
    case Success => 0
    case Error => 1
    case SetBrightness => 2
    case SetSpeed => 3
    case SetPattern => 4
  }

  /** Reads a command byte back as a CommCode; values past the enumeration
      are reported as None rather than cast. */
  function FromByte(b: bv8): (r: Option<CommCode>)
    ensures r.Some? <==> b <= 4
    ensures r.Some? ==> Code(r.value) == b
  {
    if b == 0 then Some(Success)
    else if b == 1 then Some(Error)
    else if b == 2 then Some(SetBrightness)
    else if b == 3 then Some(SetSpeed)
    else if b == 4 then Some(SetPattern)
    else None
  }

  lemma CodeRoundTrip(c: CommCode)
    ensures FromByte(Code(c)) == Some(c)
  {
  }

  /** How onWrite reads a raw buffer. */
  datatype Kind = LegacyMagic | Framed(command: bv8) | Chatter

  predicate IsMagic(b: seq<bv8>) {
    |b| >= 4 && b[..4] == Magic
  }

  predicate IsFramed(b: seq<bv8>) {
    |b| >= 1 && b[0] == FrameStart && b[|b| - 1] == FrameEnd
  }

  /** The legacy magic is tested first; a standard frame is one that starts
      with D0 and ends with D1, and its command is the byte after D0; anything
      else is chatter. Every buffer, the empty one included, gets a Kind. */
  function Classify(b: seq<bv8>): (k: Kind)
    ensures k == LegacyMagic <==>
              |b| >= 4 && b[0] == 0x61 && b[1] == 0x73 && b[2] == 0x64 && b[3] == 0x66
    ensures k.Framed? <==> !IsMagic(b) && |b| >= 2 && b[0] == 0xD0 && b[|b| - 1] == 0xD1
    ensures k.Framed? ==> k.command == b[1]
    ensures k == Chatter <==> !IsMagic(b) && !IsFramed(b)
  {
    if IsMagic(b) then LegacyMagic
    else if IsFramed(b) then Framed(b[1])
    else Chatter
  }

  /** Builds a standard frame around a command byte and its payload. */
  function EncodeFrame(command: bv8, payload: seq<bv8>): (b: seq<bv8>)
    ensures |b| == |payload| + 3
    ensures Classify(b) == Framed(command)
    ensures b[2..|b| - 1] == payload
  {
    [FrameStart, command] + payload + [FrameEnd]
  }

  /** Conversely, every standard frame of three or more bytes is the
      encoding of its command byte and the bytes between it and D1. */
  lemma FramedIsEncoded(b: seq<bv8>)
    requires Classify(b).Framed? && |b| >= 3
    ensures b == EncodeFrame(b[1], b[2..|b| - 1])
  {
  }

  /** The length writeToRemixer hands to the characteristic:
      `data[2] << 8 | data[3]`. Both bytes are promoted to `int`, so no bit is
      lost; a 16-bit value holds the result just as well. */
  function DeclaredLength(data: seq<bv8>): (n: nat)
    requires |data| >= 4
    ensures n == data[2] as int * 256 + data[3] as int
  {
    (((data[2] as bv16) << 8) | (data[3] as bv16)) as nat
  }

  /** The 7-byte acknowledgement `45 46 00 07 <code> 46 45`. */
  function ResponseFrame(code: CommCode): (r: seq<bv8>)
    requires code == Success || code == Error
    ensures |r| == 7 && DeclaredLength(r) == |r|
    ensures ResponseCode(r) == Some(code)
  {
    [0x45, 0x46, 0x00, 0x07, Code(code), 0x46, 0x45]
  }

  /** What a client reads out of an acknowledgement: the code at index 4 of a
      7-byte frame with the 45 46 / 46 45 brackets and declared length 7. */
  function ResponseCode(r: seq<bv8>): (c: Option<CommCode>)
    ensures c.Some? ==> |r| == 7 && r[4] == Code(c.value)
  {
    if |r| == 7 && r[0] == 0x45 && r[1] == 0x46 && r[2] == 0x00 && r[3] == 0x07
       && r[5] == 0x46 && r[6] == 0x45
    then FromByte(r[4])
    else None
  }

  function SuccessFrame(): (r: seq<bv8>)
    ensures ResponseCode(r) == Some(Success) && DeclaredLength(r) == |r| == 7
  {
    ResponseFrame(Success)
  }

  function ErrorFrame(): (r: seq<bv8>)
    ensures ResponseCode(r) == Some(Error) && DeclaredLength(r) == |r| == 7
  {
    ResponseFrame(Error)
  }

  /** The 5-byte diagnostic sent for unrecognised chatter; its declared
      length is its size and it is not an acknowledgement. */
  function LolcatFrame(): (r: seq<bv8>)
    ensures |r| == 5 && DeclaredLength(r) == |r|
    ensures ResponseCode(r) == None
  {
    [0x01, 0x02, 0x00, 0x05, 0x01]
  }

  /** The three response frames are pairwise distinct. */
  lemma ResponsesDistinct()
    ensures SuccessFrame() != ErrorFrame()
    ensures SuccessFrame() != LolcatFrame() && ErrorFrame() != LolcatFrame()
  {
  }
}
