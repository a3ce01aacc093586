/** The expansion protocol: frames as packed bytes, their XOR checksum and the byte-stream grammar. */
module ExpansionFrames {

  const MAX_DATA_SIZE := 64
  const FRAME_BYTES := 1 + 1 + MAX_DATA_SIZE

  const HEARTBEAT: bv8 := 1
  const STATUS: bv8 := 2
  const BAUD_RATE: bv8 := 3
  const CONTROL: bv8 := 4
  const DATA: bv8 := 5

  datatype Option<T> = None | Some(value: T)

  /** Size of the frame that starts with these bytes; 0 for an unknown type. */
  function EncodedSize(frame: seq<bv8>): nat
    requires |frame| >= 2
  {
    if frame[0] == HEARTBEAT then 1
    else if frame[0] == STATUS then 1 + 1
    else if frame[0] == BAUD_RATE then 1 + 4
    else if frame[0] == CONTROL then 1 + 1
    else if frame[0] == DATA then 1 + 1 + frame[1] as nat
    else 0
  }

  /** How many more bytes a decoder must ask for after `received` bytes; None for a malformed start. */
  function RemainingSize(frame: seq<bv8>, received: nat): Option<nat>
    requires |frame| == FRAME_BYTES
  {
    if received < 1 then Some(1)
    else
      var content := received - 1;
      var size :=
        if frame[0] == HEARTBEAT then Some(0)
        else if frame[0] == STATUS then Some(1)
        else if frame[0] == BAUD_RATE then Some(4)
        else if frame[0] == CONTROL then Some(1)
        else if frame[0] == DATA then
          if content < 1 then Some(1)
          else if frame[1] as nat > MAX_DATA_SIZE then None
          else Some(1 + frame[1] as nat)
        else None;
      match size
      case None => None
      case Some(n) => Some(if n > content then n - content else 0)
  }

  /** The decision looks at received bytes only. */
  lemma RemainingSizeReadsReceived(a: seq<bv8>, b: seq<bv8>, received: nat)
    requires |a| == |b| == FRAME_BYTES && received <= FRAME_BYTES && a[..received] == b[..received]
    ensures RemainingSize(a, received) == RemainingSize(b, received)
  {
  }

  function Xor(data: seq<bv8>): bv8 {
    if data == [] then 0 else Xor(data[..|data| - 1]) ^ data[|data| - 1]
  }

  /** A complete frame of a known type, nothing missing and nothing extra. */
  predicate WellFormed(frame: seq<bv8>) {
    && frame != [] && HEARTBEAT <= frame[0] <= DATA
    && if frame[0] == HEARTBEAT then |frame| == 1
       else |frame| >= 2 && |frame| == EncodedSize(frame)
            && (frame[0] == DATA ==> frame[1] as nat <= MAX_DATA_SIZE)
  }

  function Encoded(frame: seq<bv8>): seq<bv8> {
    frame + [Xor(frame)]
  }

  datatype Parse =
    | Frame(frame: seq<bv8>, rest: seq<bv8>)
    | BadFormat(rest: seq<bv8>)
    | BadChecksum(rest: seq<bv8>)
    | Truncated

  /** The grammar: what a byte stream means, whatever the chunks in which it arrives. */
  function ParseFrame(s: seq<bv8>): Parse {
    if s == [] then Truncated
    else if !(HEARTBEAT <= s[0] <= DATA) then BadFormat(s[1..])
    else if s[0] == DATA && |s| < 2 then Truncated
    else if s[0] == DATA && s[1] as nat > MAX_DATA_SIZE then BadFormat(s[2..])
    else
      var n := FrameSize(s);
      if |s| < n + 1 then Truncated
      else if s[n] == Xor(s[..n]) then Frame(s[..n], s[n + 1..])
      else BadChecksum(s[n + 1..])
  }

  function FrameSize(s: seq<bv8>): (n: nat)
    requires s != [] && HEARTBEAT <= s[0] <= DATA && (s[0] == DATA ==> |s| >= 2 && s[1] as nat <= MAX_DATA_SIZE)
    ensures 1 <= n <= FRAME_BYTES
  {
    if s[0] == HEARTBEAT then 1
    else if s[0] == BAUD_RATE then 5
    else if s[0] == DATA then 2 + s[1] as nat
    else 2
  }

  // ---------------------------------------------------------------- round trips

  lemma FrameSizeOfEncoded(frame: seq<bv8>, tail: seq<bv8>)
    requires WellFormed(frame)
    ensures var s := frame + tail;
      (s[0] == DATA ==> |s| >= 2 && s[1] as nat <= MAX_DATA_SIZE) && FrameSize(s) == |frame|
  {
  }

  /** Decoding an encoded frame gives the frame and leaves exactly what follows. */
  lemma DecodeEncode(frame: seq<bv8>, rest: seq<bv8>)
    requires WellFormed(frame)
    ensures ParseFrame(Encoded(frame) + rest) == Frame(frame, rest)
  {
    var tail := [Xor(frame)] + rest;
    var s := Encoded(frame) + rest;
    assert s == frame + tail;
    FrameSizeOfEncoded(frame, tail);
    assert s[..|frame|] == frame && s[|frame|] == Xor(frame) && s[|frame| + 1..] == rest;
  }

  /** Whatever decodes successfully re-encodes to the bytes consumed. */
  lemma EncodeDecode(s: seq<bv8>)
    requires ParseFrame(s).Frame?
    ensures WellFormed(ParseFrame(s).frame)
    ensures s == Encoded(ParseFrame(s).frame) + ParseFrame(s).rest
  {
  }

  function EncodedAll(frames: seq<seq<bv8>>): seq<bv8> {
    if frames == [] then [] else Encoded(frames[0]) + EncodedAll(frames[1..])
  }

  /** n frames in a row from the stream, with what is left. */
  function ParseFrames(s: seq<bv8>, n: nat): Option<(seq<seq<bv8>>, seq<bv8>)> {
    if n == 0 then Some(([], s))
    else
      match ParseFrame(s)
      case Frame(f, rest) =>
        (match ParseFrames(rest, n - 1)
         case Some((fs, left)) => Some(([f] + fs, left))
         case None => None)
      case _ => None
  }

  lemma AppendAssociates(a: seq<bv8>, b: seq<bv8>, c: seq<bv8>)
    ensures (a + b) + c == a + (b + c)
  {
  }

  lemma ParseOneMore(f: seq<bv8>, s: seq<bv8>, fs: seq<seq<bv8>>, left: seq<bv8>)
    requires WellFormed(f) && ParseFrames(s, |fs|) == Some((fs, left))
    ensures ParseFrames(Encoded(f) + s, |fs| + 1) == Some(([f] + fs, left))
  {
    DecodeEncode(f, s);
  }

  /** A list of frames survives the concatenation of their encodings, in order. */
  lemma {:induction false} DecodeAllEncodeAll(frames: seq<seq<bv8>>, rest: seq<bv8>)
    requires forall k :: 0 <= k < |frames| ==> WellFormed(frames[k])
    ensures ParseFrames(EncodedAll(frames) + rest, |frames|) == Some((frames, rest))
    decreases |frames|
  {
    if frames == [] {
      assert EncodedAll(frames) + rest == rest;
    } else {
      AppendAssociates(Encoded(frames[0]), EncodedAll(frames[1..]), rest);
      DecodeAllEncodeAll(frames[1..], rest);
      ParseOneMore(frames[0], EncodedAll(frames[1..]) + rest, frames[1..], rest);
      assert [frames[0]] + frames[1..] == frames;
    }
  }

  // ---------------------------------------------------------------- the bytes on the wire

  /** In how many bytes the bit is set. */
  function Count(data: seq<bv8>, bit: bv8): nat {
    if data == [] then 0 else Count(data[..|data| - 1], bit) + if data[|data| - 1] & bit != 0 then 1 else 0
  }

  predicate IsBit(bit: bv8) {
    bit == 1 || bit == 2 || bit == 4 || bit == 8 || bit == 16 || bit == 32 || bit == 64 || bit == 128
  }

  lemma BitOfXor(x: bv8, y: bv8, bit: bv8)
    requires IsBit(bit)
    ensures (x ^ y) & bit != 0 <==> (x & bit != 0) != (y & bit != 0)
  {
  }

  lemma {:induction false} BitIsParity(data: seq<bv8>, bit: bv8)
    requires IsBit(bit)
    ensures Xor(data) & bit != 0 <==> Count(data, bit) % 2 == 1
  {
    if data != [] {
      BitIsParity(data[..|data| - 1], bit);
      BitOfXor(Xor(data[..|data| - 1]), data[|data| - 1], bit);
    }
  }

  /** Each bit of `sum` says whether the bit is set in an odd number of bytes. */
  ghost predicate Parities(data: seq<bv8>, sum: bv8) {
    forall bit: bv8 :: IsBit(bit) ==> (sum & bit != 0 <==> Count(data, bit) % 2 == 1)
  }

  lemma ParitiesDetermine(data: seq<bv8>, x: bv8, y: bv8)
    requires Parities(data, x) && Parities(data, y)
    ensures x == y
  {
    assert IsBit(1) && IsBit(2) && IsBit(4) && IsBit(8) && IsBit(16) && IsBit(32) && IsBit(64) && IsBit(128);
    assert x & 1 == y & 1 && x & 2 == y & 2 && x & 4 == y & 4 && x & 8 == y & 8;
    assert x & 16 == y & 16 && x & 32 == y & 32 && x & 64 == y & 64 && x & 128 == y & 128;
  }

  lemma XorHasParities(data: seq<bv8>)
    ensures Parities(data, Xor(data))
  {
    forall bit: bv8 | IsBit(bit)
      ensures Xor(data) & bit != 0 <==> Count(data, bit) % 2 == 1
    {
      BitIsParity(data, bit);
    }
  }

  /** A byte is the checksum if and only if its bits are the parities of the bytes' bits. */
  lemma ChecksumIsParity(data: seq<bv8>, sum: bv8)
    ensures sum == Xor(data) <==> Parities(data, sum)
  {
    XorHasParities(data);
    if Parities(data, sum) {
      ParitiesDetermine(data, sum, Xor(data));
    }
  }

  /** Heartbeat, status, baud rate, control and data, with their sizes. */
  predicate FrameShape(f: seq<bv8>) {
    || (|f| == 1 && f[0] == 1)
    || (|f| == 2 && f[0] == 2)
    || (|f| == 5 && f[0] == 3)
    || (|f| == 2 && f[0] == 4)
    || (|f| >= 2 && f[0] == 5 && f[1] <= 64 && |f| == 2 + f[1] as nat)
  }

  lemma WellFormedExactlyWhen(f: seq<bv8>)
    ensures WellFormed(f) <==> FrameShape(f)
  {
  }

  /** A frame of any of the five shapes with any byte behind it is that frame or a wrong checksum. */
  lemma FramesOnTheWire(f: seq<bv8>, sum: bv8, rest: seq<bv8>)
    requires FrameShape(f)
    ensures ParseFrame(f + [sum] + rest) == if sum == Xor(f) then Frame(f, rest) else BadChecksum(rest)
  {
    var tail := [sum] + rest;
    AppendAssociates(f, [sum], rest);
    FrameSizeOfEncoded(f, tail);
    assert (f + tail)[..|f|] == f && (f + tail)[|f|] == sum && (f + tail)[|f| + 1..] == rest;
  }

  /** Any shorter beginning of it is incomplete. */
  lemma FrameCutShort(f: seq<bv8>, k: nat)
    requires FrameShape(f) && k <= |f|
    ensures ParseFrame(f[..k]) == Truncated
  {
    assert k >= 1 ==> f[..k][0] == f[0];
    assert k >= 2 ==> f[..k][1] == f[1];
  }

  /** An unknown type costs one byte, a size above 64 costs two. */
  lemma MalformedStarts(t: bv8, size: bv8, rest: seq<bv8>)
    ensures ParseFrame([t] + rest).BadFormat? && ParseFrame([t] + rest).rest == rest <==> t == 0 || t > 5
    ensures size > 64 ==> ParseFrame([5, size] + rest) == BadFormat(rest)
  {
    var s := [t] + rest;
    assert s[0] == t && s[1..] == rest;
    assert ([5, size] + rest)[2..] == rest;
    if t == 5 && |s| >= 2 && s[1] > 64 {
      assert |s[2..]| < |rest|;
    }
  }

  // ---------------------------------------------------------------- error detection

  lemma {:induction false} XorUpdate(data: seq<bv8>, k: nat, b: bv8)
    requires k < |data|
    ensures Xor(data[k := b]) == Xor(data) ^ data[k] ^ b
  {
    var n := |data| - 1;
    var front := data[..n];
    if k == n {
      assert data[k := b][..n] == front;
      XorCancel(Xor(front), data[k], b);
    } else {
      XorUpdate(front, k, b);
      assert data[k := b][..n] == front[k := b];
      XorSwap(Xor(front), data[k], b, data[n]);
    }
  }

  lemma XorCancel(x: bv8, y: bv8, b: bv8)
    ensures x ^ b == (x ^ y) ^ y ^ b
  {
  }

  lemma XorSwap(x: bv8, y: bv8, b: bv8, z: bv8)
    ensures (x ^ y ^ b) ^ z == (x ^ z) ^ y ^ b
  {
  }

  lemma XorDiffers(x: bv8, y: bv8, b: bv8)
    ensures y != b ==> x ^ y ^ b != x
  {
  }

  /** Any single wrong byte other than the type and a data frame's size is caught by the checksum,
      and the decoder is left at the frame boundary. */
  lemma CorruptionIsDetected(frame: seq<bv8>, k: nat, b: bv8, rest: seq<bv8>)
    requires WellFormed(frame) && 0 < k <= |frame| && (frame[0] == DATA ==> k != 1)
    requires b != Encoded(frame)[k]
    ensures ParseFrame(Encoded(frame)[k := b] + rest) == BadChecksum(rest)
  {
    var n := |frame|;
    var s := Encoded(frame)[k := b] + rest;
    FrameSizeOfEncoded(frame, [Xor(frame)] + rest);
    var clean := frame + ([Xor(frame)] + rest);
    assert s[0] == clean[0] && (frame[0] == DATA ==> s[1] == clean[1]);
    assert FrameSize(s) == n;
    assert s[n + 1..] == rest;
    if k == n {
      assert s[..n] == frame && s[n] == b;
    } else {
      assert s[..n] == frame[k := b] && s[n] == Xor(frame);
      XorUpdate(frame, k, b);
      XorDiffers(Xor(frame), frame[k], b);
    }
  }
}

/** The decoder and encoder over callbacks. */
module ExpansionCodec {
  import opened ExpansionFrames

  datatype Status = StatusOk | ErrorFormat | ErrorChecksum | ErrorCommunication

  /** The receive callback: it may return any number of bytes up to what it is asked for. A live link
      returns at least one as long as bytes are left; others may time out at any call. */
  class Source {
    var input: seq<bv8>
    const live: bool

    constructor (bytes: seq<bv8>, live: bool)
      ensures input == bytes && this.live == live
    {
      input := bytes;
      this.live := live;
    }

    method Receive(max: nat) returns (got: seq<bv8>)
      modifies this
      ensures |got| <= max && got + input == old(input)
      ensures live && max > 0 && old(input) != [] ==> got != []
    {
      var least := if live && max > 0 && input != [] then 1 else 0;
      var k :| least <= k <= max && k <= |input|;
      got := input[..k];
      input := input[k..];
    }
  }

  /** The send callback: it may take fewer bytes than offered, unless it is a live one. */
  class Sink {
    var output: seq<bv8>
    const live: bool

    constructor (live: bool)
      ensures output == [] && this.live == live
    {
      output := [];
      this.live := live;
    }

    method Send(data: seq<bv8>) returns (taken: nat)
      modifies this
      ensures taken <= |data| && output == old(output) + data[..taken]
      ensures live ==> taken == |data|
    {
      var least := if live then |data| else 0;
      taken :| least <= taken <= |data|;
      output := output + data[..taken];
    }
  }

  method Checksum(data: array<bv8>, size: nat) returns (checksum: bv8)
    requires size <= data.Length
    ensures checksum == Xor(data[..size]) && Parities(data[..size], checksum)
  {
    checksum := 0;
    var i := 0;
    while i < size
      invariant 0 <= i <= size
      invariant checksum == Xor(data[..i])
    {
      assert data[..i + 1][..i] == data[..i];
      checksum := checksum ^ data[i];
      i := i + 1;
    }
    XorHasParities(data[..size]);
  }

  /** The outcome that a stream's meaning calls for. */
  ghost predicate Matches(status: Status, frame: seq<bv8>, left: seq<bv8>, p: Parse)
  {
    match p
    case Frame(f, rest) => status == StatusOk && |f| <= |frame| && frame[..|f|] == f && left == rest
    case BadFormat(rest) => status == ErrorFormat && left == rest
    case BadChecksum(rest) => status == ErrorChecksum && left == rest
    case Truncated => status == ErrorCommunication && left == []
  }

  /** Writes received bytes at an offset. */
  method Store(frame: array<bv8>, at: nat, got: seq<bv8>)
    requires at + |got| <= frame.Length
    modifies frame
    ensures frame[..at] == old(frame[..at]) && frame[at..at + |got|] == got
    ensures frame[at + |got|..] == old(frame[at + |got|..])
  {
    var k := 0;
    while k < |got|
      invariant 0 <= k <= |got|
      invariant forall j :: 0 <= j < k ==> frame[at + j] == got[j]
      invariant forall j :: 0 <= j < at || at + |got| <= j < frame.Length ==> frame[j] == old(frame[j])
    {
      frame[at + k] := got[k];
      k := k + 1;
    }
  }

  /** No more has been received than the frame, as far as it is known, needs. */
  ghost predicate NoOverrun(frame: seq<bv8>, total: nat)
    requires |frame| == FRAME_BYTES
  {
    || total <= 1
    || (HEARTBEAT <= frame[0] <= DATA
        && if frame[0] == DATA then total == 2 || (frame[1] as nat <= MAX_DATA_SIZE && total <= 2 + frame[1] as nat)
           else total <= FrameSize(frame[..1]))
  }

  lemma NextRequestFits(frame: seq<bv8>, total: nat)
    requires |frame| == FRAME_BYTES && total <= FRAME_BYTES && NoOverrun(frame, total)
    ensures RemainingSize(frame, total).Some? ==> total + RemainingSize(frame, total).value <= FRAME_BYTES
    ensures RemainingSize(frame, total) == Some(0) ==>
      && 1 <= total && HEARTBEAT <= frame[0] <= DATA && (frame[0] == DATA ==> frame[1] as nat <= MAX_DATA_SIZE)
      && total == FrameSize(frame)
    ensures RemainingSize(frame, total) == None ==>
      && total >= 1
      && (HEARTBEAT <= frame[0] <= DATA ==> frame[0] == DATA && total == 2 && frame[1] as nat > MAX_DATA_SIZE)
    ensures RemainingSize(frame, total) == None && !(HEARTBEAT <= frame[0] <= DATA) ==> total == 1
  {
  }

  lemma StillNoOverrun(before: seq<bv8>, after: seq<bv8>, total: nat, more: nat)
    requires |before| == |after| == FRAME_BYTES && total <= FRAME_BYTES && NoOverrun(before, total)
    requires RemainingSize(before, total).Some? && 0 < more <= RemainingSize(before, total).value
    requires after[..total] == before[..total]
    ensures total + more <= FRAME_BYTES && NoOverrun(after, total + more)
  {
  }

  /** Receives and decodes one frame. On a live link the result is what the grammar says, for every
      choice of chunk sizes; on any link it is that or a communication error. Bytes of the frame
      buffer that the frame does not reach keep their value. */
  method Decode(frame: array<bv8>, link: Source) returns (status: Status)
    requires frame.Length == FRAME_BYTES
    modifies frame, link
    ensures link.live || status != ErrorCommunication ==>
      Matches(status, frame[..], link.input, ParseFrame(old(link.input)))
    ensures status == StatusOk ==>
      var n := |ParseFrame(old(link.input)).frame|;
      frame[n..] == old(frame[n..]) && |old(link.input)| == n + 1 + |link.input|
  {
    ghost var stream := link.input;
    var total := 0;
    while true
      invariant 0 <= total <= FRAME_BYTES && NoOverrun(frame[..], total)
      invariant stream == frame[..total] + link.input
      invariant frame[total..] == old(frame[total..])
      decreases FRAME_BYTES - total
    {
      var remaining := RemainingSize(frame[..], total);
      NextRequestFits(frame[..], total);
      if remaining == None {
        FormatErrorMatches(stream, frame[..], total, link.input);
        return ErrorFormat;
      } else if remaining.value == 0 {
        status := Finish(frame, total, link);
        return;
      }
      var got := ReceivePart(frame, total, remaining.value, link);
      if got == 0 {
        TruncatedHere(stream, frame[..], total, link.input);
        return ErrorCommunication;
      }
      total := total + got;
    }
  }

  lemma StoredBetween(before: seq<bv8>, after: seq<bv8>, at: nat, got: seq<bv8>, left: seq<bv8>)
    requires at + |got| <= |before| == |after|
    requires after[..at] == before[..at] && after[at..at + |got|] == got
    requires after[at + |got|..] == before[at + |got|..]
    ensures after[..at + |got|] == before[..at] + got
    ensures after[at + |got|..] == before[at..][|got|..]
    ensures after[..at + |got|] + left == before[..at] + (got + left)
  {
  }

  /** One call of the receive callback into the frame buffer. */
  method ReceivePart(frame: array<bv8>, total: nat, want: nat, link: Source) returns (got: nat)
    requires frame.Length == FRAME_BYTES && total <= FRAME_BYTES && NoOverrun(frame[..], total)
    requires RemainingSize(frame[..], total) == Some(want) && want > 0
    modifies frame, link
    ensures total + got <= FRAME_BYTES && NoOverrun(frame[..], total + got)
    ensures frame[..total + got] + link.input == old(frame[..total] + link.input)
    ensures frame[total + got..] == old(frame[total..])[got..]
    ensures got == 0 ==> frame[..] == old(frame[..]) && (link.live ==> link.input == [])
  {
    ghost var before := frame[..];
    NextRequestFits(before, total);
    var bytes := link.Receive(want);
    got := |bytes|;
    if got == 0 {
      return;
    }
    Store(frame, total, bytes);
    ghost var after := frame[..];
    StoredBetween(before, after, total, bytes, link.input);
    StillNoOverrun(before, after, total, got);
  }

  /** The frame is complete: receive its checksum byte and compare. */
  method Finish(frame: array<bv8>, total: nat, link: Source) returns (status: Status)
    requires frame.Length == FRAME_BYTES && total <= FRAME_BYTES && NoOverrun(frame[..], total)
    requires RemainingSize(frame[..], total) == Some(0)
    modifies link
    ensures var stream := frame[..total] + old(link.input);
      && (link.live || status != ErrorCommunication ==> Matches(status, frame[..], link.input, ParseFrame(stream)))
      && (status == StatusOk ==>
            ParseFrame(stream) == Frame(frame[..total], link.input) && |old(link.input)| == 1 + |link.input|)
  {
    CompleteFrame(frame[..total] + link.input, frame[..], total, link.input);
    var got := link.Receive(1);
    if |got| != 1 {
      return ErrorCommunication;
    }
    var sum := Checksum(frame, total);
    if got[0] != sum {
      return ErrorChecksum;
    }
    return StatusOk;
  }

  lemma FormatErrorMatches(stream: seq<bv8>, frame: seq<bv8>, total: nat, left: seq<bv8>)
    requires |frame| == FRAME_BYTES && total <= FRAME_BYTES && NoOverrun(frame, total)
    requires stream == frame[..total] + left && RemainingSize(frame, total) == None
    ensures ParseFrame(stream) == BadFormat(left)
  {
  }

  lemma TruncatedHere(stream: seq<bv8>, frame: seq<bv8>, total: nat, left: seq<bv8>)
    requires |frame| == FRAME_BYTES && total <= FRAME_BYTES && NoOverrun(frame, total)
    requires stream == frame[..total] + left
    requires RemainingSize(frame, total).Some? && RemainingSize(frame, total).value > 0
    ensures left == [] ==> ParseFrame(stream) == Truncated
  {
  }

  lemma CompleteFrame(stream: seq<bv8>, frame: seq<bv8>, n: nat, left: seq<bv8>)
    requires |frame| == FRAME_BYTES && n <= FRAME_BYTES && NoOverrun(frame, n)
    requires stream == frame[..n] + left && RemainingSize(frame, n) == Some(0)
    ensures ParseFrame(stream) ==
      if left == [] then Truncated
      else if left[0] == Xor(frame[..n]) then Frame(frame[..n], left[1..])
      else BadChecksum(left[1..])
  {
    NextRequestFits(frame, n);
    assert stream[0] == frame[0] && (frame[0] == DATA ==> n >= 2 && stream[1] == frame[1]);
    assert FrameSize(stream) == n;
    SplitBehind(frame[..n], left);
  }

  lemma SplitBehind(front: seq<bv8>, left: seq<bv8>)
    ensures (front + left)[..|front|] == front
    ensures left != [] ==> (front + left)[|front|] == left[0] && (front + left)[|front| + 1..] == left[1..]
  {
  }

  /** Encodes and sends a frame. Success sends exactly the encoding; failure sends a proper prefix of
      it or, for an unknown type, nothing. `beyond` marks a data frame whose size exceeds what a frame
      holds, which the code does not check: what it reads past the frame is left undefined. */
  method Encode(frame: array<bv8>, sink: Sink) returns (status: Status, beyond: bool)
    requires frame.Length == FRAME_BYTES
    modifies sink
    ensures beyond <==> frame[0] == DATA && frame[1] as nat > MAX_DATA_SIZE
    ensures !beyond ==> (status == ErrorFormat <==> !(HEARTBEAT <= frame[0] <= DATA))
    ensures !beyond && status == ErrorFormat ==> sink.output == old(sink.output)
    ensures !beyond && status == StatusOk ==>
      && WellFormed(frame[..EncodedSize(frame[..])])
      && sink.output == old(sink.output) + Encoded(frame[..EncodedSize(frame[..])])
    ensures !beyond && status == ErrorCommunication ==>
      exists k :: 0 <= k < |Encoded(frame[..EncodedSize(frame[..])])|
        && sink.output == old(sink.output) + Encoded(frame[..EncodedSize(frame[..])])[..k]
    ensures !beyond ==> status != ErrorChecksum && (sink.live ==> status != ErrorCommunication)
  {
    var size := EncodedSize(frame[..]);
    KnownType(frame[..]);
    if size == 0 {
      return ErrorFormat, false;
    }
    if size > FRAME_BYTES {
      return StatusOk, true;
    }
    var sum := Checksum(frame, size);
    ghost var whole := Encoded(frame[..size]);
    var taken := sink.Send(frame[..size]);
    assert frame[..size][..taken] == whole[..taken];
    if taken != size {
      return ErrorCommunication, false;
    }
    var taken1 := sink.Send([sum]);
    if taken1 != 1 {
      assert sink.output == old(sink.output) + whole[..size];
      return ErrorCommunication, false;
    }
    return StatusOk, false;
  }

  lemma EncodedSizeOfPrefix(buf: seq<bv8>, f: seq<bv8>)
    requires |buf| == FRAME_BYTES && WellFormed(f) && |f| <= |buf| && buf[..|f|] == f
    ensures EncodedSize(buf) == |f|
  {
  }

  /** A receiver that decodes n times in a row over a live link carrying n encoded frames obtains
      those frames in order, however the link cuts the stream, and stops exactly behind the last. */
  method DecodeAll(frame: array<bv8>, link: Source, n: nat, ghost frames: seq<seq<bv8>>, ghost rest: seq<bv8>)
    returns (decoded: seq<seq<bv8>>)
    requires frame.Length == FRAME_BYTES && link.live && n == |frames|
    requires forall k :: 0 <= k < n ==> WellFormed(frames[k])
    requires link.input == EncodedAll(frames) + rest
    modifies frame, link
    ensures decoded == frames && link.input == rest
  {
    decoded := [];
    var k := 0;
    while k < n
      invariant 0 <= k <= n && decoded == frames[..k]
      invariant link.input == EncodedAll(frames[k..]) + rest
    {
      ghost var f, tail := frames[k], EncodedAll(frames[k + 1..]) + rest;
      assert frames[k..][1..] == frames[k + 1..];
      AppendAssociates(Encoded(f), EncodedAll(frames[k + 1..]), rest);
      DecodeEncode(f, tail);
      var status := Decode(frame, link);
      assert status == StatusOk;
      EncodedSizeOfPrefix(frame[..], f);
      decoded := decoded + [frame[..EncodedSize(frame[..])]];
      k := k + 1;
    }
  }

  lemma KnownType(frame: seq<bv8>)
    requires |frame| == FRAME_BYTES
    ensures EncodedSize(frame) == 0 <==> !(HEARTBEAT <= frame[0] <= DATA)
    ensures EncodedSize(frame) > FRAME_BYTES <==> frame[0] == DATA && frame[1] as nat > MAX_DATA_SIZE
    ensures 0 < EncodedSize(frame) <= FRAME_BYTES ==> WellFormed(frame[..EncodedSize(frame)])
  {
  }
}
