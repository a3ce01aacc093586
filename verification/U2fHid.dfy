/** U2F HID transport: the stateful receiver and the sender, as pure functions over reports. */
module HidProtocol {

  type byte = x: int | 0 <= x < 256

  const PACKET_LEN := 64
  const MAX_PAYLOAD_LEN := (PACKET_LEN - 7) + 128 * (PACKET_LEN - 5)

  const PING: byte := 0x81
  const MSG: byte := 0x83
  const LOCK: byte := 0x84
  const INIT: byte := 0x86
  const WINK: byte := 0x88
  const ERROR: byte := 0xbf
  const ERR_INVALID_CMD: byte := 0x01

  const BROADCAST_CID: seq<byte> := [255, 255, 255, 255]

  /** One report as the USB driver hands it over, with the values that the outside world supplies if
      this report completes a request: the random channel id and the token's reply to a message. */
  datatype AnyInput = Input(report: seq<byte>, randomCid: seq<byte>, reply: seq<byte>)

  type Input = i: AnyInput | |i.report| <= PACKET_LEN && |i.randomCid| == 4 && |i.reply| <= MAX_PAYLOAD_LEN
    witness Input([], [0, 0, 0, 0], [])

  /** The fields of `U2fHid` and the worker's report buffer. A channel id is kept as its four bytes,
      since it is only copied and compared. */
  datatype State = State(
    seqIdLast: byte, reqBufPtr: nat, reqLenLeft: nat,
    lock: bool, lockCid: seq<byte>,
    cid: seq<byte>, len: nat, cmd: byte, payload: seq<byte>,
    packetBuf: seq<byte>)

  predicate Sized(s: State) {
    |s.cid| == 4 && |s.lockCid| == 4 && |s.payload| == MAX_PAYLOAD_LEN && |s.packetBuf| == PACKET_LEN
    && s.len <= 0xffff
  }

  /** While a request is pending, what has arrived and what is missing add up to its length. */
  predicate Pending(s: State) {
    s.reqLenLeft > 0
  }

  predicate Invariant(s: State) {
    Sized(s) && (Pending(s) ==> s.reqBufPtr + s.reqLenLeft == s.len <= MAX_PAYLOAD_LEN)
  }

  datatype Message = Message(cid: seq<byte>, cmd: byte, data: seq<byte>)

  /** What one report leads to. `Overrun` is the one case the C program leaves undefined: an echo
      whose length field exceeds the payload buffer. */
  datatype Outcome =
    | Ignored
    | Dispatched(request: Message, responses: seq<seq<byte>>, timer: nat)
    | Overrun

  /** An empty wink request was handled. */
  predicate Winking(o: Outcome) {
    o.Dispatched? && o.request.cmd == WINK && o.request.data == []
  }

  function Min(a: nat, b: nat): nat { if a < b then a else b }

  /** `data` written over `buf` at offset `at`. */
  function Splice(buf: seq<byte>, at: nat, data: seq<byte>): (r: seq<byte>)
    requires at + |data| <= |buf|
    ensures |r| == |buf|
  {
    buf[..at] + data + buf[at + |data|..]
  }

  // ---------------------------------------------------------------- sender

  function Zeros(n: nat): (z: seq<byte>)
    ensures |z| == n
  {
    seq(n, _ => 0)
  }

  function InitReport(cid: seq<byte>, cmd: byte, data: seq<byte>): (r: seq<byte>)
    requires |cid| == 4 && |data| <= MAX_PAYLOAD_LEN
    ensures |r| == PACKET_LEN
  {
    var n := Min(|data|, PACKET_LEN - 7);
    cid + [cmd, |data| / 256, |data| % 256] + data[..n] + Zeros(PACKET_LEN - 7 - n)
  }

  function ContReport(cid: seq<byte>, seqId: byte, chunk: seq<byte>): (r: seq<byte>)
    requires |cid| == 4 && |chunk| <= PACKET_LEN - 5
    ensures |r| == PACKET_LEN
  {
    cid + [seqId] + chunk + Zeros(PACKET_LEN - 5 - |chunk|)
  }

  /** Continuation reports for the rest of a message. */
  function ContReports(cid: seq<byte>, seqId: byte, rest: seq<byte>): (rs: seq<seq<byte>>)
    requires |cid| == 4
    decreases |rest|
  {
    if rest == [] then []
    else
      var n := Min(|rest|, PACKET_LEN - 5);
      [ContReport(cid, seqId, rest[..n])] + ContReports(cid, (seqId + 1) % 256, rest[n..])
  }

  /** The reports of a message. */
  function Reports(cid: seq<byte>, cmd: byte, data: seq<byte>): (rs: seq<seq<byte>>)
    requires |cid| == 4 && |data| <= MAX_PAYLOAD_LEN
    ensures |rs| > 0
  {
    [InitReport(cid, cmd, data)] + ContReports(cid, 0, data[Min(|data|, PACKET_LEN - 7)..])
  }

  // ---------------------------------------------------------------- dispatch

  function InitReply(s: State, randomCid: seq<byte>): seq<byte>
    requires Sized(s) && |randomCid| == 4
  {
    s.payload[..8] + randomCid + [2, 1, 0, 1, 1]
  }

  /** Handles the request in the packet: the new state, the answer to send back if there is one, and
      the lock timer started, in milliseconds. */
  datatype Handling = Handled(state: State, answer: bool, timer: nat) | Refused(state: State)

  function HandleRequest(s: State, i: Input): (h: Handling)
    requires Sized(s)
    ensures Sized(h.state)
    ensures h.Handled? && h.answer && s.cmd != PING ==> h.state.len <= MAX_PAYLOAD_LEN
  {
    if s.cmd == PING then Handled(s, true, 0)
    else if s.cmd == MSG then
      if s.lock && s.cid != s.lockCid then Refused(s)
      else if i.reply == [] then Refused(s)
      else Handled(s.(len := |i.reply|, payload := Splice(s.payload, 0, i.reply)), true, 0)
    else if s.cmd == LOCK then
      if s.len != 1 then Refused(s)
      else if s.payload[0] == 0 then Handled(s.(lock := false, lockCid := [0, 0, 0, 0]), false, 0)
      else Handled(s.(lock := true, lockCid := s.cid), false, s.payload[0] as nat * 1000)
    else if s.cmd == INIT then
      if s.len != 8 || s.cid != BROADCAST_CID || s.lock then Refused(s)
      else Handled(s.(len := 17, payload := Splice(s.payload, 0, InitReply(s, i.randomCid))), true, 0)
    else if s.cmd == WINK then
      if s.len != 0 then Refused(s) else Handled(s, true, 0)
    else Refused(s)
  }

  datatype Step = Step(state: State, outcome: Outcome)

  /** A request is complete: handle it and answer, or answer with an error. */
  function Dispatch(s: State, i: Input): (t: Step)
    requires Sized(s)
    ensures Sized(t.state) && t.state.reqLenLeft == s.reqLenLeft
  {
    var request := Message(s.cid, s.cmd, s.payload[..Min(s.len, MAX_PAYLOAD_LEN)]);
    match HandleRequest(s, i)
    case Handled(t, answer, timer) =>
      if answer && t.len > MAX_PAYLOAD_LEN then Step(s, Overrun)
      else Step(t, Dispatched(request, if answer then Reports(t.cid, t.cmd, t.payload[..t.len]) else [], timer))
    case Refused(t) =>
      var e := t.(len := 1, cmd := ERROR, payload := Splice(t.payload, 0, [ERR_INVALID_CMD]));
      Step(e, Dispatched(request, Reports(e.cid, ERROR, [ERR_INVALID_CMD]), 0))
  }

  // ---------------------------------------------------------------- receiver

  predicate IsInit(b: byte) {
    b >= 0x80
  }

  /** The state after the request branch of the worker has stored a non-empty report of length n, and
      whether the report was well-formed enough to go on. */
  function Accept(s: State, n: nat): (r: (State, bool))
    requires Sized(s) && 0 < n <= PACKET_LEN
    requires Invariant(s)
    ensures Invariant(r.0)
    ensures r.0.packetBuf == s.packetBuf
  {
    var p := s.packetBuf;
    if IsInit(p[4]) then
      if n < 7 then (s.(reqLenLeft := 0), false)
      else
        var len: nat := p[5] as int * 256 + p[6] as int;
        if len > MAX_PAYLOAD_LEN then (s.(len := len, reqLenLeft := 0), false)
        else
          var chunk := Min(len, n - 7);
          (s.(len := len, reqLenLeft := len - chunk, cid := p[..4], cmd := p[4], seqIdLast := 0,
              reqBufPtr := chunk, payload := Splice(s.payload, 0, p[7..7 + chunk])), true)
    else
      if n < 5 then (s.(reqLenLeft := 0), false)
      else if s.reqLenLeft > 0 && p[..4] == s.cid && p[4] == s.seqIdLast then
        var chunk := Min(s.reqLenLeft, n - 5);
        (s.(reqLenLeft := s.reqLenLeft - chunk, payload := Splice(s.payload, s.reqBufPtr, p[5..5 + chunk]),
            reqBufPtr := s.reqBufPtr + chunk, seqIdLast := (s.seqIdLast + 1) % 256), true)
      else (s, true)
  }

  /** One report through the worker. The driver writes it over the front of the report buffer. */
  function Receive(s: State, i: Input): (t: Step)
    requires Invariant(s)
    ensures Invariant(t.state)
  {
    if i.report == [] then Step(s, Ignored)
    else
      var (a, ok) := Accept(s.(packetBuf := Splice(s.packetBuf, 0, i.report)), |i.report|);
      if ok && a.reqLenLeft == 0 then Dispatch(a, i) else Step(a, Ignored)
  }

  /** The outcomes of a run, report by report. */
  function Outcomes(s: State, inputs: seq<Input>): (os: seq<Outcome>)
    requires Invariant(s)
    ensures |os| == |inputs|
    decreases |inputs|
  {
    if inputs == [] then []
    else
      var t := Receive(s, inputs[0]);
      [t.outcome] + Outcomes(t.state, inputs[1..])
  }

  function Final(s: State, inputs: seq<Input>): (t: State)
    requires Invariant(s)
    ensures Invariant(t)
    decreases |inputs|
  {
    if inputs == [] then s else Final(Receive(s, inputs[0]).state, inputs[1..])
  }

  /** One turn of the worker's loop: the request branch, if a report has come, and then the unlock branch, if
      the lock timer's flag is seen. */
  datatype Wake = Wake(input: Input, unlock: bool)

  function Unlocked(s: State): State {
    s.(lock := false, lockCid := [0, 0, 0, 0])
  }

  function Woken(s: State, w: Wake): (t: Step)
    requires Invariant(s)
    ensures Invariant(t.state)
  {
    var t := Receive(s, w.input);
    if w.unlock then Step(Unlocked(t.state), t.outcome) else t
  }

  function WakeOutcomes(s: State, wakes: seq<Wake>): (os: seq<Outcome>)
    requires Invariant(s)
    ensures |os| == |wakes|
    decreases |wakes|
  {
    if wakes == [] then []
    else
      var t := Woken(s, wakes[0]);
      [t.outcome] + WakeOutcomes(t.state, wakes[1..])
  }

  function WakeFinal(s: State, wakes: seq<Wake>): (t: State)
    requires Invariant(s)
    ensures Invariant(t)
    decreases |wakes|
  {
    if wakes == [] then s else WakeFinal(Woken(s, wakes[0]).state, wakes[1..])
  }

  /** malloc zeroes the object; the report buffer on the worker's stack holds anything. */
  function Initial(stack: seq<byte>): (s: State)
    requires |stack| == PACKET_LEN
    ensures Invariant(s)
  {
    State(0, 0, 0, false, [0, 0, 0, 0], [0, 0, 0, 0], 0, 0, Zeros(MAX_PAYLOAD_LEN), stack)
  }
}

/** What the transport guarantees. */
module HidTheorems {
  import opened HidProtocol

  // ---------------------------------------------------------------- sender shape

  /** 7609 payload bytes need 128 continuations, so a sequence byte never looks like a command. */
  lemma {:induction false} ContinuationsNeverLookInit(cid: seq<byte>, seqId: byte, rest: seq<byte>)
    requires |cid| == 4 && |rest| <= (128 - seqId) * (PACKET_LEN - 5)
    ensures |ContReports(cid, seqId, rest)| <= 128 - seqId
    ensures forall k :: 0 <= k < |ContReports(cid, seqId, rest)| ==>
      var r := ContReports(cid, seqId, rest)[k];
      |r| == PACKET_LEN && r[..4] == cid && r[4] == seqId + k < 0x80
    decreases |rest|
  {
    if rest != [] {
      var n := Min(|rest|, PACKET_LEN - 5);
      ContinuationsNeverLookInit(cid, (seqId + 1) % 256, rest[n..]);
    }
  }

  lemma SenderNeedsAtMost128Continuations(cid: seq<byte>, cmd: byte, data: seq<byte>)
    requires |cid| == 4 && |data| <= MAX_PAYLOAD_LEN
    ensures |Reports(cid, cmd, data)| <= 129
    ensures |Reports(cid, cmd, data)[0]| == PACKET_LEN
    ensures forall k :: 1 <= k < |Reports(cid, cmd, data)| ==>
      var r := Reports(cid, cmd, data)[k];
      |r| == PACKET_LEN && r[..4] == cid && r[4] == k - 1 && !IsInit(r[4])
  {
    ContinuationsNeverLookInit(cid, 0, data[Min(|data|, PACKET_LEN - 7)..]);
  }

  // ---------------------------------------------------------------- round trip

  /** A continuation report that the receiver must skip while it waits for `seqId` on `cid`. */
  predicate Noise(r: seq<byte>, cid: seq<byte>, seqId: byte) {
    5 <= |r| <= PACKET_LEN && !IsInit(r[4]) && (r[..4] != cid || r[4] != seqId)
  }

  /** The inputs carry the reports `sent` in order, with noise before any of them; report k of `sent`
      has sequence number seqId + k. */
  predicate Woven(inputs: seq<Input>, sent: seq<seq<byte>>, cid: seq<byte>, seqId: nat) {
    if sent == [] then inputs == []
    else (inputs != []
          && ((inputs[0].report == sent[0] && Woven(inputs[1..], sent[1..], cid, seqId + 1))
              || (seqId < 256 && Noise(inputs[0].report, cid, seqId) && Woven(inputs[1..], sent, cid, seqId))))
  }

  /** The last outcome dispatches message m and every earlier report is ignored. */
  predicate DispatchedOnce(os: seq<Outcome>, m: Message) {
    if |os| <= 1 then |os| == 1 && os[0].Dispatched? && os[0].request == m
    else os[0] == Ignored && DispatchedOnce(os[1..], m)
  }

  lemma {:induction false} DispatchedOnceByIndex(os: seq<Outcome>, m: Message)
    requires DispatchedOnce(os, m)
    ensures os != [] && os[|os| - 1].Dispatched? && os[|os| - 1].request == m
    ensures forall k :: 0 <= k < |os| - 1 ==> os[k] == Ignored
  {
    if |os| > 1 {
      DispatchedOnceByIndex(os[1..], m);
    }
  }

  /** The receiver is collecting message m and has its first `got` bytes. */
  predicate Collecting(s: State, m: Message, got: nat, seqId: nat) {
    Invariant(s) && s.cid == m.cid && s.cmd == m.cmd && s.len == |m.data| && got < |m.data|
    && s.reqBufPtr == got && s.reqLenLeft == |m.data| - got && s.seqIdLast == seqId
    && s.payload[..got] == m.data[..got]
  }

  lemma SpliceExtends(buf: seq<byte>, at: nat, data: seq<byte>, chunk: seq<byte>)
    requires at + |chunk| <= |buf| && at + |chunk| <= |data|
    requires buf[..at] == data[..at] && chunk == data[at..at + |chunk|]
    ensures Splice(buf, at, chunk)[..at + |chunk|] == data[..at + |chunk|]
  {
  }

  lemma NoiseIsIgnored(s: State, i: Input, m: Message, got: nat, seqId: nat)
    requires Collecting(s, m, got, seqId) && seqId < 256 && Noise(i.report, m.cid, seqId)
    ensures Receive(s, i).outcome == Ignored && Collecting(Receive(s, i).state, m, got, seqId)
  {
  }

  lemma FullReportReplacesBuffer(buf: seq<byte>, r: seq<byte>)
    requires |buf| == |r|
    ensures Splice(buf, 0, r) == r
  {
  }

  lemma ContReportFields(cid: seq<byte>, seqId: byte, chunk: seq<byte>)
    requires |cid| == 4 && |chunk| <= PACKET_LEN - 5
    ensures var r := ContReport(cid, seqId, chunk);
      r[..4] == cid && r[4] == seqId && r[5..5 + |chunk|] == chunk
  {
  }

  /** The expected continuation is taken in; if it is the last one the message is dispatched. */
  lemma ContinuationIsAccepted(s: State, i: Input, m: Message, got: nat, seqId: nat, chunk: seq<byte>)
    requires Collecting(s, m, got, seqId) && seqId < 128
    requires |chunk| == Min(|m.data| - got, PACKET_LEN - 5) && chunk == m.data[got..got + |chunk|]
    requires i.report == ContReport(m.cid, seqId, chunk)
    ensures got + |chunk| < |m.data| ==>
      Receive(s, i).outcome == Ignored && Collecting(Receive(s, i).state, m, got + |chunk|, seqId + 1)
    ensures got + |chunk| == |m.data| ==>
      Receive(s, i).outcome.Dispatched? && Receive(s, i).outcome.request == m
  {
    var n := |chunk|;
    FullReportReplacesBuffer(s.packetBuf, i.report);
    ContReportFields(m.cid, seqId, chunk);
    SpliceExtends(s.payload, got, m.data, chunk);
    var (a, ok) := Accept(s.(packetBuf := i.report), PACKET_LEN);
    assert ok && a.payload[..got + n] == m.data[..got + n] && a.reqBufPtr == got + n;
    if got + n == |m.data| {
      AcceptedMessage(a, m);
    }
  }

  lemma AcceptedMessage(a: State, m: Message)
    requires Sized(a) && a.cid == m.cid && a.cmd == m.cmd && a.len == |m.data| <= MAX_PAYLOAD_LEN
    requires a.payload[..a.len] == m.data[..a.len]
    ensures Message(a.cid, a.cmd, a.payload[..Min(a.len, MAX_PAYLOAD_LEN)]) == m
    ensures forall i: Input :: Dispatch(a, i).outcome.Dispatched? && Dispatch(a, i).outcome.request == m
  {
  }

  /** The head of a woven stream: noise, or the continuation expected next. */
  lemma WovenHead(inputs: seq<Input>, cid: seq<byte>, seqId: byte, rest: seq<byte>)
    returns (noise: bool, left: seq<byte>)
    requires |cid| == 4 && rest != [] && seqId < 128
    requires Woven(inputs, ContReports(cid, seqId, rest), cid, seqId)
    ensures inputs != [] && left == rest[Min(|rest|, PACKET_LEN - 5)..]
    ensures noise ==>
      Noise(inputs[0].report, cid, seqId) && Woven(inputs[1..], ContReports(cid, seqId, rest), cid, seqId)
    ensures !noise ==>
      && inputs[0].report == ContReport(cid, seqId, rest[..Min(|rest|, PACKET_LEN - 5)])
      && Woven(inputs[1..], ContReports(cid, seqId + 1, left), cid, seqId + 1)
      && (left == [] ==> |inputs| == 1)
  {
    left := rest[Min(|rest|, PACKET_LEN - 5)..];
    noise := WovenUnfold(inputs, ContReport(cid, seqId, rest[..Min(|rest|, PACKET_LEN - 5)]),
                         ContReports(cid, seqId + 1, left), cid, seqId);
  }

  lemma WovenUnfold(inputs: seq<Input>, head: seq<byte>, tail: seq<seq<byte>>, cid: seq<byte>, seqId: nat)
    returns (noise: bool)
    requires Woven(inputs, [head] + tail, cid, seqId) && seqId < 256
    ensures inputs != []
    ensures noise ==> Noise(inputs[0].report, cid, seqId) && Woven(inputs[1..], [head] + tail, cid, seqId)
    ensures !noise ==> inputs[0].report == head && Woven(inputs[1..], tail, cid, seqId + 1)
    ensures !noise && tail == [] ==> |inputs| == 1
  {
    assert ([head] + tail)[1..] == tail;
    noise := !(inputs[0].report == head && Woven(inputs[1..], tail, cid, seqId + 1));
  }

  lemma IgnoredFirst(s: State, inputs: seq<Input>, m: Message)
    requires Invariant(s) && inputs != []
    requires Receive(s, inputs[0]).outcome == Ignored
    requires DispatchedOnce(Outcomes(Receive(s, inputs[0]).state, inputs[1..]), m)
    ensures DispatchedOnce(Outcomes(s, inputs), m)
  {
  }

  lemma DispatchedLast(s: State, inputs: seq<Input>, m: Message)
    requires Invariant(s) && |inputs| == 1
    requires Receive(s, inputs[0]).outcome.Dispatched? && Receive(s, inputs[0]).outcome.request == m
    ensures DispatchedOnce(Outcomes(s, inputs), m)
  {
  }

  /** The part of `data` after a prefix, cut once more. */
  lemma CutAgain(data: seq<byte>, got: nat, rest: seq<byte>, n: nat)
    requires got + n <= |data| && rest == data[got..]
    ensures rest[..n] == data[got..got + n] && rest[n..] == data[got + n..]
  {
  }

  lemma ChunkCollected(s: State, i: Input, m: Message, got: nat, seqId: nat, rest: seq<byte>, left: seq<byte>)
    requires |m.cid| == 4 && seqId < 128
    requires Collecting(s, m, got, seqId) && rest == m.data[got..]
    requires var n := Min(|rest|, PACKET_LEN - 5);
      i.report == ContReport(m.cid, seqId, rest[..n]) && left == rest[n..]
    ensures left != [] ==>
      && Receive(s, i).outcome == Ignored
      && Collecting(Receive(s, i).state, m, |m.data| - |left|, seqId + 1)
      && left == m.data[|m.data| - |left|..]
    ensures left == [] ==> Receive(s, i).outcome.Dispatched? && Receive(s, i).outcome.request == m
  {
    var n := Min(|rest|, PACKET_LEN - 5);
    CutAgain(m.data, got, rest, n);
    ContinuationIsAccepted(s, i, m, got, seqId, rest[..n]);
    assert got + n == |m.data| - |left|;
  }

  /** The inputs bring the data `rest` on channel `cid` from sequence number `seqId` on, amid noise. */
  predicate Brings(inputs: seq<Input>, cid: seq<byte>, seqId: nat, rest: seq<byte>)
    requires |cid| == 4
    decreases |inputs|
  {
    && inputs != [] && seqId < 128
    && var left := rest[Min(|rest|, PACKET_LEN - 5)..];
       || (Noise(inputs[0].report, cid, seqId) && Brings(inputs[1..], cid, seqId, rest))
       || (&& inputs[0].report == ContReport(cid, seqId, rest[..Min(|rest|, PACKET_LEN - 5)])
           && if left == [] then |inputs| == 1 else Brings(inputs[1..], cid, seqId + 1, left))
  }

  lemma BringsAfterNoise(inputs: seq<Input>, cid: seq<byte>, seqId: byte, rest: seq<byte>)
    requires |cid| == 4 && seqId < 128 && inputs != []
    requires Noise(inputs[0].report, cid, seqId) && Brings(inputs[1..], cid, seqId, rest)
    ensures Brings(inputs, cid, seqId, rest)
  {
  }

  lemma BringsAfterChunk(inputs: seq<Input>, cid: seq<byte>, seqId: byte, rest: seq<byte>, left: seq<byte>)
    requires |cid| == 4 && seqId < 128 && inputs != []
    requires left == rest[Min(|rest|, PACKET_LEN - 5)..]
    requires inputs[0].report == ContReport(cid, seqId, rest[..Min(|rest|, PACKET_LEN - 5)])
    requires if left == [] then |inputs| == 1 else Brings(inputs[1..], cid, seqId + 1, left)
    ensures Brings(inputs, cid, seqId, rest)
  {
  }

  /** Woven continuation reports do. */
  lemma {:induction false} WovenBrings(inputs: seq<Input>, cid: seq<byte>, seqId: byte, rest: seq<byte>)
    requires |cid| == 4 && rest != [] && seqId < 128 && |rest| <= (128 - seqId) * (PACKET_LEN - 5)
    requires Woven(inputs, ContReports(cid, seqId, rest), cid, seqId)
    ensures Brings(inputs, cid, seqId, rest)
    decreases |inputs|
  {
    var noise, left := WovenHead(inputs, cid, seqId, rest);
    if noise {
      WovenBrings(inputs[1..], cid, seqId, rest);
      BringsAfterNoise(inputs, cid, seqId, rest);
    } else {
      if left != [] {
        WovenBrings(inputs[1..], cid, seqId + 1, left);
      }
      BringsAfterChunk(inputs, cid, seqId, rest, left);
    }
  }

  lemma {:induction false} CollectingRun(s: State, inputs: seq<Input>, m: Message, got: nat, seqId: nat,
                                         rest: seq<byte>)
    requires |m.cid| == 4 && Collecting(s, m, got, seqId) && rest == m.data[got..]
    requires Brings(inputs, m.cid, seqId, rest)
    ensures DispatchedOnce(Outcomes(s, inputs), m)
    decreases |inputs|
  {
    var t := Receive(s, inputs[0]).state;
    if Noise(inputs[0].report, m.cid, seqId) && Brings(inputs[1..], m.cid, seqId, rest) {
      NoiseIsIgnored(s, inputs[0], m, got, seqId);
      CollectingRun(t, inputs[1..], m, got, seqId, rest);
      IgnoredFirst(s, inputs, m);
    } else {
      var left := rest[Min(|rest|, PACKET_LEN - 5)..];
      ChunkCollected(s, inputs[0], m, got, seqId, rest, left);
      if left == [] {
        DispatchedLast(s, inputs, m);
      } else {
        CollectingRun(t, inputs[1..], m, |m.data| - |left|, seqId + 1, left);
        IgnoredFirst(s, inputs, m);
      }
    }
  }

  /** Feeding the worker the reports of a message, from any state and with any skippable
      continuation reports in between, dispatches exactly that message, once, on the last report. */
  lemma {:induction false} RoundTrip(s: State, inputs: seq<Input>, m: Message)
    requires Invariant(s) && inputs != []
    requires |m.cid| == 4 && IsInit(m.cmd) && |m.data| <= MAX_PAYLOAD_LEN
    requires inputs[0].report == Reports(m.cid, m.cmd, m.data)[0]
    requires Woven(inputs[1..], Reports(m.cid, m.cmd, m.data)[1..], m.cid, 0)
    ensures DispatchedOnce(Outcomes(s, inputs), m)
  {
    InitIsAccepted(s, inputs[0], m);
    WovenMessageBrings(inputs, m);
    var n := Min(|m.data|, PACKET_LEN - 7);
    if n == |m.data| {
      DispatchedLast(s, inputs, m);
    } else {
      CollectingRun(Receive(s, inputs[0]).state, inputs[1..], m, n, 0, m.data[n..]);
      IgnoredFirst(s, inputs, m);
    }
  }

  lemma WovenMessageBrings(inputs: seq<Input>, m: Message)
    requires |m.cid| == 4 && |m.data| <= MAX_PAYLOAD_LEN && inputs != []
    requires Woven(inputs[1..], Reports(m.cid, m.cmd, m.data)[1..], m.cid, 0)
    ensures var n := Min(|m.data|, PACKET_LEN - 7);
      if n == |m.data| then |inputs| == 1 else Brings(inputs[1..], m.cid, 0, m.data[n..])
  {
    var n := Min(|m.data|, PACKET_LEN - 7);
    var rest := m.data[n..];
    assert Reports(m.cid, m.cmd, m.data)[1..] == ContReports(m.cid, 0, rest);
    if rest != [] {
      WovenBrings(inputs[1..], m.cid, 0, rest);
    }
  }

  lemma InitReportFields(cid: seq<byte>, cmd: byte, data: seq<byte>)
    requires |cid| == 4 && |data| <= MAX_PAYLOAD_LEN
    ensures var n := Min(|data|, PACKET_LEN - 7);
      var r := InitReport(cid, cmd, data);
      && r[..4] == cid && r[4] == cmd && r[5] as int * 256 + r[6] as int == |data| && r[7..7 + n] == data[..n]
  {
  }

  lemma InitIsAccepted(s: State, i: Input, m: Message)
    requires Invariant(s)
    requires |m.cid| == 4 && IsInit(m.cmd) && |m.data| <= MAX_PAYLOAD_LEN
    requires i.report == InitReport(m.cid, m.cmd, m.data)
    ensures var n := Min(|m.data|, PACKET_LEN - 7);
      if n < |m.data|
      then Receive(s, i).outcome == Ignored && Collecting(Receive(s, i).state, m, n, 0)
      else Receive(s, i).outcome.Dispatched? && Receive(s, i).outcome.request == m
  {
    var n := Min(|m.data|, PACKET_LEN - 7);
    FullReportReplacesBuffer(s.packetBuf, i.report);
    InitReportFields(m.cid, m.cmd, m.data);
    SpliceExtends(s.payload, 0, m.data, m.data[..n]);
    var (a, ok) := Accept(s.(packetBuf := i.report), PACKET_LEN);
    assert ok && a.payload[..n] == m.data[..n] && a.reqBufPtr == n;
    if n == |m.data| {
      AcceptedMessage(a, m);
    }
  }

  // ---------------------------------------------------------------- echo

  lemma {:induction false} PlainIsWoven(inputs: seq<Input>, sent: seq<seq<byte>>, cid: seq<byte>, seqId: nat)
    requires |inputs| == |sent| && forall k :: 0 <= k < |sent| ==> inputs[k].report == sent[k]
    ensures Woven(inputs, sent, cid, seqId)
    decreases |inputs|
  {
    if sent != [] {
      PlainIsWoven(inputs[1..], sent[1..], cid, seqId + 1);
    }
  }

  /** A completed ping is echoed: whoever feeds the responses to a receiver of its own, in whatever
      state, gets the very message that was sent. */
  lemma {:induction false} EchoRoundTrip(s: State, i: Input, peer: State, inputs: seq<Input>, m: Message)
    requires Invariant(s) && Invariant(peer) && m.cmd == PING
    requires Receive(s, i).outcome.Dispatched? && Receive(s, i).outcome.request == m
    requires |inputs| == |Receive(s, i).outcome.responses|
    requires forall k :: 0 <= k < |inputs| ==> inputs[k].report == Receive(s, i).outcome.responses[k]
    ensures DispatchedOnce(Outcomes(peer, inputs), m)
  {
    assert Receive(s, i).outcome.responses == Reports(m.cid, PING, m.data);
    PlainIsWoven(inputs[1..], Reports(m.cid, PING, m.data)[1..], m.cid, 0);
    RoundTrip(peer, inputs, m);
  }

  // ---------------------------------------------------------------- safety

  /** Over every run from start-up, while a request is pending the write cursor and what is missing
      add up to the declared length, which fits the payload buffer. */
  lemma {:induction false} PendingStaysInBounds(stack: seq<byte>, inputs: seq<Input>, s: State)
    requires |stack| == PACKET_LEN && s == Final(Initial(stack), inputs)
    ensures Pending(s) ==> s.reqBufPtr + s.reqLenLeft == s.len <= MAX_PAYLOAD_LEN
    ensures Pending(s) ==> s.reqBufPtr < MAX_PAYLOAD_LEN
  {
  }

  /** This continuation is the one a pending request waits for, and brings all that is missing. */
  predicate Completes(s: State, r: seq<byte>)
    requires |r| >= 5
  {
    r[..4] == s.cid && r[4] == s.seqIdLast && s.reqLenLeft <= |r| - 5
  }

  lemma ReportInFront(buf: seq<byte>, r: seq<byte>, n: nat)
    requires |buf| == PACKET_LEN && 5 <= |r| <= PACKET_LEN
    ensures Splice(buf, 0, r)[4] == r[4] && Splice(buf, 0, r)[..4] == r[..4]
    ensures 5 + n <= |r| ==> Splice(buf, 0, r)[5..5 + n] == r[5..5 + n]
  {
  }

  lemma SpliceAtCursor(buf: seq<byte>, at: nat, chunk: seq<byte>)
    requires at + |chunk| <= |buf|
    ensures Splice(buf, at, chunk)[..at + |chunk|] == buf[..at] + chunk
  {
  }

  lemma PendingContinuation(s: State, i: Input)
    requires Invariant(s) && Pending(s) && |i.report| >= 5 && !IsInit(i.report[4])
    ensures var (a, ok) := Accept(s.(packetBuf := Splice(s.packetBuf, 0, i.report)), |i.report|);
      && ok && (a.reqLenLeft == 0 <==> Completes(s, i.report))
      && (Completes(s, i.report) ==>
            && a.cid == s.cid && a.cmd == s.cmd && a.len == s.len
            && a.payload[..a.len] == s.payload[..s.reqBufPtr] + i.report[5..5 + s.reqLenLeft])
  {
    ReportInFront(s.packetBuf, i.report, s.reqLenLeft);
    if Completes(s, i.report) {
      SpliceAtCursor(s.payload, s.reqBufPtr, i.report[5..5 + s.reqLenLeft]);
    }
  }

  lemma DispatchedRequest(a: State, i: Input)
    requires Sized(a) && a.len <= MAX_PAYLOAD_LEN
    ensures Dispatch(a, i).outcome.Dispatched?
    ensures Dispatch(a, i).outcome.request == Message(a.cid, a.cmd, a.payload[..a.len])
  {
  }

  /** A continuation completes a pending request if and only if it is on its channel, in sequence and
      long enough; the request is then exactly what was collected plus what this report brings. */
  lemma CompletionIsGenuine(s: State, i: Input)
    requires Invariant(s) && Pending(s) && |i.report| >= 5 && !IsInit(i.report[4])
    ensures Receive(s, i).outcome.Dispatched? <==> Completes(s, i.report)
    ensures Completes(s, i.report) ==>
      Receive(s, i).outcome.request == Message(s.cid, s.cmd, s.payload[..s.reqBufPtr] + i.report[5..5 + s.reqLenLeft])
  {
    PendingContinuation(s, i);
    var (a, ok) := Accept(s.(packetBuf := Splice(s.packetBuf, 0, i.report)), |i.report|);
    if Completes(s, i.report) {
      DispatchedRequest(a, i);
    }
  }

  /** Exactly when a report's outcome is outside the model: a continuation with nothing pending while
      the packet holds a ping whose length field was overwritten by an oversized, rejected report. */
  lemma OverrunExactlyWhen(s: State, i: Input)
    requires Invariant(s)
    ensures Receive(s, i).outcome == Overrun <==>
      && |i.report| >= 5 && !IsInit(i.report[4])
      && s.reqLenLeft == 0 && s.cmd == PING && s.len > MAX_PAYLOAD_LEN
  {
    var p := Splice(s.packetBuf, 0, i.report);
    if |i.report| >= 5 {
      assert p[4] == i.report[4];
    }
  }

  /** A seven-byte ping header: an empty one dispatches, an oversized one only changes the length. */
  lemma PingHeader(s: State, i: Input, hi: byte, lo: byte)
    requires Invariant(s) && i.report == [1, 2, 3, 4, PING, hi, lo]
    ensures hi == 0 && lo == 0 ==> Receive(s, i).state.cmd == PING && Receive(s, i).state.reqLenLeft == 0
    ensures hi == 255 ==> Receive(s, i).state == s.(packetBuf := Receive(s, i).state.packetBuf,
                                                    len := 65280 + lo as nat, reqLenLeft := 0)
  {
    var p := Splice(s.packetBuf, 0, i.report);
    assert p[4] == PING && p[5] == hi && p[6] == lo;
    if hi == 0 && lo == 0 {
      var a := Accept(s.(packetBuf := p), 7).0;
      assert a.cmd == PING && a.len == 0 && a.reqLenLeft == 0;
      assert HandleRequest(a, i) == Handled(a, true, 0);
    }
  }

  lemma ThreeOutcomes(s: State, a: Input, b: Input, c: Input)
    requires Invariant(s)
    ensures Outcomes(s, [a, b, c])[2] == Receive(Receive(Receive(s, a).state, b).state, c).outcome
  {
    var s1 := Receive(s, a).state;
    var s2 := Receive(s1, b).state;
    assert [a, b, c][1..] == [b, c] && [b, c][1..] == [c] && [c][1..] == [];
    assert Outcomes(s2, [c]) == [Receive(s2, c).outcome];
    assert Outcomes(s1, [b, c]) == [Receive(s1, b).outcome] + Outcomes(s2, [c]);
  }

  /** It is reachable from every start-up: an empty ping, a report that declares 65535 bytes, and a
      continuation with nothing pending. */
  lemma OverrunIsReachable(stack: seq<byte>) returns (inputs: seq<Input>)
    requires |stack| == PACKET_LEN
    ensures |inputs| == 3 && Outcomes(Initial(stack), inputs)[2] == Overrun
  {
    var a: Input := Input([1, 2, 3, 4, PING, 0, 0], [0, 0, 0, 0], []);
    var b: Input := Input([1, 2, 3, 4, PING, 255, 255], [0, 0, 0, 0], []);
    var c: Input := Input([1, 2, 3, 4, 0], [0, 0, 0, 0], []);
    var s1 := Receive(Initial(stack), a).state;
    PingHeader(Initial(stack), a, 0, 0);
    PingHeader(s1, b, 255, 255);
    OverrunExactlyWhen(Receive(s1, b).state, c);
    ThreeOutcomes(Initial(stack), a, b, c);
    inputs := [a, b, c];
  }

  /** An initialisation report, if it is one, declares a length that fits the payload buffer. */
  predicate Declares(i: Input) {
    |i.report| >= 7 && IsInit(i.report[4]) ==> i.report[5] as int * 256 + i.report[6] as int <= MAX_PAYLOAD_LEN
  }

  lemma AcceptedLength(s: State, i: Input)
    requires Invariant(s) && s.len <= MAX_PAYLOAD_LEN && Declares(i) && i.report != []
    ensures Accept(s.(packetBuf := Splice(s.packetBuf, 0, i.report)), |i.report|).0.len <= MAX_PAYLOAD_LEN
  {
    var p := Splice(s.packetBuf, 0, i.report);
    if |i.report| >= 7 {
      assert p[4] == i.report[4] && p[5] == i.report[5] && p[6] == i.report[6];
    }
  }

  lemma DispatchedLength(a: State, i: Input)
    requires Sized(a) && a.len <= MAX_PAYLOAD_LEN
    ensures Dispatch(a, i).outcome != Overrun && Dispatch(a, i).state.len <= MAX_PAYLOAD_LEN
  {
  }

  lemma LengthStaysInBounds(s: State, i: Input)
    requires Invariant(s) && s.len <= MAX_PAYLOAD_LEN && Declares(i)
    ensures Receive(s, i).outcome != Overrun && Receive(s, i).state.len <= MAX_PAYLOAD_LEN
  {
    if i.report != [] {
      AcceptedLength(s, i);
      DispatchedLength(Accept(s.(packetBuf := Splice(s.packetBuf, 0, i.report)), |i.report|).0, i);
    }
  }

  /** So no run in which every declared length fits ever meets it, pending or not. */
  lemma {:induction false} FittingRunsStayInBounds(s: State, inputs: seq<Input>)
    requires Invariant(s) && s.len <= MAX_PAYLOAD_LEN && forall i <- inputs :: Declares(i)
    ensures forall o <- Outcomes(s, inputs) :: o != Overrun
    decreases |inputs|
  {
    if inputs != [] {
      LengthStaysInBounds(s, inputs[0]);
      FittingRunsStayInBounds(Receive(s, inputs[0]).state, inputs[1..]);
    }
  }

  // ---------------------------------------------------------------- the channel lock

  /** A complete lock request. */
  predicate LockRequest(o: Outcome) {
    o.Dispatched? && o.request.cmd == LOCK && |o.request.data| == 1
  }

  lemma DispatchDecides(a: State, i: Input)
    requires Sized(a)
    ensures var t, m := Dispatch(a, i), Message(a.cid, a.cmd, a.payload[..Min(a.len, MAX_PAYLOAD_LEN)]);
      if LockRequest(t.outcome)
      then
        && t.state.lock == (m.data[0] != 0) && t.state.lockCid == (if m.data[0] != 0 then m.cid else [0, 0, 0, 0])
        && t.outcome == Dispatched(m, [], m.data[0] as nat * 1000)
      else t.state.lock == a.lock && t.state.lockCid == a.lockCid
  {
  }

  lemma DispatchRefuses(a: State, i: Input)
    requires Sized(a) && a.lock
    ensures Refusing(a.lockCid, Dispatch(a, i).outcome)
  {
  }

  /** What one report is: nothing dispatched, or a dispatch after the lock-neutral storing of it. */
  lemma Received(s: State, i: Input) returns (a: State, ok: bool)
    requires Invariant(s)
    ensures Sized(a) && a.lock == s.lock && a.lockCid == s.lockCid
    ensures Receive(s, i) == if ok then Dispatch(a, i) else Step(a, Ignored)
  {
    if i.report == [] {
      a, ok := s, false;
    } else {
      var r := Accept(s.(packetBuf := Splice(s.packetBuf, 0, i.report)), |i.report|);
      a, ok := r.0, r.1 && r.0.reqLenLeft == 0;
    }
  }

  /** A token message on another channel than the lock's is answered with an error. */
  predicate Refusing(lockCid: seq<byte>, o: Outcome) {
    o.Dispatched? && o.request.cmd == MSG && |o.request.cid| == 4 && o.request.cid != lockCid ==>
      o.responses == Reports(o.request.cid, ERROR, [ERR_INVALID_CMD])
  }

  /** Only a complete lock request moves the lock, and it does on whatever channel it comes, whoever
      holds the lock; while the lock holds, other channels are refused. */
  lemma LockStep(s: State, i: Input)
    requires Invariant(s)
    ensures var t := Receive(s, i);
      && (if LockRequest(t.outcome)
          then var m := t.outcome.request;
            && t.state.lock == (m.data[0] != 0) && t.state.lockCid == (if m.data[0] != 0 then m.cid else [0, 0, 0, 0])
            && t.outcome.responses == [] && t.outcome.timer == m.data[0] as nat * 1000
          else t.state.lock == s.lock && t.state.lockCid == s.lockCid)
      && (s.lock ==> Refusing(s.lockCid, t.outcome))
  {
    var a, ok := Received(s, i);
    if ok {
      DispatchDecides(a, i);
      if s.lock {
        DispatchRefuses(a, i);
      }
    }
  }

  /** One wake-up: a report, or none if it is empty, and then the timer's flag if it is seen. */
  lemma WakeMovesLock(s: State, w: Wake)
    requires Invariant(s)
    ensures var t := Woken(s, w);
      && (s.lock ==> Refusing(s.lockCid, t.outcome))
      && (w.unlock ==> !t.state.lock)
      && (!w.unlock && !LockRequest(t.outcome) ==> t.state.lock == s.lock && t.state.lockCid == s.lockCid)
      && (!LockRequest(t.outcome) && !s.lock ==> !t.state.lock)
  {
    LockStep(s, w.input);
  }

  /** Over every run in which no lock request is completed, a lock still holds at the end if and only if no
      wake-up has seen the timer's flag; and then no other channel has got an answer from the token. */
  lemma {:induction false} LockHoldsIff(s: State, wakes: seq<Wake>)
    requires Invariant(s) && forall o <- WakeOutcomes(s, wakes) :: !LockRequest(o)
    ensures WakeFinal(s, wakes).lock <==> s.lock && forall w <- wakes :: !w.unlock
    ensures WakeFinal(s, wakes).lock ==>
      WakeFinal(s, wakes).lockCid == s.lockCid && forall o <- WakeOutcomes(s, wakes) :: Refusing(s.lockCid, o)
    decreases |wakes|
  {
    if wakes != [] {
      var t := Woken(s, wakes[0]);
      var rest, tail := wakes[1..], WakeOutcomes(t.state, wakes[1..]);
      assert WakeOutcomes(s, wakes) == [t.outcome] + tail && wakes == [wakes[0]] + rest;
      assert t.outcome in WakeOutcomes(s, wakes);
      forall o | o in tail
        ensures !LockRequest(o)
      {
        assert o in WakeOutcomes(s, wakes);
      }
      WakeMovesLock(s, wakes[0]);
      LockHoldsIff(t.state, rest);
      assert wakes[0] in wakes;
    }
  }

  // ---------------------------------------------------------------- answers

  /** These inputs carry the answer of an outcome. */
  predicate Carries(inputs: seq<Input>, o: Outcome) {
    o.Dispatched? && |inputs| == |o.responses| && forall k :: 0 <= k < |inputs| ==> inputs[k].report == o.responses[k]
  }

  /** Whoever feeds the answer to a receiver of its own, in whatever state, gets this message, once. */
  ghost predicate Tells(o: Outcome, m: Message) {
    && o.Dispatched?
    && forall peer: State, inputs: seq<Input> ::
         Invariant(peer) && Carries(inputs, o) ==> DispatchedOnce(Outcomes(peer, inputs), m)
  }

  lemma AnswerTells(o: Outcome, m: Message)
    requires o.Dispatched? && |m.cid| == 4 && IsInit(m.cmd) && |m.data| <= MAX_PAYLOAD_LEN
    requires o.responses == Reports(m.cid, m.cmd, m.data)
    ensures Tells(o, m)
  {
    forall peer: State, inputs: seq<Input> | Invariant(peer) && Carries(inputs, o)
      ensures DispatchedOnce(Outcomes(peer, inputs), m)
    {
      PlainIsWoven(inputs[1..], Reports(m.cid, m.cmd, m.data)[1..], m.cid, 0);
      RoundTrip(peer, inputs, m);
    }
  }

  /** The outcome dispatches a request with this command. */
  predicate Asks(o: Outcome, cmd: byte) {
    o.Dispatched? && o.request.cmd == cmd && |o.request.cid| == 4
  }

  lemma DispatchMessage(a: State, i: Input)
    requires Sized(a) && a.cmd == 0x83
    ensures var o := Dispatch(a, i).outcome;
      Asks(o, 0x83) && o.request.cid == a.cid
      && o.responses == if (a.lock && a.cid != a.lockCid) || i.reply == [] then Reports(a.cid, 0xbf, [1])
                        else Reports(a.cid, 0x83, i.reply)
  {
    assert Splice(a.payload, 0, i.reply)[..|i.reply|] == i.reply;
  }

  /** A token message is answered with the token's reply if there is one and no other channel holds the
      lock, and with error 1 otherwise. */
  lemma TokenIsAnswered(s: State, i: Input)
    requires Invariant(s) && Asks(Receive(s, i).outcome, 0x83)
    ensures var o := Receive(s, i).outcome;
      Tells(o, if i.reply != [] && (!s.lock || o.request.cid == s.lockCid) then Message(o.request.cid, 0x83, i.reply)
               else Message(o.request.cid, 0xbf, [1]))
  {
    var a, ok := Received(s, i);
    DispatchMessage(a, i);
    var o := Receive(s, i).outcome;
    AnswerTells(o, if i.reply != [] && (!s.lock || o.request.cid == s.lockCid)
                   then Message(o.request.cid, 0x83, i.reply)
                   else Message(o.request.cid, 0xbf, [1]));
  }

  lemma DispatchInit(a: State, i: Input)
    requires Sized(a) && a.cmd == 0x86
    ensures var o := Dispatch(a, i).outcome;
      Asks(o, 0x86) && o.request.cid == a.cid
      && o.responses == if |o.request.data| == 8 && a.cid == [255, 255, 255, 255] && !a.lock
                        then Reports(a.cid, 0x86, o.request.data + i.randomCid + [2, 1, 0, 1, 1])
                        else Reports(a.cid, 0xbf, [1])
  {
    var reply := InitReply(a, i.randomCid);
    assert |reply| == 17 && Splice(a.payload, 0, reply)[..17] == reply;
  }

  /** Channel initialisation, a nonce of eight bytes on the broadcast channel while nothing is locked, is
      answered with the nonce, the new channel, protocol 2, device version 1.0.1 and the wink capability. */
  lemma InitIsAnswered(s: State, i: Input)
    requires Invariant(s) && Asks(Receive(s, i).outcome, 0x86)
    ensures var o := Receive(s, i).outcome;
      Tells(o, if |o.request.data| == 8 && o.request.cid == [255, 255, 255, 255] && !s.lock
               then Message(o.request.cid, 0x86, o.request.data + i.randomCid + [2, 1, 0, 1, 1])
               else Message(o.request.cid, 0xbf, [1]))
  {
    var a, ok := Received(s, i);
    DispatchInit(a, i);
    var o := Receive(s, i).outcome;
    AnswerTells(o, if |o.request.data| == 8 && o.request.cid == [255, 255, 255, 255] && !s.lock
                   then Message(o.request.cid, 0x86, o.request.data + i.randomCid + [2, 1, 0, 1, 1])
                   else Message(o.request.cid, 0xbf, [1]));
  }

  lemma DispatchOther(a: State, i: Input)
    requires Sized(a) && a.cmd !in {0x81, 0x83, 0x86}
    ensures var o := Dispatch(a, i).outcome;
      Asks(o, a.cmd) && o.request.cid == a.cid
      && o.responses == if a.cmd == 0x88 && o.request.data == [] then Reports(a.cid, 0x88, [])
                        else if a.cmd == 0x84 && |o.request.data| == 1 then []
                        else Reports(a.cid, 0xbf, [1])
  {
  }

  /** An empty wink goes back as it came; a lock request of one byte is not answered at all; any other wink,
      lock request or command is answered with error 1. */
  lemma OthersAreAnswered(s: State, i: Input, cmd: byte)
    requires Invariant(s) && Asks(Receive(s, i).outcome, cmd) && cmd !in {0x81, 0x83, 0x86}
    ensures var o := Receive(s, i).outcome;
      if cmd == 0x84 && |o.request.data| == 1 then o.responses == []
      else Tells(o, if cmd == 0x88 && o.request.data == [] then Message(o.request.cid, 0x88, [])
                    else Message(o.request.cid, 0xbf, [1]))
  {
    var a, ok := Received(s, i);
    DispatchOther(a, i);
    var o := Receive(s, i).outcome;
    if cmd == 0x88 && o.request.data == [] {
      AnswerTells(o, Message(o.request.cid, 0x88, []));
    } else if !(cmd == 0x84 && |o.request.data| == 1) {
      AnswerTells(o, Message(o.request.cid, 0xbf, [1]));
    }
  }

  /** Every message of the protocol's layout arrives, a token message for one: fed as a single report it is
      dispatched as what it says. */
  lemma ShortMessageArrives(s: State, i: Input, m: Message)
    requires Invariant(s) && |m.cid| == 4 && IsInit(m.cmd) && |m.data| <= 57
    requires i.report == m.cid + [m.cmd, 0, |m.data|] + m.data + Zeros(57 - |m.data|)
    ensures Receive(s, i).outcome.Dispatched? && Receive(s, i).outcome.request == m
  {
    assert m.data[..|m.data|] == m.data;
    assert i.report == InitReport(m.cid, m.cmd, m.data);
    InitIsAccepted(s, i, m);
  }

  // ---------------------------------------------------------------- layout and malformed reports

  /** Byte by byte: channel, command, length high byte first, data, zeros up to 64 bytes. */
  lemma InitReportLayout(cid: seq<byte>, cmd: byte, data: seq<byte>)
    requires |cid| == 4 && |data| <= 7609
    ensures var r, n := InitReport(cid, cmd, data), if |data| < 57 then |data| else 57;
      && |r| == 64 && r[..4] == cid && r[4] == cmd && r[5] as int * 256 + r[6] as int == |data|
      && r[7..7 + n] == data[..n] && forall k :: 7 + n <= k < 64 ==> r[k] == 0
  {
  }

  lemma ContReportLayout(cid: seq<byte>, seqId: byte, chunk: seq<byte>)
    requires |cid| == 4 && |chunk| <= 59
    ensures var r := ContReport(cid, seqId, chunk);
      && |r| == 64 && r[..4] == cid && r[4] == seqId
      && r[5..5 + |chunk|] == chunk && forall k :: 5 + |chunk| <= k < 64 ==> r[k] == 0
  {
  }

  /** A report too short for its kind, or declaring more than 7609 bytes, is ignored and gives up whatever
      was pending; an empty one changes nothing. */
  lemma MalformedReports(s: State, i: Input)
    requires Invariant(s)
    ensures i.report == [] ==> Receive(s, i).outcome == Ignored && Receive(s, i).state == s
    ensures 0 < |i.report| < 5 ==> Receive(s, i).outcome == Ignored && !Pending(Receive(s, i).state)
    ensures 5 <= |i.report| < 7 && i.report[4] >= 0x80 ==>
      Receive(s, i).outcome == Ignored && !Pending(Receive(s, i).state)
    ensures |i.report| >= 7 && i.report[4] >= 0x80 && i.report[5] as int * 256 + i.report[6] as int > 7609 ==>
      Receive(s, i).outcome == Ignored && !Pending(Receive(s, i).state)
  {
    if i.report != [] {
      var p := Splice(s.packetBuf, 0, i.report);
      assert |i.report| >= 5 ==> p[4] == i.report[4];
      assert |i.report| >= 7 ==> p[5] == i.report[5] && p[6] == i.report[6];
    }
  }

  /** A continuation with nothing pending handles the packet once more. */
  lemma StrayContinuation(s: State, i: Input)
    requires Invariant(s) && !Pending(s) && |i.report| >= 5 && i.report[4] < 0x80 && s.len <= 7609
    ensures Receive(s, i).outcome.Dispatched?
    ensures Receive(s, i).outcome.request == Message(s.cid, s.cmd, s.payload[..s.len])
  {
    var p := Splice(s.packetBuf, 0, i.report);
    assert p[4] == i.report[4];
    DispatchedRequest(s.(packetBuf := p), i);
  }
}

/** The worker object, its report buffer and its loops. */
module Hid {
  import opened HidProtocol

  /** memcpy of src to dst + at. */
  method Copy(dst: array<byte>, at: nat, src: seq<byte>)
    requires at + |src| <= dst.Length
    modifies dst
    ensures dst[..] == Splice(old(dst[..]), at, src)
  {
    var k := 0;
    while k < |src|
      invariant 0 <= k <= |src|
      invariant forall j :: 0 <= j < k ==> dst[at + j] == src[j]
      invariant forall j :: 0 <= j < at || at + k <= j < dst.Length ==> dst[j] == old(dst[j])
    {
      dst[at + k] := src[k];
      k := k + 1;
    }
  }

  lemma SpliceOverZeros(front: seq<byte>, chunk: seq<byte>, n: nat)
    requires |chunk| <= n
    ensures Splice(front + Zeros(n), |front|, chunk) == front + chunk + Zeros(n - |chunk|)
  {
  }

  /** A chunk of the first n bytes, and what comes after it. */
  lemma CutFrom(buf: seq<byte>, n: nat, at: nat, cur: nat)
    requires at + cur <= n <= |buf|
    ensures buf[at..at + cur] == buf[..n][at..][..cur]
    ensures buf[..n][at..][cur..] == buf[..n][at + cur..]
  {
  }

  lemma NextContReport(sent: seq<seq<byte>>, cid: seq<byte>, seqCnt: byte, rest: seq<byte>, n: nat)
    requires |cid| == 4 && rest != [] && n == Min(|rest|, PACKET_LEN - 5)
    ensures sent + [ContReport(cid, seqCnt, rest[..n])] + ContReports(cid, (seqCnt + 1) % 256, rest[n..])
      == sent + ContReports(cid, seqCnt, rest)
  {
  }

  class U2fHid {
    var seqIdLast: byte
    var reqBufPtr: nat
    var reqLenLeft: nat
    var lockCid: seq<byte>
    var lock: bool
    var cid: seq<byte>
    var len: nat
    var cmd: byte
    const payload: array<byte>
    const packetBuf: array<byte>
    var sent: seq<seq<byte>>   // reports handed to the USB driver
    var timers: seq<nat>       // lock timer starts, in milliseconds
    var winks: nat             // notifications of the user

    ghost function View(): State
      reads this, payload, packetBuf
    {
      State(seqIdLast, reqBufPtr, reqLenLeft, lock, lockCid, cid, len, cmd, payload[..], packetBuf[..])
    }

    ghost predicate Valid()
      reads this, payload, packetBuf
    {
      payload != packetBuf && Invariant(View())
    }

    constructor ()
      ensures Valid() && fresh(payload) && fresh(packetBuf) && sent == [] && timers == [] && winks == 0
      ensures View() == Initial(packetBuf[..])
    {
      payload := new byte[MAX_PAYLOAD_LEN](_ => 0);
      packetBuf := new byte[PACKET_LEN](_ => 0);
      seqIdLast, reqBufPtr, reqLenLeft := 0, 0, 0;
      lockCid, lock := [0, 0, 0, 0], false;
      cid, len, cmd := [0, 0, 0, 0], 0, 0;
      sent, timers, winks := [], [], 0;
      new;
      assert payload[..] == Zeros(MAX_PAYLOAD_LEN);
    }

    method InitialReport() returns (r: seq<byte>)
      requires |cid| == 4 && payload.Length == MAX_PAYLOAD_LEN && len <= MAX_PAYLOAD_LEN
      ensures r == InitReport(cid, cmd, payload[..len])
    {
      var buf := new byte[PACKET_LEN](_ => 0);
      Copy(buf, 0, cid);
      buf[4] := cmd;
      buf[5] := len / 256;
      buf[6] := len % 256;
      assert buf[..] == cid + [cmd, len / 256, len % 256] + Zeros(PACKET_LEN - 7);
      var lenCur := if len < PACKET_LEN - 7 then len else PACKET_LEN - 7;
      var chunk := payload[..lenCur];
      assert chunk == payload[..len][..lenCur];
      Copy(buf, 7, chunk);
      r := buf[..];
      SpliceOverZeros(cid + [cmd, len / 256, len % 256], chunk, PACKET_LEN - 7);
    }

    method ContinuationReport(seqCnt: byte, chunk: seq<byte>) returns (r: seq<byte>)
      requires |cid| == 4 && |chunk| <= PACKET_LEN - 5
      ensures r == ContReport(cid, seqCnt, chunk)
    {
      var buf := new byte[PACKET_LEN](_ => 0);
      Copy(buf, 0, cid);
      buf[4] := seqCnt;
      Copy(buf, 5, chunk);
      r := buf[..];
    }

    /** Splits the packet into reports; the reports still to come are those of the data not yet sent. */
    method SendResponse()
      requires |cid| == 4 && payload.Length == MAX_PAYLOAD_LEN && len <= MAX_PAYLOAD_LEN
      modifies this`sent
      ensures sent == old(sent) + Reports(cid, cmd, payload[..len])
    {
      ghost var data := payload[..len];
      var lenRemain := len;
      var lenCur := if lenRemain < PACKET_LEN - 7 then lenRemain else PACKET_LEN - 7;
      var r := InitialReport();
      sent := sent + [r];
      var dataPtr := lenCur;
      lenRemain := lenRemain - lenCur;
      var seqCnt: byte := 0;
      assert data[..lenCur] == payload[..lenCur];
      while lenRemain > 0
        invariant data == payload[..len]
        invariant 0 <= dataPtr && 0 <= lenRemain && |data| == len && dataPtr + lenRemain == len
        invariant sent + ContReports(cid, seqCnt, data[dataPtr..]) == old(sent) + Reports(cid, cmd, data)
      {
        var cur := if lenRemain < PACKET_LEN - 5 then lenRemain else PACKET_LEN - 5;
        r := ContinuationReport(seqCnt, payload[dataPtr..dataPtr + cur]);
        ghost var rest := data[dataPtr..];
        CutFrom(payload[..], len, dataPtr, cur);
        assert payload[..][..len] == data && payload[..][dataPtr..dataPtr + cur] == payload[dataPtr..dataPtr + cur];
        NextContReport(sent, cid, seqCnt, rest, cur);
        sent := sent + [r];
        seqCnt := (seqCnt + 1) % 256;
        lenRemain := lenRemain - cur;
        dataPtr := dataPtr + cur;
      }
    }

    method SendError(error: byte)
      requires Sized(View())
      modifies this`len, this`cmd, this`sent, payload
      ensures View() == old(View()).(len := 1, cmd := ERROR, payload := Splice(old(payload[..]), 0, [error]),
                                     packetBuf := packetBuf[..])
      ensures sent == old(sent) + Reports(cid, ERROR, [error])
    {
      len := 1;
      cmd := ERROR;
      Copy(payload, 0, [error]);
      assert payload[..1] == [error];
      SendResponse();
    }

    /** After the nonce: the new channel id, protocol and device versions, and the capabilities. */
    method WriteInitReply(randomCid: seq<byte>)
      requires payload.Length == MAX_PAYLOAD_LEN && |randomCid| == 4
      modifies payload
      ensures payload[..] == Splice(old(payload[..]), 0, old(payload[..8]) + randomCid + [2, 1, 0, 1, 1])
    {
      Copy(payload, 8, randomCid);
      payload[12] := 2;
      payload[13] := 1;
      payload[14] := 0;
      payload[15] := 1;
      payload[16] := 1;
    }

    /** Handles a complete request; `overrun` marks the echo that C leaves undefined. */
    method ParseRequest(i: Input) returns (handled: bool, overrun: bool)
      requires Sized(View()) && payload != packetBuf
      modifies this, payload
      ensures handled == HandleRequest(old(View()), i).Handled?
      ensures View() == HandleRequest(old(View()), i).state
      ensures overrun == (handled && HandleRequest(old(View()), i).answer && len > MAX_PAYLOAD_LEN)
      ensures sent == old(sent) + if handled && HandleRequest(old(View()), i).answer && !overrun
                                  then Reports(cid, cmd, payload[..len]) else []
      ensures timers == old(timers) + if handled && HandleRequest(old(View()), i).timer > 0
                                      then [HandleRequest(old(View()), i).timer] else []
      ensures winks == old(winks) + if handled && old(cmd) == WINK then 1 else 0
    {
      handled, overrun := true, false;
      if cmd == PING {
        if len > MAX_PAYLOAD_LEN {
          overrun := true;
          return;
        }
        SendResponse();
      } else if cmd == MSG {
        if lock && cid != lockCid {
          handled := false;
          return;
        }
        if |i.reply| > 0 {
          Copy(payload, 0, i.reply);
          len := |i.reply|;
          SendResponse();
        } else {
          handled := false;
        }
      } else if cmd == LOCK {
        if len != 1 {
          handled := false;
          return;
        }
        var lockTimeout := payload[0];
        if lockTimeout == 0 {
          lock, lockCid := false, [0, 0, 0, 0];
        } else {
          lock, lockCid := true, cid;
          timers := timers + [lockTimeout as nat * 1000];
        }
      } else if cmd == INIT {
        if len != 8 || cid != BROADCAST_CID || lock {
          handled := false;
          return;
        }
        len := 17;
        WriteInitReply(i.randomCid);
        SendResponse();
      } else if cmd == WINK {
        if len != 0 {
          handled := false;
          return;
        }
        winks := winks + 1;
        SendResponse();
      } else {
        handled := false;
      }
    }

    /** Handles the request, or answers with an error. */
    method DispatchRequest(i: Input) returns (overrun: bool)
      requires Sized(View()) && payload != packetBuf
      modifies this, payload
      ensures View() == Dispatch(old(View()), i).state
      ensures match Dispatch(old(View()), i).outcome
        case Ignored => false
        case Overrun => overrun && sent == old(sent) && timers == old(timers)
        case Dispatched(_, responses, timer) =>
          && !overrun && sent == old(sent) + responses
          && timers == old(timers) + if timer > 0 then [timer] else []
      ensures winks == old(winks) + if Winking(Dispatch(old(View()), i).outcome) then 1 else 0
    {
      var handled;
      handled, overrun := ParseRequest(i);
      if !handled {
        SendError(ERR_INVALID_CMD);
      }
    }

    /** The request branch of the worker loop, once per report. */
    method HandleReport(i: Input) returns (dispatched: bool, overrun: bool)
      requires Valid()
      modifies this, payload, packetBuf
      ensures Valid()
      ensures View() == Receive(old(View()), i).state
      ensures match Receive(old(View()), i).outcome
        case Ignored => !dispatched && !overrun && sent == old(sent) && timers == old(timers)
        case Overrun => dispatched && overrun && sent == old(sent) && timers == old(timers)
        case Dispatched(_, responses, timer) =>
          && dispatched && !overrun && sent == old(sent) + responses
          && timers == old(timers) + if timer > 0 then [timer] else []
      ensures winks == old(winks) + if Winking(Receive(old(View()), i).outcome) then 1 else 0
    {
      dispatched, overrun := false, false;
      var lenCur := |i.report|;
      if lenCur == 0 {
        return;
      }
      Copy(packetBuf, 0, i.report);
      assert View() == old(View()).(packetBuf := Splice(old(packetBuf[..]), 0, i.report));
      var ok;
      if packetBuf[4] >= 0x80 {
        ok := StoreInit(lenCur);
      } else {
        ok := StoreContinuation(lenCur);
      }
      if ok && reqLenLeft == 0 {
        dispatched := true;
        overrun := DispatchRequest(i);
      }
    }

    /** One turn of the worker's loop. */
    method Turn(w: Wake) returns (dispatched: bool, overrun: bool)
      requires Valid()
      modifies this, payload, packetBuf
      ensures Valid() && View() == Woken(old(View()), w).state
      ensures dispatched == !Woken(old(View()), w).outcome.Ignored?
      ensures overrun == Woken(old(View()), w).outcome.Overrun?
      ensures sent == old(sent) +
        if Woken(old(View()), w).outcome.Dispatched? then Woken(old(View()), w).outcome.responses else []
    {
      dispatched, overrun := HandleReport(w.input);
      if w.unlock {
        lock, lockCid := false, [0, 0, 0, 0];
      }
    }

    /** An initialisation report; false where the C code breaks out. */
    method StoreInit(n: nat) returns (ok: bool)
      requires Valid() && 0 < n <= PACKET_LEN && packetBuf[4] >= 0x80
      modifies this, payload
      ensures sent == old(sent) && timers == old(timers) && winks == old(winks)
      ensures (View(), ok) == Accept(old(View()), n)
    {
      if n < 7 {
        reqLenLeft := 0;
        return false;
      }
      len := packetBuf[5] as nat * 256 + packetBuf[6] as nat;
      if len > MAX_PAYLOAD_LEN {
        reqLenLeft := 0;
        return false;
      }
      BeginRequest(n - 7);
      return true;
    }

    /** Takes the first chunk of a request whose report carries up to n bytes of it. */
    method BeginRequest(n: nat)
      requires Sized(View()) && payload != packetBuf && len <= MAX_PAYLOAD_LEN && 7 + n <= PACKET_LEN
      modifies this`reqLenLeft, this`cid, this`cmd, this`seqIdLast, this`reqBufPtr, payload
      ensures var p, chunk := packetBuf[..], Min(len, n);
        View() == old(View()).(reqLenLeft := len - chunk, cid := p[..4], cmd := p[4], seqIdLast := 0,
                               reqBufPtr := chunk, payload := Splice(old(payload[..]), 0, p[7..7 + chunk]))
    {
      var lenCur := n;
      if len > lenCur {
        reqLenLeft := len - lenCur;
      } else {
        reqLenLeft := 0;
        lenCur := len;
      }
      cid := packetBuf[..4];
      cmd := packetBuf[4];
      seqIdLast := 0;
      reqBufPtr := lenCur;
      assert packetBuf[..][..4] == packetBuf[..4] && packetBuf[..][7..7 + lenCur] == packetBuf[7..7 + lenCur];
      Copy(payload, 0, packetBuf[7..7 + lenCur]);
    }

    /** A continuation report; false where the C code breaks out. */
    method StoreContinuation(n: nat) returns (ok: bool)
      requires Valid() && 0 < n <= PACKET_LEN && packetBuf[4] < 0x80
      modifies this, payload
      ensures sent == old(sent) && timers == old(timers) && winks == old(winks)
      ensures (View(), ok) == Accept(old(View()), n)
    {
      if n < 5 {
        reqLenLeft := 0;
        return false;
      }
      if reqLenLeft > 0 {
        var cidTemp := packetBuf[..4];
        var seqTemp := packetBuf[4];
        if cidTemp == cid && seqTemp == seqIdLast {
          var lenCur := n - 5;
          if reqLenLeft > lenCur {
            reqLenLeft := reqLenLeft - lenCur;
          } else {
            lenCur := reqLenLeft;
            reqLenLeft := 0;
          }
          Copy(payload, reqBufPtr, packetBuf[5..5 + lenCur]);
          reqBufPtr := reqBufPtr + lenCur;
          seqIdLast := (seqIdLast + 1) % 256;
        }
      }
      return true;
    }
  }
}
