/** How a host reads a sequence of USB bulk packets: a packet shorter than the maximum, possibly
    empty, ends a transfer (USB 2.0, section 5.8.3). */
module UsbTransfers {

  type byte = bv8

  const PKT_LEN := 64

  function Bytes(packets: seq<seq<byte>>): seq<byte> {
    if packets == [] then [] else Bytes(packets[..|packets| - 1]) + packets[|packets| - 1]
  }

  /** What the host has been given in finished transfers. */
  function Completed(packets: seq<seq<byte>>): seq<byte> {
    if packets == [] then []
    else
      var front, p := packets[..|packets| - 1], packets[|packets| - 1];
      if |p| < PKT_LEN then Completed(front) + Open(front) + p else Completed(front)
  }

  /** What it holds back because the transfer has not ended. */
  function Open(packets: seq<seq<byte>>): seq<byte> {
    if packets == [] then []
    else
      var front, p := packets[..|packets| - 1], packets[|packets| - 1];
      if |p| < PKT_LEN then [] else Open(front) + p
  }

  lemma {:induction false} CompletedPlusOpen(packets: seq<seq<byte>>)
    ensures Completed(packets) + Open(packets) == Bytes(packets)
  {
    if packets != [] {
      var front, p := packets[..|packets| - 1], packets[|packets| - 1];
      CompletedPlusOpen(front);
      assert Completed(front) + (Open(front) + p) == (Completed(front) + Open(front)) + p;
    }
  }

  predicate EndsShort(packets: seq<seq<byte>>) {
    packets != [] ==> |packets[|packets| - 1]| < PKT_LEN
  }

  /** The host has everything exactly when the last packet was a short one: for packets of at most
      the maximum size nothing is held back if and only if none is full at the end. */
  lemma NothingHeldBackIff(packets: seq<seq<byte>>)
    ensures Completed(packets) == Bytes(packets) <==> EndsShort(packets)
  {
    CompletedPlusOpen(packets);
    if !EndsShort(packets) {
      assert |Open(packets)| >= PKT_LEN;
    }
  }

  predicate Fit(packets: seq<seq<byte>>) {
    forall k :: 0 <= k < |packets| ==> |packets[k]| <= PKT_LEN
  }

  /** Taking packets from the other end. */
  lemma {:induction false} BytesCons(p: seq<byte>, packets: seq<seq<byte>>)
    ensures Bytes([p] + packets) == p + Bytes(packets)
  {
    if packets == [] {
      assert [p] + packets == [p] && [p][..0] == [];
    } else {
      var n := |packets| - 1;
      BytesCons(p, packets[..n]);
      assert ([p] + packets)[..n + 1] == [p] + packets[..n];
      assert (p + Bytes(packets[..n])) + packets[n] == p + (Bytes(packets[..n]) + packets[n]);
    }
  }
}

/** The virtual serial port service as a function of what happens to it: the shell's pipe on one side,
    the USB endpoint on the other. */
module VcpRuns {
  import opened UsbTransfers

  const VCP_BUF_SIZE := 3 * PKT_LEN

  datatype Event = Connected | Disconnected | TxDone | Rx

  /** Everything that can happen, in any order: the shell, the USB interrupts and the event loop. */
  datatype Happening =
    | ShellWrites(data: seq<byte>)
    | ShellReads(count: nat)
    | TxInterrupt
    | RxInterrupt(packet: seq<byte>)
    | LineInterrupt(active: bool)
    | LoopDataArrived
    | LoopSpaceFreed
    | LoopEvent

  predicate Possible(h: Happening) {
    h.RxInterrupt? ==> |h.packet| <= PKT_LEN
  }

  /** The pipe with its two edge-triggered callbacks. `written`, `delivered` and `shellGot` record what has
      gone through it since it was made, `before` what had been taken off the endpoint until then. */
  datatype Pipe = Pipe(
    toHost: seq<byte>, toShell: seq<byte>, dataArrived: bool, spaceFreed: bool,
    written: seq<byte>, delivered: seq<byte>, shellGot: seq<byte>, before: seq<byte>)

  /** The endpoint. `sent` records the packets of this connection, `wire` all of them, `hostSent` and
      `taken` the bytes that arrived and the bytes taken off. */
  datatype Usb = Usb(
    inFlight: nat, endpoint: seq<seq<byte>>,
    sent: seq<seq<byte>>, wire: seq<seq<byte>>, hostSent: seq<byte>, taken: seq<byte>)

  datatype State = State(
    connected: bool, transmitting: bool, previous: nat, events: seq<Event>, pipe: Pipe, usb: Usb)

  function NewPipe(before: seq<byte>): Pipe {
    Pipe([], [], false, false, [], [], [], before)
  }

  const Start := State(false, false, 0, [], NewPipe([]), Usb(0, [], [], [], [], []))

  function Min(a: nat, b: nat): nat { if a < b then a else b }

  /** The next packet taken out of the pipe and, unless it is empty and no transfer has to be ended
      after a last packet of length `previous`, put on the wire. */
  function Sending(s: State): State {
    if s.transmitting || !s.connected then s
    else
      var n := Min(PKT_LEN, |s.pipe.toHost|);
      var packet, goes := s.pipe.toHost[..n], n > 0 || s.previous == PKT_LEN;
      s.(pipe := s.pipe.(toHost := s.pipe.toHost[n..]), transmitting := goes, previous := n,
         usb := if goes then s.usb.(inFlight := 1, sent := s.usb.sent + [packet], wire := s.usb.wire + [packet])
                else s.usb)
  }

  /** The next packet taken off the endpoint into the pipe, if the pipe has room for any packet. */
  function Receiving(s: State): State {
    if !s.connected || VCP_BUF_SIZE - |s.pipe.toShell| < PKT_LEN || s.usb.endpoint == [] then s
    else
      var packet := s.usb.endpoint[0];
      s.(pipe := s.pipe.(toShell := s.pipe.toShell + packet, delivered := s.pipe.delivered + packet),
         usb := s.usb.(taken := s.usb.taken + packet, endpoint := s.usb.endpoint[1..]))
  }

  /** A new, empty pipe. The length of the last packet is not reset. */
  function Connecting(s: State): State {
    if s.connected then s
    else s.(connected := true, pipe := NewPipe(s.usb.taken), usb := s.usb.(sent := []))
  }

  function Disconnecting(s: State): State {
    if !s.connected then s
    else s.(connected := false, pipe := s.pipe.(dataArrived := false, spaceFreed := false))
  }

  function HandlingEvent(s: State): State {
    if s.events == [] then s
    else
      var rest := s.(events := s.events[1..]);
      match s.events[0]
      case Rx => Receiving(rest)
      case TxDone => Sending(rest)
      case Disconnected => Disconnecting(rest)
      case Connected => Connecting(rest)
  }

  function Next(s: State, h: Happening): State {
    match h
    case ShellWrites(data) =>
      if !s.connected || data == [] || |s.pipe.toHost| + |data| > VCP_BUF_SIZE then s
      else s.(pipe := s.pipe.(toHost := s.pipe.toHost + data, written := s.pipe.written + data, dataArrived := true))
    case ShellReads(count) =>
      if !s.connected || count == 0 || count > |s.pipe.toShell| then s
      else s.(pipe := s.pipe.(toShell := s.pipe.toShell[count..],
                              shellGot := s.pipe.shellGot + s.pipe.toShell[..count], spaceFreed := true))
    case TxInterrupt =>
      if s.usb.inFlight != 1 then s
      else s.(usb := s.usb.(inFlight := 0), transmitting := false, events := s.events + [TxDone])
    case RxInterrupt(packet) =>
      s.(usb := s.usb.(endpoint := s.usb.endpoint + [packet], hostSent := s.usb.hostSent + packet),
         events := s.events + [Rx])
    case LineInterrupt(active) => s.(events := s.events + [if active then Connected else Disconnected])
    case LoopDataArrived => if s.pipe.dataArrived then Sending(s.(pipe := s.pipe.(dataArrived := false))) else s
    case LoopSpaceFreed => if s.pipe.spaceFreed then Receiving(s.(pipe := s.pipe.(spaceFreed := false))) else s
    case LoopEvent => HandlingEvent(s)
  }

  function After(s: State, hs: seq<Happening>): State {
    if hs == [] then s else Next(After(s, hs[..|hs| - 1]), hs[|hs| - 1])
  }

  lemma AfterOneMore(s: State, hs: seq<Happening>, h: Happening)
    ensures After(s, hs + [h]) == Next(After(s, hs), h)
  {
    assert (hs + [h])[..|hs|] == hs;
  }

  // ---------------------------------------------------------------- what every happening keeps

  /** There is a byte to send, or a transfer to end. */
  predicate WorkLeft(s: State) {
    s.pipe.toHost != [] || !EndsShort(s.usb.sent)
  }

  /** Sent and unsent bytes are what the shell wrote; read and unread ones are what was delivered, which
      is what was taken off the endpoint since the pipe was made. */
  predicate PipeOk(p: Pipe, u: Usb) {
    && |p.toHost| <= VCP_BUF_SIZE && |p.toShell| <= VCP_BUF_SIZE
    && Bytes(u.sent) + p.toHost == p.written
    && p.shellGot + p.toShell == p.delivered
    && p.before + p.delivered == u.taken
  }

  predicate UsbOk(u: Usb) {
    && u.inFlight <= 1 && Fit(u.sent) && Fit(u.endpoint)
    && u.taken + Bytes(u.endpoint) == u.hostSent
    && (u.sent != [] ==> u.wire != [] && u.wire[|u.wire| - 1] == u.sent[|u.sent| - 1])
  }

  /** All of Valid but the promise that the service will look at the pipe again by itself. */
  predicate Sane(s: State) {
    && UsbOk(s.usb) && (if s.connected then PipeOk(s.pipe, s.usb) else !s.pipe.dataArrived && !s.pipe.spaceFreed)
    && (s.transmitting <==> s.usb.inFlight == 1)
    && (s.previous == PKT_LEN <==> !EndsShort(s.usb.wire))
  }

  predicate Valid(s: State) {
    Sane(s) && (s.connected && !s.transmitting && WorkLeft(s) ==> TxDone in s.events || s.pipe.dataArrived)
  }

  lemma PacketLeaves(p: Pipe, u: Usb, n: nat)
    requires PipeOk(p, u) && UsbOk(u) && n <= |p.toHost| && n <= PKT_LEN
    ensures var u' := u.(inFlight := 1, sent := u.sent + [p.toHost[..n]], wire := u.wire + [p.toHost[..n]]);
      PipeOk(p.(toHost := p.toHost[n..]), u') && UsbOk(u')
    ensures n == 0 ==> p.toHost[n..] == p.toHost
  {
  }

  lemma SendingKeeps(s: State)
    requires Sane(s)
    ensures Sane(Sending(s)) && (s.connected && !Sending(s).transmitting ==> !WorkLeft(Sending(s)))
  {
    if !s.transmitting && s.connected {
      PacketLeaves(s.pipe, s.usb, Min(PKT_LEN, |s.pipe.toHost|));
    }
  }

  lemma PacketTaken(p: Pipe, u: Usb)
    requires PipeOk(p, u) && UsbOk(u) && u.endpoint != [] && |p.toShell| + PKT_LEN <= VCP_BUF_SIZE
    ensures var packet := u.endpoint[0];
      var u' := u.(taken := u.taken + packet, endpoint := u.endpoint[1..]);
      PipeOk(p.(toShell := p.toShell + packet, delivered := p.delivered + packet), u') && UsbOk(u')
  {
    assert u.endpoint == [u.endpoint[0]] + u.endpoint[1..];
    BytesCons(u.endpoint[0], u.endpoint[1..]);
    assert u.taken + (u.endpoint[0] + Bytes(u.endpoint[1..])) == u.taken + u.endpoint[0] + Bytes(u.endpoint[1..]);
  }

  lemma ReceivingKeeps(s: State)
    requires Sane(s)
    ensures Sane(Receiving(s)) && Receiving(s).transmitting == s.transmitting && Receiving(s).events == s.events
    ensures Receiving(s).pipe.dataArrived == s.pipe.dataArrived && WorkLeft(Receiving(s)) == WorkLeft(s)
  {
    if Receiving(s) != s {
      PacketTaken(s.pipe, s.usb);
    }
  }

  lemma PacketQueued(u: Usb, packet: seq<byte>)
    requires UsbOk(u) && |packet| <= PKT_LEN
    ensures UsbOk(u.(endpoint := u.endpoint + [packet], hostSent := u.hostSent + packet))
  {
  }

  lemma BytesWritten(p: Pipe, u: Usb, data: seq<byte>)
    requires PipeOk(p, u) && |p.toHost| + |data| <= VCP_BUF_SIZE
    ensures PipeOk(p.(toHost := p.toHost + data, written := p.written + data, dataArrived := true), u)
  {
  }

  lemma BytesRead(p: Pipe, u: Usb, n: nat)
    requires PipeOk(p, u) && n <= |p.toShell|
    ensures PipeOk(p.(toShell := p.toShell[n..], shellGot := p.shellGot + p.toShell[..n], spaceFreed := true), u)
  {
  }

  lemma StillQueued(events: seq<Event>, e: Event)
    requires events != []
    ensures events[0] != e && e in events ==> e in events[1..]
    ensures forall x <- events[1..] :: x in events
  {
  }

  lemma EventKeepsValid(s: State)
    requires Valid(s)
    ensures Valid(HandlingEvent(s))
  {
    if s.events != [] {
      var rest := s.(events := s.events[1..]);
      StillQueued(s.events, TxDone);
      match s.events[0]
      case Rx => ReceivingKeeps(rest);
      case TxDone => SendingKeeps(rest);
      case _ =>
    }
  }

  /** Each thing that can happen, in any state. */
  lemma NextKeepsValid(s: State, h: Happening)
    requires Valid(s) && Possible(h)
    ensures Valid(Next(s, h))
  {
    match h
    case ShellWrites(data) =>
      if Next(s, h) != s {
        BytesWritten(s.pipe, s.usb, data);
      }
    case ShellReads(count) =>
      if Next(s, h) != s {
        BytesRead(s.pipe, s.usb, count);
      }
    case RxInterrupt(packet) =>
      PacketQueued(s.usb, packet);
    case LoopDataArrived =>
      if s.pipe.dataArrived {
        SendingKeeps(s.(pipe := s.pipe.(dataArrived := false)));
      }
    case LoopSpaceFreed =>
      if s.pipe.spaceFreed {
        ReceivingKeeps(s.(pipe := s.pipe.(spaceFreed := false)));
      }
    case LoopEvent =>
      EventKeepsValid(s);
    case _ =>
  }

  lemma {:induction false} AfterKeepsValid(s: State, hs: seq<Happening>)
    requires Valid(s) && forall h <- hs :: Possible(h)
    ensures Valid(After(s, hs))
  {
    if hs != [] {
      AfterKeepsValid(s, hs[..|hs| - 1]);
      NextKeepsValid(After(s, hs[..|hs| - 1]), hs[|hs| - 1]);
    }
  }

  // ---------------------------------------------------------------- runs

  /** The bytes that the host sent. */
  function Arrived(hs: seq<Happening>): seq<byte> {
    if hs == [] then []
    else Arrived(hs[..|hs| - 1]) + if hs[|hs| - 1].RxInterrupt? then hs[|hs| - 1].packet else []
  }

  lemma NextHostSent(s: State, h: Happening)
    ensures Next(s, h).usb.hostSent == s.usb.hostSent + if h.RxInterrupt? then h.packet else []
  {
    assert s.usb.hostSent + [] == s.usb.hostSent;
  }

  lemma {:induction false} HostSentArrived(s: State, hs: seq<Happening>)
    ensures After(s, hs).usb.hostSent == s.usb.hostSent + Arrived(hs)
  {
    if hs == [] {
      assert s.usb.hostSent + [] == s.usb.hostSent;
    } else {
      var front, h := hs[..|hs| - 1], hs[|hs| - 1];
      HostSentArrived(s, front);
      NextHostSent(After(s, front), h);
      var came := if h.RxInterrupt? then h.packet else [];
      assert s.usb.hostSent + (Arrived(front) + came) == s.usb.hostSent + Arrived(front) + came;
    }
  }

  /** Over every interleaving from start-up, towards the host: the packets of a connection and the bytes
      still in the pipe are what the shell wrote, and at most one packet is in flight. Towards the shell:
      what the host has sent is, in order, what had been taken before this connection, what the shell
      got, what it may still read, and what waits in the endpoint. */
  lemma RunConserves(hs: seq<Happening>)
    requires forall h <- hs :: Possible(h)
    ensures var s := After(Start, hs);
      && s.usb.inFlight <= 1
      && (s.connected ==> Bytes(s.usb.sent) + s.pipe.toHost == s.pipe.written)
      && (s.connected ==>
            s.pipe.before + s.pipe.shellGot + s.pipe.toShell + Bytes(s.usb.endpoint) == Arrived(hs))
  {
    var s := After(Start, hs);
    AfterKeepsValid(Start, hs);
    HostSentArrived(Start, hs);
    assert [] + Arrived(hs) == Arrived(hs);
    if s.connected {
      var p := s.pipe;
      assert p.before + p.shellGot + p.toShell == p.before + (p.shellGot + p.toShell);
    }
  }

  /** Nothing in flight, nothing queued, nothing announced. */
  predicate Quiet(s: State) {
    s.usb.inFlight == 0 && TxDone !in s.events && !s.pipe.dataArrived
  }

  /** Whenever a connection has come to rest the host has been given all that the shell wrote, in finished
      transfers; if a packet was sent the last one was short. */
  lemma RestIsComplete(s: State)
    requires Valid(s) && s.connected && Quiet(s)
    ensures s.pipe.toHost == [] && Completed(s.usb.sent) == s.pipe.written
    ensures s.usb.sent != [] ==> EndsShort(s.usb.sent) && EndsShort(s.usb.wire)
  {
    NothingHeldBackIff(s.usb.sent);
  }

  // ---------------------------------------------------------------- coming to rest

  /** Bytes still to send, and one for a transfer still to be ended. */
  function Backlog(s: State): nat {
    |s.pipe.toHost| + if s.previous == PKT_LEN then 1 else 0
  }

  /** What goes on by itself once the shell writes nothing and the host sends nothing. */
  predicate Enabled(s: State, h: Happening) {
    match h
    case TxInterrupt => s.usb.inFlight == 1
    case LoopDataArrived => s.pipe.dataArrived
    case LoopSpaceFreed => s.pipe.spaceFreed
    case LoopEvent => s.events != []
    case ShellReads(count) => s.connected && 0 < count <= |s.pipe.toShell|
    case _ => false
  }

  /** A connection with no line change queued. */
  predicate Stable(s: State) {
    Valid(s) && s.connected && Connected !in s.events && Disconnected !in s.events
  }

  function One(b: bool): nat {
    if b then 1 else 0
  }

  /** Each of these steps makes progress, in this order of importance. */
  predicate Closer(t: State, s: State) {
    || Backlog(t) < Backlog(s)
    || (Backlog(t) == Backlog(s)
        && (|| |t.usb.endpoint| < |s.usb.endpoint|
            || (|t.usb.endpoint| == |s.usb.endpoint|
                && (|| t.usb.inFlight < s.usb.inFlight
                    || (t.usb.inFlight == s.usb.inFlight
                        && (|| |t.events| < |s.events|
                            || (|t.events| == |s.events| && Nearer(t.pipe, s.pipe))))))))
  }

  predicate Nearer(q: Pipe, p: Pipe) {
    || |q.toShell| < |p.toShell|
    || (|q.toShell| == |p.toShell| && One(q.dataArrived) + One(q.spaceFreed) < One(p.dataArrived) + One(p.spaceFreed))
  }

  lemma SendingProgress(s: State)
    requires Sane(s)
    ensures Backlog(Sending(s)) < Backlog(s) || (Backlog(Sending(s)) == Backlog(s) && Sending(s).usb == s.usb)
  {
  }

  lemma StaysStable(s: State, h: Happening)
    requires Stable(s) && Enabled(s, h)
    ensures Stable(Next(s, h))
  {
    NextKeepsValid(s, h);
    if h.LoopEvent? {
      StillQueued(s.events, TxDone);
      assert s.events[0] in s.events;
    }
  }

  lemma EventsComeCloser(s: State)
    requires Stable(s) && s.events != []
    ensures Closer(HandlingEvent(s), s)
  {
    assert s.events[0] in s.events;
    SendingProgress(s.(events := s.events[1..]));
  }

  lemma StepsComeCloser(s: State, h: Happening)
    requires Stable(s) && Enabled(s, h)
    ensures Closer(Next(s, h), s)
  {
    match h
    case LoopDataArrived =>
      SendingProgress(s.(pipe := s.pipe.(dataArrived := false)));
    case LoopEvent =>
      EventsComeCloser(s);
    case _ =>
  }

  lemma StepsAddNothing(s: State, h: Happening)
    requires Stable(s) && Enabled(s, h)
    ensures Next(s, h).pipe.written == s.pipe.written && Next(s, h).usb.hostSent == s.usb.hostSent
  {
    if h.LoopEvent? {
      assert s.events[0] in s.events;
    }
  }

  /** Something will make the service look at the endpoint again. */
  predicate Fetchable(s: State) {
    s.pipe.toShell != [] || s.pipe.spaceFreed || Rx in s.events
  }

  predicate NonEmpty(packets: seq<seq<byte>>) {
    forall p <- packets :: p != []
  }

  /** Waiting packets, if none of them is empty, are fetched in the end as long as this holds. */
  lemma StaysFetchable(s: State, h: Happening)
    requires Stable(s) && Enabled(s, h) && NonEmpty(s.usb.endpoint)
    requires s.usb.endpoint == [] || Fetchable(s)
    ensures NonEmpty(Next(s, h).usb.endpoint) && (Next(s, h).usb.endpoint == [] || Fetchable(Next(s, h)))
  {
    if s.usb.endpoint != [] {
      assert s.usb.endpoint[0] in s.usb.endpoint;
      assert forall p <- s.usb.endpoint[1..] :: p in s.usb.endpoint;
    }
    if h.LoopEvent? {
      StillQueued(s.events, Rx);
    }
  }

  /** Once nothing will, nothing changes until the host sends again, whatever else happens: not even a new
      connection looks at the endpoint. */
  lemma StaysStuck(s: State, h: Happening)
    requires !Fetchable(s) && !h.RxInterrupt?
    ensures !Fetchable(Next(s, h)) && Next(s, h).usb.endpoint == s.usb.endpoint
  {
    if h.LoopEvent? && s.events != [] {
      StillQueued(s.events, Rx);
      assert s.events[0] in s.events;
    }
  }

  lemma {:induction false} StuckForGood(s: State, hs: seq<Happening>)
    requires !Fetchable(s) && forall h <- hs :: !h.RxInterrupt?
    ensures !Fetchable(After(s, hs)) && After(s, hs).usb.endpoint == s.usb.endpoint
  {
    if hs != [] {
      StuckForGood(s, hs[..|hs| - 1]);
      StaysStuck(After(s, hs[..|hs| - 1]), hs[|hs| - 1]);
    }
  }

  /** It happens: a packet whose event is handled while disconnected waits in the endpoint of the connection
      that follows. */
  lemma StuckIsReachable(packet: seq<byte>) returns (hs: seq<Happening>)
    requires 0 < |packet| <= PKT_LEN
    ensures forall h <- hs :: Possible(h)
    ensures var s := After(Start, hs); s.connected && s.usb.endpoint == [packet] && !Fetchable(s) && s.events == []
  {
    hs := [RxInterrupt(packet), LoopEvent];
    var more := [LineInterrupt(true), LoopEvent];
    TwoSteps(Start, hs[0], hs[1]);
    var s := After(Start, hs);
    assert s == Start.(usb := s.usb) && s.usb.endpoint == [packet];
    TwoSteps(s, more[0], more[1]);
    AfterBoth(Start, hs, more);
    hs := hs + more;
  }

  lemma TwoSteps(s: State, a: Happening, b: Happening)
    ensures After(s, [a, b]) == Next(Next(s, a), b)
  {
    AfterOneMore(s, [], a);
    AfterOneMore(s, [a], b);
    assert [] + [a] == [a] && [a] + [b] == [a, b];
  }

  lemma {:induction false} AfterBoth(s: State, hs: seq<Happening>, more: seq<Happening>)
    ensures After(s, hs + more) == After(After(s, hs), more)
  {
    if more == [] {
      assert hs + more == hs;
    } else {
      var n := |more| - 1;
      AfterBoth(s, hs, more[..n]);
      assert hs + more == (hs + more[..n]) + [more[n]];
      AfterOneMore(s, hs + more[..n], more[n]);
    }
  }

  // ---------------------------------------------------------------- across connections

  /** A new connection that finds nothing pending is at rest at once. The wire is then at the end of a
      transfer if and only if the length remembered from the last connection is not that of a full
      packet: the code neither resets it nor looks at it until there is something to do. */
  lemma Reconnect(s: State)
    requires Valid(s) && !s.connected && s.events == [Connected] && s.usb.inFlight == 0
    ensures var t := Next(s, LoopEvent);
      t.connected && Quiet(t) && t.usb.sent == [] && t.usb.wire == s.usb.wire
    ensures EndsShort(Next(s, LoopEvent).usb.wire) <==> s.previous != PKT_LEN
  {
  }

  /** One full packet goes out. */
  lemma FullPacketSent(block: seq<byte>) returns (hs: seq<Happening>)
    requires |block| == PKT_LEN
    ensures forall h <- hs :: Possible(h)
    ensures var s := After(Start, hs);
      s.connected && s.transmitting && s.previous == PKT_LEN && s.events == [] && s.usb.inFlight == 1
      && s.usb.wire == [block]
  {
    var a, b := [LineInterrupt(true), LoopEvent], [ShellWrites(block), LoopDataArrived];
    TwoSteps(Start, a[0], a[1]);
    var s := After(Start, a);
    assert s == Start.(connected := true);
    TwoSteps(s, b[0], b[1]);
    assert [] + block == block && block[..PKT_LEN] == block;
    AfterBoth(Start, a, b);
    hs := a + b;
  }

  /** The other case happens: a full packet whose tx-done event is handled while disconnected leaves
      its transfer open across the reconnection. */
  lemma OpenTransferSurvivesReconnect(block: seq<byte>) returns (hs: seq<Happening>)
    requires |block| == PKT_LEN
    ensures forall h <- hs :: Possible(h)
    ensures var s := After(Start, hs); s.connected && Quiet(s) && s.usb.sent == [] && !EndsShort(s.usb.wire)
  {
    hs := FullPacketSent(block);
    var s := After(Start, hs);
    var a, b, c := [LineInterrupt(false), LoopEvent], [TxInterrupt, LoopEvent], [LineInterrupt(true), LoopEvent];
    TwoSteps(s, a[0], a[1]);
    var s1 := After(s, a);
    assert !s1.connected && s1.events == [] && s1.usb == s.usb;
    TwoSteps(s1, b[0], b[1]);
    var s2 := After(s1, b);
    assert !s2.connected && s2.events == [] && s2.usb == s.usb.(inFlight := 0);
    TwoSteps(s2, c[0], c[1]);
    AfterBoth(Start, hs, a);
    AfterBoth(Start, hs + a, b);
    AfterBoth(Start, hs + a + b, c);
    hs := hs + a + b + c;
  }

  // ---------------------------------------------------------------- one thing at a time

  /** A write of the shell is taken whole or not at all: if and only if it is connected and the 192 bytes of
      the pipe have room. It is announced to the service. */
  lemma WriteIsTakenIff(s: State, data: seq<byte>)
    ensures var t := Next(s, ShellWrites(data));
      if s.connected && data != [] && |s.pipe.toHost| + |data| <= 192
      then && t.pipe.toHost == s.pipe.toHost + data && t.pipe.written == s.pipe.written + data && t.pipe.dataArrived
           && t.pipe.toShell == s.pipe.toShell && t.usb == s.usb && t.events == s.events && t.connected
      else t == s
  {
  }

  /** A read of the shell gives the oldest bytes, if there are so many. It is announced too. */
  lemma ReadIsGivenIff(s: State, count: nat)
    ensures var t := Next(s, ShellReads(count));
      if s.connected && 0 < count <= |s.pipe.toShell|
      then && t.pipe.shellGot == s.pipe.shellGot + s.pipe.toShell[..count]
           && s.pipe.toShell[..count] + t.pipe.toShell == s.pipe.toShell && t.pipe.spaceFreed
           && t.pipe.toHost == s.pipe.toHost && t.usb == s.usb && t.events == s.events && t.connected
      else t == s
  {
  }

  /** The packet sent next holds 64 bytes, or all there are; none is sent if there are none, unless the one
      before it was full. */
  lemma NextPacket(s: State)
    requires s.connected && !s.transmitting
    ensures var t, waiting := Sending(s), s.pipe.toHost;
      if waiting == [] && s.previous != 64 then t == s.(previous := 0)
      else exists packet ::
        && waiting == packet + t.pipe.toHost && |packet| == (if |waiting| < 64 then |waiting| else 64)
        && t.usb == s.usb.(inFlight := 1, sent := s.usb.sent + [packet], wire := s.usb.wire + [packet])
        && t.transmitting && t.previous == |packet| && t.connected && t.events == s.events
  {
    var waiting := s.pipe.toHost;
    var n := if |waiting| < 64 then |waiting| else 64;
    assert waiting == waiting[..n] + waiting[n..];
    if waiting == [] {
      assert waiting[n..] == waiting;
    }
  }

  /** While a packet is on its way, or without a connection, none is sent. */
  lemma OnePacketAtATime(s: State)
    requires s.transmitting || !s.connected
    ensures Sending(s) == s
  {
  }

  /** The oldest packet waiting is taken if and only if the shell has left at most 128 of the 192 bytes
      unread. */
  lemma PacketIsTakenIff(s: State)
    ensures var t := Receiving(s);
      if s.connected && |s.pipe.toShell| <= 128 && s.usb.endpoint != []
      then && t.pipe.toShell == s.pipe.toShell + s.usb.endpoint[0] && t.usb.endpoint == s.usb.endpoint[1..]
           && t.usb.taken == s.usb.taken + s.usb.endpoint[0] && t.pipe.toHost == s.pipe.toHost
           && t.usb.wire == s.usb.wire && t.events == s.events && t.connected
      else t == s
  {
  }

  /** Whether the line is active once the queued events have been handled. */
  function Announced(connected: bool, events: seq<Event>): bool {
    if events == [] then connected
    else
      match events[|events| - 1]
      case Connected => true
      case Disconnected => false
      case _ => Announced(connected, events[..|events| - 1])
  }

  /** What the host last said about the line; inactive at first. */
  function LineAfter(hs: seq<Happening>): bool {
    if hs == [] then false
    else if hs[|hs| - 1].LineInterrupt? then hs[|hs| - 1].active
    else LineAfter(hs[..|hs| - 1])
  }

  lemma OneMoreAnnounced(connected: bool, events: seq<Event>, e: Event)
    ensures Announced(connected, events + [e]) ==
      match e
      case Connected => true
      case Disconnected => false
      case _ => Announced(connected, events)
  {
    assert (events + [e])[..|events|] == events;
  }

  /** Handling the first event does not change what the queue announces. */
  lemma {:induction false} FirstHandled(connected: bool, events: seq<Event>)
    requires events != []
    ensures Announced(connected, events) == Announced(
      match events[0]
      case Connected => true
      case Disconnected => false
      case _ => connected, events[1..])
  {
    var n := |events| - 1;
    if n > 0 {
      FirstHandled(connected, events[..n]);
      assert events[1..][..n - 1] == events[..n][1..];
    }
  }

  lemma NextAnnounced(s: State, h: Happening)
    ensures var t := Next(s, h);
      Announced(t.connected, t.events) == if h.LineInterrupt? then h.active else Announced(s.connected, s.events)
  {
    match h
    case TxInterrupt =>
      OneMoreAnnounced(s.connected, s.events, TxDone);
    case RxInterrupt(_) =>
      OneMoreAnnounced(s.connected, s.events, Rx);
    case LineInterrupt(active) =>
      OneMoreAnnounced(s.connected, s.events, if active then Connected else Disconnected);
    case LoopEvent =>
      if s.events != [] {
        FirstHandled(s.connected, s.events);
      }
    case _ =>
  }

  lemma {:induction false} AnnouncedIsLine(hs: seq<Happening>)
    ensures Announced(After(Start, hs).connected, After(Start, hs).events) == LineAfter(hs)
  {
    if hs != [] {
      AnnouncedIsLine(hs[..|hs| - 1]);
      NextAnnounced(After(Start, hs[..|hs| - 1]), hs[|hs| - 1]);
    }
  }

  /** Over every interleaving: once its queue is empty, the service is connected if and only if the host's
      last word was that the line is active. */
  lemma ConnectedIsLastLine(hs: seq<Happening>)
    requires After(Start, hs).events == []
    ensures After(Start, hs).connected == LineAfter(hs)
  {
    AnnouncedIsLine(hs);
  }
}

/** The service object and its handlers. */
module CliVcp {
  import opened UsbTransfers
  import opened VcpRuns

  class Vcp {
    var isConnected: bool
    var isTransmitting: bool
    var previousTxLength: nat
    var ownPipe: bool          // the pipe pointer is set
    var events: seq<Event>     // internal event queue
    var pipe: Pipe
    var usb: Usb

    ghost function View(): State
      reads this
    {
      State(isConnected, isTransmitting, previousTxLength, events, pipe, usb)
    }

    ghost predicate Ok()
      reads this
    {
      ownPipe == isConnected && Sane(View())
    }

    constructor ()
      ensures Ok() && View() == VcpRuns.Start
    {
      isConnected, isTransmitting, previousTxLength, ownPipe := false, false, 0, false;
      events, pipe, usb := [], NewPipe([]), Usb(0, [], [], [], [], []);
    }

    /** cdc_send: legal only while the endpoint is free. */
    method CdcSend(packet: seq<byte>)
      requires usb.inFlight == 0
      modifies this`usb
      ensures usb == old(usb).(inFlight := 1, sent := old(usb).sent + [packet], wire := old(usb).wire + [packet])
    {
      usb := usb.(inFlight := 1, sent := usb.sent + [packet], wire := usb.wire + [packet]);
    }

    /** Sends at most one packet. */
    method MaybeSendData()
      requires Ok()
      modifies this`isTransmitting, this`previousTxLength, this`pipe, this`usb
      ensures Ok() && View() == Sending(old(View()))
    {
      SendingKeeps(View());
      if isTransmitting {
        return;
      }
      if !ownPipe {
        return;
      }
      var length := if PKT_LEN < |pipe.toHost| then PKT_LEN else |pipe.toHost|;
      var buf := pipe.toHost[..length];
      pipe := pipe.(toHost := pipe.toHost[length..]);
      if length > 0 || previousTxLength == PKT_LEN {
        isTransmitting := true;
        CdcSend(buf);
      }
      previousTxLength := length;
    }

    /** Takes one packet off the endpoint if the pipe has room for any packet, so that the pipe always
        accepts it whole. */
    method MaybeReceiveData()
      requires Ok()
      modifies this`pipe, this`usb
      ensures Ok() && View() == Receiving(old(View()))
    {
      ReceivingKeeps(View());
      if !ownPipe {
        return;
      }
      if VCP_BUF_SIZE - |pipe.toShell| < PKT_LEN {
        return;
      }
      var buf := CdcReceive();
      assert buf == [] ==> pipe.toShell + buf == pipe.toShell && pipe.delivered + buf == pipe.delivered;
      assert buf == [] ==> old(usb).taken + buf == old(usb).taken;
      PipeSend(buf);
    }

    method CdcReceive() returns (packet: seq<byte>)
      requires UsbOk(usb)
      modifies this`usb
      ensures |packet| <= PKT_LEN
      ensures packet == if old(usb).endpoint == [] then [] else old(usb).endpoint[0]
      ensures usb == old(usb).(taken := old(usb).taken + packet,
                               endpoint := if old(usb).endpoint == [] then [] else old(usb).endpoint[1..])
    {
      packet := [];
      assert usb.taken + packet == usb.taken;
      if usb.endpoint != [] {
        packet := usb.endpoint[0];
        usb := usb.(endpoint := usb.endpoint[1..], taken := usb.taken + packet);
      }
    }

    /** pipe_send towards the shell; the caller's check demands that everything fits. */
    method PipeSend(data: seq<byte>)
      requires |pipe.toShell| + |data| <= VCP_BUF_SIZE
      modifies this`pipe
      ensures pipe == old(pipe).(toShell := old(pipe).toShell + data, delivered := old(pipe).delivered + data)
    {
      pipe := pipe.(toShell := pipe.toShell + data, delivered := pipe.delivered + data);
    }

    /** The pipe and its callbacks go away. */
    method OnDisconnected()
      requires ownPipe == isConnected
      modifies this`isConnected, this`ownPipe, this`pipe
      ensures ownPipe == isConnected && View() == Disconnecting(old(View()))
    {
      if !isConnected {
        return;
      }
      isConnected := false;
      pipe := pipe.(dataArrived := false, spaceFreed := false);
      ownPipe := false;
    }

    method OnConnected()
      requires ownPipe == isConnected
      modifies this`isConnected, this`ownPipe, this`pipe, this`usb
      ensures ownPipe == isConnected && View() == Connecting(old(View()))
    {
      if isConnected {
        return;
      }
      isConnected := true;
      pipe := NewPipe(usb.taken);
      ownPipe := true;
      usb := usb.(sent := []);
    }

    /** One event from the internal queue. */
    method InternalEventHappened()
      requires Ok() && events != []
      modifies this
      ensures ownPipe == isConnected && View() == HandlingEvent(old(View()))
    {
      var event := events[0];
      events := events[1..];
      match event {
        case Rx => MaybeReceiveData();
        case TxDone => MaybeSendData();
        case Disconnected => OnDisconnected();
        case Connected => OnConnected();
      }
    }

    /** The tx-done interrupt. */
    method CdcTxDone()
      requires usb.inFlight == 1
      modifies this`usb, this`isTransmitting, this`events
      ensures View() == Next(old(View()), TxInterrupt)
    {
      usb := usb.(inFlight := 0);
      isTransmitting := false;
      events := events + [TxDone];
    }

    /** The rx interrupt, for a packet that has reached the endpoint. */
    method CdcRx(packet: seq<byte>)
      modifies this`usb, this`events
      ensures View() == Next(old(View()), RxInterrupt(packet))
    {
      usb := usb.(endpoint := usb.endpoint + [packet], hostSent := usb.hostSent + packet);
      events := events + [Rx];
    }

    method CdcLine(active: bool)
      modifies this`events
      ensures View() == Next(old(View()), LineInterrupt(active))
    {
      events := events + [if active then Connected else Disconnected];
    }

    method ShellWrite(data: seq<byte>)
      modifies this`pipe
      ensures View() == Next(old(View()), ShellWrites(data))
    {
      if isConnected && data != [] && |pipe.toHost| + |data| <= VCP_BUF_SIZE {
        pipe := pipe.(toHost := pipe.toHost + data, written := pipe.written + data, dataArrived := true);
      }
    }

    method ShellRead(count: nat)
      modifies this`pipe
      ensures View() == Next(old(View()), ShellReads(count))
    {
      if isConnected && 0 < count <= |pipe.toShell| {
        pipe := pipe.(toShell := pipe.toShell[count..], shellGot := pipe.shellGot + pipe.toShell[..count],
                      spaceFreed := true);
      }
    }

    /** The pipe's two callbacks, if the event loop has one to make. */
    method DataFromShell()
      requires Ok()
      modifies this`pipe, this`usb, this`isTransmitting, this`previousTxLength
      ensures ownPipe == isConnected && View() == Next(old(View()), LoopDataArrived)
    {
      if pipe.dataArrived {
        pipe := pipe.(dataArrived := false);
        MaybeSendData();
      }
    }

    method ShellReady()
      requires Ok()
      modifies this`pipe, this`usb
      ensures ownPipe == isConnected && View() == Next(old(View()), LoopSpaceFreed)
    {
      if pipe.spaceFreed {
        pipe := pipe.(spaceFreed := false);
        MaybeReceiveData();
      }
    }

    method Handle(h: Happening)
      requires ownPipe == isConnected && Valid(View()) && Possible(h)
      modifies this
      ensures ownPipe == isConnected && Valid(View()) && View() == Next(old(View()), h)
    {
      NextKeepsValid(View(), h);
      match h {
        case ShellWrites(data) => ShellWrite(data);
        case ShellReads(count) => ShellRead(count);
        case TxInterrupt =>
          if usb.inFlight == 1 {
            CdcTxDone();
          }
        case RxInterrupt(packet) => CdcRx(packet);
        case LineInterrupt(active) => CdcLine(active);
        case LoopDataArrived => DataFromShell();
        case LoopSpaceFreed => ShellReady();
        case LoopEvent =>
          if events != [] {
            InternalEventHappened();
          }
      }
    }

    /** Every interleaving. */
    method Run(hs: seq<Happening>)
      requires ownPipe == isConnected && Valid(View()) && forall h <- hs :: Possible(h)
      modifies this
      ensures ownPipe == isConnected && Valid(View()) && View() == After(old(View()), hs)
    {
      ghost var s := View();
      var k := 0;
      assert hs[..0] == [];
      while k < |hs|
        invariant 0 <= k <= |hs| && ownPipe == isConnected && Valid(View())
        invariant View() == After(s, hs[..k])
      {
        assert hs[..k + 1] == hs[..k] + [hs[k]];
        AfterOneMore(s, hs[..k], hs[k]);
        assert hs[k] in hs;
        Handle(hs[k]);
        k := k + 1;
      }
      assert hs[..k] == hs;
    }

    /** The service never stalls. From any state of a connection in which no line change is queued, let the
        shell write nothing and the host send nothing, and let everything else happen in any order: packets
        in flight are taken, events and announcements are handled, the shell reads as much at a time as it
        likes. This comes to an end. Then everything written has been given to the host in finished
        transfers; and if no waiting packet was empty, the endpoint is empty if and only if it was from the
        beginning or something was going to make the service look at it. */
    method Settle()
      requires ownPipe == isConnected && Stable(View())
      modifies this
      ensures ownPipe == isConnected && Stable(View()) && Quiet(View()) && events == [] && pipe.toShell == []
      ensures pipe.written == old(pipe).written && Completed(usb.sent) == old(pipe).written
      ensures usb.hostSent == old(usb).hostSent == pipe.before + pipe.shellGot + Bytes(usb.endpoint)
      ensures NonEmpty(old(usb).endpoint) ==>
        (usb.endpoint == [] <==> old(usb).endpoint == [] || Fetchable(old(View())))
    {
      ghost var s0 := View();
      while usb.inFlight == 1 || pipe.dataArrived || pipe.spaceFreed || events != [] || pipe.toShell != []
        invariant ownPipe == isConnected && Settling(s0, View())
        decreases Backlog(View()), |usb.endpoint|, usb.inFlight, |events|, |pipe.toShell|,
                  One(pipe.dataArrived) + One(pipe.spaceFreed)
      {
        var h: Happening;
        if {
          case usb.inFlight == 1 => h := TxInterrupt;
          case pipe.dataArrived => h := LoopDataArrived;
          case pipe.spaceFreed => h := LoopSpaceFreed;
          case events != [] => h := LoopEvent;
          case pipe.toShell != [] =>
            var count: nat :| 0 < count <= |pipe.toShell|;
            h := ShellReads(count);
        }
        SettlingStep(s0, View(), h);
        Handle(h);
      }
      Settled(s0, View());
    }
  }

  /** On the way from s0: nothing is added, and whether the endpoint will be looked at is decided. */
  predicate Settling(s0: State, s: State) {
    && Stable(s) && s.pipe.written == s0.pipe.written && s.usb.hostSent == s0.usb.hostSent
    && (NonEmpty(s0.usb.endpoint) && (s0.usb.endpoint == [] || Fetchable(s0)) ==>
          NonEmpty(s.usb.endpoint) && (s.usb.endpoint == [] || Fetchable(s)))
    && (!Fetchable(s0) ==> !Fetchable(s) && s.usb.endpoint == s0.usb.endpoint)
  }

  lemma SettlingStep(s0: State, s: State, h: Happening)
    requires Settling(s0, s) && Enabled(s, h)
    ensures Settling(s0, Next(s, h)) && Closer(Next(s, h), s)
  {
    StaysStable(s, h);
    StepsComeCloser(s, h);
    StepsAddNothing(s, h);
    if NonEmpty(s.usb.endpoint) && (s.usb.endpoint == [] || Fetchable(s)) {
      StaysFetchable(s, h);
    }
    if !Fetchable(s) {
      StaysStuck(s, h);
    }
  }

  lemma Settled(s0: State, s: State)
    requires Settling(s0, s) && s.events == [] && s.pipe.toShell == [] && s.usb.inFlight == 0
    requires !s.pipe.dataArrived && !s.pipe.spaceFreed
    ensures Quiet(s) && Completed(s.usb.sent) == s0.pipe.written
    ensures s.usb.hostSent == s.pipe.before + s.pipe.shellGot + Bytes(s.usb.endpoint)
    ensures NonEmpty(s0.usb.endpoint) ==> (s.usb.endpoint == [] <==> s0.usb.endpoint == [] || Fetchable(s0))
  {
    RestIsComplete(s);
    assert s.pipe.shellGot + [] == s.pipe.shellGot;
  }
}
