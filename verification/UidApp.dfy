/** The read scene and its scan thread, checked against a reference that looks only at the history
    of events. */
module UidAppHistory {
  import opened UidFormat

  const FORMATS := 8
  const UID_BYTES_MAX := 16

  datatype Event =
    | Enter                                     // read scene entered
    | Exit                                      // read scene left
    | Up                                        // NFC/RFID mode toggled
    | Left                                      // previous format
    | Right                                     // next format
    | Ok(connected: bool)                       // send by hand
    | ChooseFormat(index: nat)                  // settings scene, shown only while nothing scans
    | ThreadBegins                              // the scan thread runs its prologue
    | Detected(raw: seq<bv8>, connected: bool)  // one scan iteration that found a tag

  datatype Phase = Idle | Starting | Looping

  datatype Detection = Detection(uid: seq<bv8>, format: nat, connected: bool)

  function FormatOf(index: nat): Format
    requires index < FORMATS
  {
    [Compact, Spaced, Hex10, Hex8, Ik3Is, Ik2, ZkCodier, Is][index]
  }

  /** What the display line should hold for a stored UID. */
  function Shown(uid: seq<bv8>, format: nat): string
    requires format < FORMATS
  {
    if uid == [] then "" else Text(uid, FormatOf(format))
  }

  function Stored(raw: seq<bv8>): (uid: seq<bv8>)
    ensures |uid| <= UID_BYTES_MAX
  {
    if |raw| < UID_BYTES_MAX then raw else raw[..UID_BYTES_MAX]
  }

  predicate WellFormed(events: seq<Event>) {
    forall i :: 0 <= i < |events| && events[i].ChooseFormat? ==> events[i].index < FORMATS
  }

  function PhaseAfter(events: seq<Event>): Phase {
    if events == [] then Idle
    else
      var before := PhaseAfter(events[..|events| - 1]);
      match events[|events| - 1]
      case Enter => if before.Idle? then Starting else before
      case Up => Starting
      case Exit => Idle
      case ThreadBegins => if before.Starting? then Looping else before
      case _ => before
  }

  function FormatAfter(events: seq<Event>): (f: nat)
    requires WellFormed(events)
    ensures f < FORMATS
  {
    if events == [] then 1
    else
      var rest := events[..|events| - 1];
      var before := FormatAfter(rest);
      match events[|events| - 1]
      case Left => (before + FORMATS - 1) % FORMATS
      case Right => (before + 1) % FORMATS
      case ChooseFormat(index) => if PhaseAfter(rest).Idle? then index else before
      case _ => before
  }

  /** The tags found since the read scene was entered or its mode changed, oldest first. */
  function Session(events: seq<Event>): (ds: seq<Detection>)
    requires WellFormed(events)
    ensures forall d <- ds :: d.format < FORMATS && |d.uid| <= UID_BYTES_MAX
  {
    if events == [] then []
    else
      var rest := events[..|events| - 1];
      match events[|events| - 1]
      case Enter => if PhaseAfter(rest).Idle? then [] else Session(rest)
      case Up => []
      case Exit => []
      case Detected(raw, connected) =>
        if PhaseAfter(rest).Looping?
        then Session(rest) + [Detection(Stored(raw), FormatAfter(rest), connected)]
        else Session(rest)
      case _ => Session(rest)
  }

  function LastUid(ds: seq<Detection>): seq<bv8> {
    if ds == [] then [] else ds[|ds| - 1].uid
  }

  /** The lines typed automatically: every detection that differs from the one before it, in the
      format of that moment, if the keyboard was connected. */
  function Typed(ds: seq<Detection>): seq<string>
    requires forall d <- ds :: d.format < FORMATS
  {
    if ds == [] then []
    else
      var rest, d := ds[..|ds| - 1], ds[|ds| - 1];
      if d.uid == LastUid(rest) || !d.connected then Typed(rest) else Typed(rest) + [Shown(d.uid, d.format)]
  }

  /** Outside a running scan loop nothing has been detected in the current session. */
  lemma {:induction false} QuietUnlessLooping(events: seq<Event>)
    requires WellFormed(events)
    ensures !PhaseAfter(events).Looping? ==> Session(events) == []
  {
    if events != [] {
      QuietUnlessLooping(events[..|events| - 1]);
    }
  }

  /** Events that neither open nor close a session and find no tag leave the session as it was. */
  lemma SessionKept(events: seq<Event>, e: Event)
    requires WellFormed(events) && WellFormed(events + [e])
    requires e.Left? || e.Right? || e.Ok? || e.ChooseFormat? || e.ThreadBegins?
    ensures Session(events + [e]) == Session(events)
    ensures !e.ThreadBegins? ==> PhaseAfter(events + [e]) == PhaseAfter(events)
    ensures e.Left? ==> FormatAfter(events + [e]) == (FormatAfter(events) + FORMATS - 1) % FORMATS
    ensures e.Right? ==> FormatAfter(events + [e]) == (FormatAfter(events) + 1) % FORMATS
  {
  }

  /** What one detection adds to the history. */
  lemma DetectionExtends(events: seq<Event>, raw: seq<bv8>, connected: bool)
    requires WellFormed(events) && PhaseAfter(events).Looping?
    ensures var after := events + [Detected(raw, connected)];
            && WellFormed(after) && PhaseAfter(after).Looping? && FormatAfter(after) == FormatAfter(events)
            && LastUid(Session(after)) == Stored(raw)
            && Typed(Session(after)) ==
               if Stored(raw) == LastUid(Session(events)) || !connected then Typed(Session(events))
               else Typed(Session(events)) + [Shown(Stored(raw), FormatAfter(events))]
  {
  }

  /** The k-th detection differs from the one before it, the first one from the empty UID. */
  predicate NewAt(ds: seq<Detection>, k: nat)
    requires k < |ds|
  {
    ds[k].uid != if k == 0 then [] else ds[k - 1].uid
  }

  predicate TypedAt(ds: seq<Detection>, at: seq<nat>)
    requires forall d <- ds :: d.format < FORMATS
  {
    && |at| == |Typed(ds)|
    && (forall i :: 0 <= i < |at| ==> at[i] < |ds| && Typed(ds)[i] == Shown(ds[at[i]].uid, ds[at[i]].format))
    && (forall i, j :: 0 <= i < j < |at| ==> at[i] < at[j])
  }

  /** The lines typed are, in order, the texts of exactly the detections that are new and found the
      keyboard connected. */
  lemma {:induction false} TypedByIndex(ds: seq<Detection>) returns (at: seq<nat>)
    requires forall d <- ds :: d.format < FORMATS
    ensures TypedAt(ds, at)
    ensures forall k: nat :: k < |ds| ==> (k in at <==> NewAt(ds, k) && ds[k].connected)
  {
    if ds == [] {
      at := [];
    } else {
      var n := |ds| - 1;
      var front := ds[..n];
      var before := TypedByIndex(front);
      at := if NewAt(ds, n) && ds[n].connected then before + [n] else before;
      OneMoreTyped(ds, before, at);
      forall k: nat | k < |ds|
        ensures k in at <==> NewAt(ds, k) && ds[k].connected
      {
        if k < n {
          assert NewAt(front, k) == NewAt(ds, k);
        }
      }
    }
  }

  lemma OneMoreTyped(ds: seq<Detection>, before: seq<nat>, at: seq<nat>)
    requires ds != [] && (forall d <- ds :: d.format < FORMATS) && TypedAt(ds[..|ds| - 1], before)
    requires at == if NewAt(ds, |ds| - 1) && ds[|ds| - 1].connected then before + [|ds| - 1] else before
    ensures TypedAt(ds, at)
  {
    var n := |ds| - 1;
    assert LastUid(ds[..n]) == if n == 0 then [] else ds[n - 1].uid;
  }

  // ---------------------------------------------------------------- from the events alone

  /** The scan was started here and has not been stopped since. */
  predicate StartedAt(events: seq<Event>, a: nat) {
    && a < |events| && (events[a].Enter? || events[a].Up?)
    && forall j :: a < j < |events| ==> !events[j].Exit?
  }

  /** The thread began here, for a scan started before it, and has not been stopped since. */
  predicate RunsFrom(events: seq<Event>, a: nat, b: nat) {
    && a < b < |events| && (events[a].Enter? || events[a].Up?) && events[b].ThreadBegins?
    && forall j :: a < j < |events| ==> !events[j].Exit? && !events[j].Up?
  }

  ghost predicate Scanning(events: seq<Event>) {
    exists a :: StartedAt(events, a)
  }

  ghost predicate Running(events: seq<Event>) {
    exists a, b :: RunsFrom(events, a, b)
  }

  lemma ScanningOneMore(front: seq<Event>, e: Event)
    ensures Scanning(front + [e]) <==> e.Enter? || e.Up? || (Scanning(front) && !e.Exit?)
  {
    var events, n := front + [e], |front|;
    if e.Enter? || e.Up? {
      assert StartedAt(events, n);
    }
    if a: nat :| StartedAt(front, a) && !e.Exit? {
      assert StartedAt(events, a);
    }
    if a: nat :| StartedAt(events, a) {
      assert events[n] == e && forall j :: 0 <= j < n ==> events[j] == front[j];
      assert a < n ==> StartedAt(front, a);
    }
  }

  lemma RunningOneMore(front: seq<Event>, e: Event)
    ensures Running(front + [e]) <==>
      || (Running(front) && !e.Exit? && !e.Up?)
      || (e.ThreadBegins? && exists a :: StartedAt(front, a) && OnlyMode(front, a))
  {
    var events, n := front + [e], |front|;
    assert events[n] == e && forall j :: 0 <= j < n ==> events[j] == front[j];
    if a: nat, b: nat :| RunsFrom(front, a, b) && !e.Exit? && !e.Up? {
      assert RunsFrom(events, a, b);
    }
    if a: nat :| e.ThreadBegins? && StartedAt(front, a) && OnlyMode(front, a) {
      assert RunsFrom(events, a, n);
    }
    if a: nat, b: nat :| RunsFrom(events, a, b) {
      assert b < n ==> RunsFrom(front, a, b);
      assert b == n ==> StartedAt(front, a) && OnlyMode(front, a);
    }
  }

  /** The mode has not been changed since. */
  predicate OnlyMode(events: seq<Event>, a: nat) {
    forall j :: a < j < |events| ==> !events[j].Up?
  }

  /** Whoever is scanning has a latest start, with no change of mode since. */
  lemma {:induction false} LatestStart(events: seq<Event>)
    requires Scanning(events)
    ensures exists a :: StartedAt(events, a) && OnlyMode(events, a)
  {
    var n := |events| - 1;
    var front := events[..n];
    assert events == front + [events[n]];
    ScanningOneMore(front, events[n]);
    if events[n].Enter? || events[n].Up? {
      assert StartedAt(events, n) && OnlyMode(events, n);
    } else {
      LatestStart(front);
      var a: nat :| StartedAt(front, a) && OnlyMode(front, a);
      assert StartedAt(events, a) && OnlyMode(events, a);
    }
  }

  /** A scan is on if and only if the scene was entered or the mode changed and the scene has not been left
      since; its loop runs if and only if, without a change of mode in between, the thread has begun. */
  lemma {:induction false} PhasesFromEvents(events: seq<Event>)
    ensures !PhaseAfter(events).Idle? <==> Scanning(events)
    ensures PhaseAfter(events).Looping? <==> Running(events)
  {
    if events != [] {
      var front, e := events[..|events| - 1], events[|events| - 1];
      assert events == front + [e];
      PhasesFromEvents(front);
      ScanningOneMore(front, e);
      RunningOneMore(front, e);
      if Scanning(front) {
        LatestStart(front);
      }
    }
  }

  predicate Neutral(e: Event) {
    e.Left? || e.Right? || e.Ok? || e.ChooseFormat? || e.ThreadBegins?
  }

  /** A session starts empty, when the scene is entered or its mode changes, and ends with it. */
  lemma SessionOpens(events: seq<Event>, e: Event)
    requires WellFormed(events) && WellFormed(events + [e])
    requires e.Exit? || e.Up? || (e.Enter? && !Scanning(events))
    ensures Session(events + [e]) == []
  {
    assert (events + [e])[..|events|] == events;
    PhasesFromEvents(events);
  }

  /** It holds every tag that the running loop finds, cut to 16 bytes, with the format and the connection of
      that moment. */
  lemma SessionGrows(events: seq<Event>, raw: seq<bv8>, connected: bool)
    requires WellFormed(events) && WellFormed(events + [Detected(raw, connected)])
    ensures Session(events + [Detected(raw, connected)]) == Session(events) +
      if Running(events) then [Detection(raw[..if |raw| < 16 then |raw| else 16], FormatAfter(events), connected)]
      else []
  {
    assert (events + [Detected(raw, connected)])[..|events|] == events;
    PhasesFromEvents(events);
    assert raw[..|raw|] == raw && Session(events) + [] == Session(events);
  }

  /** And nothing else. */
  lemma SessionStays(events: seq<Event>, e: Event)
    requires WellFormed(events) && WellFormed(events + [e])
    requires Neutral(e) || (e.Enter? && Scanning(events))
    ensures Session(events + [e]) == Session(events)
  {
    assert (events + [e])[..|events|] == events;
    PhasesFromEvents(events);
  }

  /** The format starts as the second of eight and moves around in a circle; the settings change it only
      while nothing is being scanned. */
  lemma FormatFromEvents(events: seq<Event>, e: Event)
    requires WellFormed(events) && WellFormed(events + [e])
    ensures FormatAfter([]) == 1
    ensures var before, after := FormatAfter(events), FormatAfter(events + [e]);
      && (e.Right? ==> after == if before == 7 then 0 else before + 1)
      && (e.Left? ==> after == if before == 0 then 7 else before - 1)
      && (e.ChooseFormat? ==> after == if Scanning(events) then before else e.index)
      && (!e.Right? && !e.Left? && !e.ChooseFormat? ==> after == before)
  {
    assert (events + [e])[..|events|] == events;
    PhasesFromEvents(events);
  }

  /** The formats in the order of their indices; the one at the start is the spaced one. */
  lemma FormatsByIndex(uid: seq<bv8>)
    requires uid != []
    ensures Shown(uid, 0) == Text(uid, Compact) && Shown(uid, 1) == Text(uid, Spaced)
    ensures Shown(uid, 2) == Text(uid, Hex10) && Shown(uid, 3) == Text(uid, Hex8)
    ensures Shown(uid, 4) == Text(uid, Ik3Is) && Shown(uid, 5) == Text(uid, Ik2)
    ensures Shown(uid, 6) == Text(uid, ZkCodier) && Shown(uid, 7) == Text(uid, Is)
    ensures Shown(uid, FormatAfter([])) == Text(uid, Spaced)
  {
  }
}

module UidApp {
  import opened UidFormat
  import opened UidAppHistory

  class App {
    var readModeNfc: bool
    var uidFormat: nat
    var uidString: string
    const uidBytes: array<bv8>
    var uidBytesLen: nat
    var scanning: bool
    var scanThread: Phase      // Idle is the null thread pointer
    var typed: seq<string>     // observer's log: lines the scan thread typed this session
    var typedByHand: seq<string>

    ghost predicate Valid()
      reads this, uidBytes
    {
      && uidBytes.Length == UID_BYTES_MAX && uidBytesLen <= UID_BYTES_MAX && uidFormat < FORMATS
      && uidString == Shown(Uid(), uidFormat)
      && scanning == !scanThread.Idle?
      && (!scanThread.Looping? ==> uidBytesLen == 0)
    }

    ghost function Uid(): seq<bv8>
      requires uidBytesLen <= uidBytes.Length
      reads this, uidBytes
    {
      uidBytes[..uidBytesLen]
    }

    /** The object agrees with the history of events. */
    ghost predicate Follows(events: seq<Event>)
      requires WellFormed(events)
      reads this, uidBytes
    {
      && Valid()
      && scanThread == PhaseAfter(events)
      && uidFormat == FormatAfter(events)
      && Uid() == LastUid(Session(events))
      && typed == Typed(Session(events))
    }

    constructor ()
      ensures Follows([]) && fresh(uidBytes) && readModeNfc
    {
      uidBytes := new bv8[UID_BYTES_MAX](_ => 0);
      readModeNfc, uidFormat, uidString, uidBytesLen := true, 1, "", 0;
      scanning, scanThread, typed, typedByHand := false, Idle, [], [];
    }

    method RefreshUid()
      requires uidBytes.Length == UID_BYTES_MAX && uidBytesLen <= UID_BYTES_MAX && uidFormat < FORMATS
      modifies this`uidString
      ensures uidString == Shown(Uid(), uidFormat)
    {
      if uidBytesLen == 0 {
        uidString := "";
        return;
      }
      uidString := FormatUid(uidBytes[..uidBytesLen], FormatOf(uidFormat));
    }

    method ScanStart()
      modifies this`scanning, this`scanThread
      ensures old(scanning) ==> scanning && scanThread == old(scanThread)
      ensures !old(scanning) ==> scanning && scanThread == Starting
    {
      if scanning {
        return;
      }
      scanning := true;
      scanThread := Starting;
    }

    /** Stopping joins the thread; one that has not begun yet still runs its prologue first. */
    method ScanStop()
      requires Valid()
      modifies this`scanning, this`scanThread, this`uidString
      ensures !scanning && scanThread == Idle
      ensures uidString == if old(scanThread).Starting? then "" else old(uidString)
    {
      if !scanning && scanThread.Idle? {
        return;
      }
      scanning := false;
      if scanThread.Starting? {
        uidString := "";
      }
      scanThread := Idle;
    }

    method OnEnter(ghost events: seq<Event>)
      requires WellFormed(events) && Follows(events)
      modifies this
      ensures Follows(events + [Enter]) && typedByHand == old(typedByHand) && readModeNfc == old(readModeNfc)
    {
      QuietUnlessLooping(events);
      ghost var after := events + [Enter];
      assert after[..|events|] == events;
      ScanStart();
    }

    method OnExit(ghost events: seq<Event>)
      requires WellFormed(events) && Follows(events)
      modifies this
      ensures Follows(events + [Exit]) && typedByHand == old(typedByHand) && readModeNfc == old(readModeNfc)
    {
      ghost var after := events + [Exit];
      assert after[..|events|] == events;
      ScanStop();
      uidBytesLen := 0;
      uidString := "";
      typed := [];
    }

    method OnUp(ghost events: seq<Event>)
      requires WellFormed(events) && Follows(events)
      modifies this
      ensures Follows(events + [Up]) && typedByHand == old(typedByHand) && readModeNfc == !old(readModeNfc)
    {
      ghost var after := events + [Up];
      assert after[..|events|] == events;
      ScanStop();
      readModeNfc := !readModeNfc;
      uidString := "";
      uidBytesLen := 0;
      typed := [];
      ScanStart();
    }

    method OnLeft(ghost events: seq<Event>)
      requires WellFormed(events) && Follows(events)
      modifies this
      ensures Follows(events + [Left]) && typedByHand == old(typedByHand) && readModeNfc == old(readModeNfc)
    {
      SessionKept(events, Left);
      if uidFormat == 0 {
        uidFormat := FORMATS - 1;
      } else {
        uidFormat := uidFormat - 1;
      }
      assert uidFormat == FormatAfter(events + [Left]);
      RefreshUid();
    }

    method OnRight(ghost events: seq<Event>)
      requires WellFormed(events) && Follows(events)
      modifies this
      ensures Follows(events + [Right]) && typedByHand == old(typedByHand) && readModeNfc == old(readModeNfc)
    {
      SessionKept(events, Right);
      uidFormat := (uidFormat + 1) % FORMATS;
      RefreshUid();
    }

    method OnOk(connected: bool, ghost events: seq<Event>)
      requires WellFormed(events) && Follows(events)
      modifies this
      ensures Follows(events + [Ok(connected)]) && readModeNfc == old(readModeNfc)
      ensures typedByHand == old(typedByHand) + if connected && uidString != "" then [uidString] else []
    {
      ghost var after := events + [Ok(connected)];
      assert after[..|events|] == events;
      if |uidString| == 0 {
        return;
      }
      if connected {
        typedByHand := typedByHand + [uidString];
      }
    }

    /** The settings scene assigns the format without refreshing; it is on screen only while the
        read scene is not. */
    method OnChooseFormat(index: nat, ghost events: seq<Event>)
      requires WellFormed(events) && Follows(events) && index < FORMATS && scanThread.Idle?
      modifies this`uidFormat
      ensures Follows(events + [ChooseFormat(index)])
    {
      ghost var after := events + [ChooseFormat(index)];
      assert after[..|events|] == events;
      uidFormat := index;
    }

    method ThreadPrologue(ghost events: seq<Event>)
      requires WellFormed(events) && Follows(events) && scanThread.Starting?
      modifies this`uidString, this`scanThread
      ensures Follows(events + [ThreadBegins])
    {
      ghost var after := events + [ThreadBegins];
      assert after[..|events|] == events;
      uidString := "";
      scanThread := Looping;
    }

    /** One iteration of the scan loop that found a tag. */
    method ScanIteration(raw: seq<bv8>, connected: bool, ghost events: seq<Event>)
      requires WellFormed(events) && Follows(events) && scanThread.Looping?
      modifies this, uidBytes
      ensures Follows(events + [Detected(raw, connected)])
      ensures typedByHand == old(typedByHand) && readModeNfc == old(readModeNfc)
    {
      DetectionExtends(events, raw, connected);
      ghost var was := Uid();
      var rawLen := if |raw| < UID_BYTES_MAX then |raw| else UID_BYTES_MAX;
      var rawUid := raw[..rawLen];
      assert rawUid == Stored(raw);
      var isNew := rawLen != uidBytesLen || (rawLen != 0 && uidBytes[..rawLen] != rawUid);
      assert isNew <==> rawUid != was;
      if isNew {
        CopyUid(rawUid);
        uidBytesLen := rawLen;
        RefreshUid();
        if connected {
          typed := typed + [uidString];
        }
      }
      assert Uid() == rawUid;
    }

    method CopyUid(rawUid: seq<bv8>)
      requires |rawUid| <= uidBytes.Length
      modifies uidBytes
      ensures uidBytes[..|rawUid|] == rawUid
      ensures uidBytes[|rawUid|..] == old(uidBytes[|rawUid|..])
    {
      var i := 0;
      while i < |rawUid|
        invariant 0 <= i <= |rawUid|
        invariant uidBytes[..i] == rawUid[..i]
        invariant uidBytes[|rawUid|..] == old(uidBytes[|rawUid|..])
      {
        uidBytes[i] := rawUid[i];
        i := i + 1;
      }
    }

    /** One event, delivered where the framework delivers it: thread steps only to a live thread,
        the settings list only while the read scene is closed. */
    method Handle(event: Event, ghost events: seq<Event>)
      requires WellFormed(events + [event]) && WellFormed(events) && Follows(events)
      modifies this, uidBytes
      ensures Follows(events + [event])
    {
      assert (events + [event])[|events|] == event;
      assert (events + [event])[..|events|] == events;
      match event {
        case Enter => OnEnter(events);
        case Exit => OnExit(events);
        case Up => OnUp(events);
        case Left => OnLeft(events);
        case Right => OnRight(events);
        case Ok(connected) => OnOk(connected, events);
        case ChooseFormat(index) => if scanThread.Idle? { OnChooseFormat(index, events); }
        case ThreadBegins => if scanThread.Starting? { ThreadPrologue(events); }
        case Detected(raw, connected) =>
          if scanThread.Looping? { ScanIteration(raw, connected, events); }
      }
    }

    /** Every run: after any sequence of events the display line is empty or the stored UID in the
        current format, and the lines typed are those the history calls for. */
    method Run(events: seq<Event>)
      requires WellFormed(events) && Follows([])
      modifies this, uidBytes
      ensures Follows(events)
      ensures uidString == Shown(LastUid(Session(events)), FormatAfter(events))
      ensures uidBytesLen == 0 ==> uidString == ""
    {
      var i := 0;
      assert events[..0] == [];
      while i < |events|
        invariant 0 <= i <= |events|
        invariant Follows(events[..i])
      {
        assert events[..i + 1] == events[..i] + [events[i]];
        Handle(events[i], events[..i]);
        i := i + 1;
      }
      assert events[..i] == events;
    }
  }
}
