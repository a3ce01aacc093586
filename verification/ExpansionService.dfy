/** The expansion service: which worker and which serial port it holds after any sequence of messages. */
module ExpansionControl {

  const SERIAL_ID_MAX := 2

  /** Control messages. Enable and ReloadSettings carry the port index that the settings file gives at
      that moment; an index out of range means detection is switched off. */
  datatype Message =
    | Enable(uartIndex: nat)
    | Disable
    | SetListenSerial(serialId: nat)
    | ReloadSettings(uartIndex: nat)
    | ModuleConnected
    | ModuleDisconnected
    | ConnectionEstablished
    | IsConnected

  /** The public call for SetListenSerial checks its argument. */
  predicate Sendable(m: Message) {
    m.SetListenSerial? ==> m.serialId < SERIAL_ID_MAX
  }

  datatype Control = Off | Listening(port: nat) | Serving(port: nat, established: bool)

  function ListenOn(c: Control, port: nat): Control {
    if !c.Off? && c.port == port then c else Listening(port)
  }

  function Step(c: Control, m: Message): Control {
    match m
    case Enable(i) => if c.Off? && i < SERIAL_ID_MAX then Listening(i) else c
    case Disable => Off
    case SetListenSerial(id) => ListenOn(c, id)
    case ReloadSettings(i) => if i < SERIAL_ID_MAX then ListenOn(c, i) else Off
    case ModuleConnected => if c.Listening? then Serving(c.port, false) else c
    case ModuleDisconnected => if c.Serving? then Listening(c.port) else c
    case ConnectionEstablished => if c.Serving? then Serving(c.port, true) else c
    case IsConnected => c
  }

  function After(ms: seq<Message>): Control {
    if ms == [] then Off else Step(After(ms[..|ms| - 1]), ms[|ms| - 1])
  }

  /** Messages that leave a worker serving this port alone. */
  predicate Undisturbed(m: Message, port: nat) {
    match m
    case Disable => false
    case ModuleDisconnected => false
    case SetListenSerial(id) => id == port
    case ReloadSettings(i) => i == port
    case _ => true
  }

  predicate ServedSince(ms: seq<Message>, k: nat, port: nat) {
    && k < |ms| && ms[k] == ModuleConnected && After(ms[..k]) == Listening(port)
    && forall j :: k < j < |ms| ==> Undisturbed(ms[j], port)
  }

  /** One more undisturbing message keeps a port served since k. */
  lemma ServedOneMore(front: seq<Message>, m: Message, k: nat, port: nat)
    requires k < |front|
    ensures ServedSince(front + [m], k, port) <==> ServedSince(front, k, port) && Undisturbed(m, port)
    ensures (front + [m])[k..] == front[k..] + [m]
  {
    var ms := front + [m];
    assert ms[..k] == front[..k];
    if ServedSince(ms, k, port) {
      assert ms[|front|] == m;
      assert forall j :: k < j < |front| ==> ms[j] == front[j];
    }
  }

  lemma ServedFromNow(front: seq<Message>, m: Message, port: nat)
    ensures ServedSince(front + [m], |front|, port) <==> m == ModuleConnected && After(front) == Listening(port)
    ensures (front + [m])[|front|..] == [m]
  {
  }

  lemma {:induction false} ServingHasStart(ms: seq<Message>, port: nat, established: bool) returns (k: nat)
    requires After(ms) == Serving(port, established)
    ensures ServedSince(ms, k, port) && (established <==> ConnectionEstablished in ms[k..])
  {
    var front, m := ms[..|ms| - 1], ms[|ms| - 1];
    assert ms == front + [m];
    if After(front).Serving? {
      k := ServingHasStart(front, port, After(front).established);
      ServedOneMore(front, m, k, port);
    } else {
      k := |front|;
      ServedFromNow(front, m, port);
    }
  }

  lemma {:induction false} ServedSinceIsServing(ms: seq<Message>, port: nat, k: nat)
    requires port < SERIAL_ID_MAX && ServedSince(ms, k, port)
    ensures After(ms) == Serving(port, ConnectionEstablished in ms[k..])
  {
    var front, m := ms[..|ms| - 1], ms[|ms| - 1];
    assert ms == front + [m];
    if k == |front| {
      ServedFromNow(front, m, port);
    } else {
      ServedOneMore(front, m, k, port);
      ServedSinceIsServing(front, port, k);
    }
  }

  /** The service serves a port exactly if a module connected while it listened there and nothing has
      disturbed it since; the connection counts as established exactly if the worker has said so since. */
  lemma ServingSinceConnected(ms: seq<Message>, port: nat, established: bool)
    requires port < SERIAL_ID_MAX
    ensures After(ms) == Serving(port, established) <==>
      exists k: nat :: ServedSince(ms, k, port) && (established <==> ConnectionEstablished in ms[k..])
  {
    if After(ms) == Serving(port, established) {
      var k := ServingHasStart(ms, port, established);
    }
    if k: nat :| ServedSince(ms, k, port) && (established <==> ConnectionEstablished in ms[k..]) {
      ServedSinceIsServing(ms, port, k);
    }
  }

  // ---------------------------------------------------------------- from the messages alone

  predicate SwitchesOn(m: Message) {
    m.SetListenSerial? || ((m.Enable? || m.ReloadSettings?) && m.uartIndex < 2)
  }

  predicate SwitchesOff(m: Message) {
    m.Disable? || (m.ReloadSettings? && m.uartIndex >= 2)
  }

  /** Nothing switched the service on after k, where it was switched off; -1 is the start. */
  predicate OffSince(ms: seq<Message>, k: int) {
    && -1 <= k < |ms| && (0 <= k ==> SwitchesOff(ms[k]))
    && forall j :: k < j < |ms| ==> !SwitchesOn(ms[j])
  }

  ghost predicate IsOff(ms: seq<Message>) {
    exists k :: OffSince(ms, k)
  }

  /** At k this port was chosen: by name, by the settings, or by switching the service on. */
  ghost predicate Chosen(ms: seq<Message>, k: nat, port: nat)
    requires k < |ms|
  {
    ms[k] == SetListenSerial(port) || ms[k] == ReloadSettings(port) || (ms[k] == Enable(port) && IsOff(ms[..k]))
  }

  /** No later message switches the service off or names another port. */
  ghost predicate ChosenSince(ms: seq<Message>, k: nat, port: nat) {
    && k < |ms| && Chosen(ms, k, port)
    && forall j :: k < j < |ms| ==>
         !SwitchesOff(ms[j]) && (SwitchesOn(ms[j]) ==> ms[j].Enable? || Names(ms[j]) == port)
  }

  function Names(m: Message): nat
    requires m.SetListenSerial? || m.ReloadSettings?
  {
    if m.SetListenSerial? then m.serialId else m.uartIndex
  }

  ghost predicate IsOn(ms: seq<Message>, port: nat) {
    exists k :: ChosenSince(ms, k, port)
  }

  lemma OffOneMore(front: seq<Message>, m: Message)
    ensures IsOff(front + [m]) <==> SwitchesOff(m) || (IsOff(front) && !SwitchesOn(m))
  {
    var ms, n := front + [m], |front|;
    if SwitchesOff(m) {
      assert OffSince(ms, n);
    }
    if k :| OffSince(front, k) && !SwitchesOn(m) {
      assert OffSince(ms, k);
    }
    if k :| OffSince(ms, k) {
      assert ms[n] == m && forall j :: 0 <= j < n ==> ms[j] == front[j];
      assert k < n ==> OffSince(front, k);
    }
  }

  lemma OnOneMore(front: seq<Message>, m: Message, port: nat)
    requires port < 2
    ensures IsOn(front + [m], port) <==>
      || m == SetListenSerial(port) || m == ReloadSettings(port) || (m == Enable(port) && IsOff(front))
      || (IsOn(front, port) && !SwitchesOff(m) && (SwitchesOn(m) ==> m.Enable? || Names(m) == port))
  {
    var ms, n := front + [m], |front|;
    assert ms[..n] == front;
    if Chosen(ms, n, port) {
      assert ChosenSince(ms, n, port);
    }
    if k: nat :| ChosenSince(front, k, port) {
      assert ms[..k] == front[..k];
      if !SwitchesOff(m) && (SwitchesOn(m) ==> m.Enable? || Names(m) == port) {
        assert ChosenSince(ms, k, port);
      }
    }
    if k: nat :| ChosenSince(ms, k, port) {
      if k < n {
        assert ms[..k] == front[..k] && ms[n] == m;
        assert forall j :: k < j < n ==> ms[j] == front[j];
        assert ChosenSince(front, k, port);
      }
    }
  }

  /** The service is off if and only if nothing switched it on since it last was switched off, and on a
      port if and only if that port was chosen last. */
  lemma {:induction false} OnAndOff(ms: seq<Message>, port: nat)
    requires port < 2
    ensures After(ms) == Off <==> IsOff(ms)
    ensures !After(ms).Off? && After(ms).port == port <==> IsOn(ms, port)
  {
    if ms == [] {
      assert OffSince(ms, -1);
    } else {
      var front, m := ms[..|ms| - 1], ms[|ms| - 1];
      assert ms == front + [m];
      OnAndOff(front, port);
      OffOneMore(front, m);
      OnOneMore(front, m, port);
    }
  }

  ghost predicate ConnectedSince(ms: seq<Message>, k: nat, port: nat) {
    && k < |ms| && ms[k] == ModuleConnected && IsOn(ms[..k], port)
    && forall j :: k < j < |ms| ==> Undisturbed(ms[j], port)
  }

  lemma ConnectedOneMore(front: seq<Message>, m: Message, port: nat)
    ensures (exists k :: ConnectedSince(front + [m], k, port)) <==>
      || (m == ModuleConnected && IsOn(front, port))
      || ((exists k :: ConnectedSince(front, k, port)) && Undisturbed(m, port))
  {
    var ms, n := front + [m], |front|;
    assert ms[..n] == front;
    if m == ModuleConnected && IsOn(front, port) {
      assert ConnectedSince(ms, n, port);
    }
    if k: nat :| ConnectedSince(front, k, port) && Undisturbed(m, port) {
      assert ms[..k] == front[..k] && ConnectedSince(ms, k, port);
    }
    if k: nat :| ConnectedSince(ms, k, port) {
      if k < n {
        assert ms[..k] == front[..k] && ms[n] == m;
        assert forall j :: k < j < n ==> ms[j] == front[j];
        assert ConnectedSince(front, k, port);
      }
    }
  }

  lemma {:induction false} ServesSinceConnection(ms: seq<Message>, port: nat)
    requires port < 2
    ensures After(ms).Serving? && After(ms).port == port <==> exists k :: ConnectedSince(ms, k, port)
  {
    if ms != [] {
      var front, m := ms[..|ms| - 1], ms[|ms| - 1];
      assert ms == front + [m];
      ServesSinceConnection(front, port);
      OnAndOff(front, port);
      ConnectedOneMore(front, m, port);
    }
  }

  /** From the messages alone: the service serves a port if and only if a module connected while the port
      was chosen and nothing has disturbed it since, and it listens there if and only if the port is the
      one chosen and no module is being served; after a disconnection that is the same port again. */
  lemma ListensExactlyWhen(ms: seq<Message>, port: nat)
    requires port < 2
    ensures After(ms).Serving? && After(ms).port == port <==> exists k :: ConnectedSince(ms, k, port)
    ensures After(ms) == Listening(port) <==> IsOn(ms, port) && !exists k :: ConnectedSince(ms, k, port)
    ensures (exists k :: ConnectedSince(ms, k, port)) ==> After(ms + [ModuleDisconnected]) == Listening(port)
  {
    ServesSinceConnection(ms, port);
    OnAndOff(ms, port);
    assert (ms + [ModuleDisconnected])[..|ms|] == ms;
  }
}

module ExpansionService {
  import opened ExpansionControl

  datatype State = Disabled | Enabled | Running | Connected

  class Expansion {
    var state: State
    var serialId: nat
    var worker: nat            // identity of the worker last allocated; dangles once it is freed
    // the outside world
    var installed: set<nat>    // ports with the detection callback installed
    var live: set<nat>         // workers allocated and not yet freed
    var allocs: nat
    var frees: nat

    ghost predicate Valid()
      reads this
    {
      && serialId < SERIAL_ID_MAX
      && installed == (if state == Enabled then {serialId} else {})
      && live == (if state == Running || state == Connected then {worker} else {})
      && allocs == frees + |live|
      && forall w <- live :: w < allocs
    }

    ghost function Control(): Control
      reads this
    {
      match state
      case Disabled => Off
      case Enabled => Listening(serialId)
      case Running => Serving(serialId, false)
      case Connected => Serving(serialId, true)
    }

    constructor ()
      ensures Valid() && Control() == Off && allocs == 0 && frees == 0
    {
      state, serialId, worker := Disabled, 0, 0;
      installed, live, allocs, frees := {}, {}, 0, 0;
    }

    method InstallCallback(port: nat)
      modifies this`installed
      ensures installed == old(installed) + {port}
    {
      installed := installed + {port};
    }

    method RemoveCallback(port: nat)
      modifies this`installed
      ensures installed == old(installed) - {port}
    {
      installed := installed - {port};
    }

    /** Stopping a worker is legal only while it is allocated. */
    method WorkerStop(w: nat)
      requires w in live
    {
    }

    method WorkerFree(w: nat)
      requires w in live
      modifies this`live, this`frees
      ensures live == old(live) - {w} && frees == old(frees) + 1
    {
      live := live - {w};
      frees := frees + 1;
    }

    method WorkerAlloc() returns (w: nat)
      requires forall x <- live :: x < allocs
      modifies this`live, this`allocs
      ensures w == old(allocs) && live == old(live) + {w} && allocs == old(allocs) + 1
    {
      w := allocs;
      live := live + {w};
      allocs := allocs + 1;
    }

    method OnEnable(uartIndex: nat)
      requires Valid()
      modifies this
      ensures Valid() && Control() == Step(old(Control()), Enable(uartIndex))
    {
      if state != Disabled {
        return;
      }
      if uartIndex < SERIAL_ID_MAX {
        state := Enabled;
        serialId := uartIndex;
        InstallCallback(serialId);
      }
    }

    method OnDisable()
      requires Valid()
      modifies this
      ensures Valid() && Control() == Off
    {
      if state == Disabled {
        return;
      } else if state == Running || state == Connected {
        WorkerStop(worker);
        WorkerFree(worker);
      } else {
        RemoveCallback(serialId);
      }
      state := Disabled;
    }

    method OnSetListenSerial(id: nat)
      requires Valid() && id < SERIAL_ID_MAX
      modifies this
      ensures Valid() && Control() == ListenOn(old(Control()), id)
    {
      if state != Disabled && serialId == id {
        return;
      } else if state == Running || state == Connected {
        WorkerStop(worker);
        WorkerFree(worker);
      } else if state == Enabled {
        RemoveCallback(serialId);
      }
      state := Enabled;
      serialId := id;
      InstallCallback(serialId);
    }

    method OnReloadSettings(uartIndex: nat)
      requires Valid()
      modifies this
      ensures Valid() && Control() == Step(old(Control()), ReloadSettings(uartIndex))
    {
      if uartIndex < SERIAL_ID_MAX {
        OnSetListenSerial(uartIndex);
      } else {
        OnDisable();
      }
    }

    method OnModuleConnected()
      requires Valid()
      modifies this
      ensures Valid() && Control() == Step(old(Control()), ModuleConnected)
    {
      if state != Enabled {
        return;
      }
      RemoveCallback(serialId);
      state := Running;
      worker := WorkerAlloc();
    }

    method OnModuleDisconnected()
      requires Valid()
      modifies this
      ensures Valid() && Control() == Step(old(Control()), ModuleDisconnected)
    {
      if state != Running && state != Connected {
        return;
      }
      state := Enabled;
      WorkerFree(worker);
      InstallCallback(serialId);
    }

    method OnConnectionEstablished()
      requires Valid()
      modifies this`state
      ensures Valid() && Control() == Step(old(Control()), ConnectionEstablished)
    {
      if state != Running && state != Connected {
        return;
      }
      state := Connected;
    }

    method OnIsConnected() returns (isConnected: bool)
      ensures isConnected <==> Control().Serving? && Control().established
    {
      isConnected := state == Connected;
    }

    /** Every run of the control loop: the worker and callback bookkeeping holds after each message,
        and the service is where the history says. */
    method Serve(ms: seq<Message>)
      requires Valid() && Control() == Off
      requires forall m <- ms :: Sendable(m)
      modifies this
      ensures Valid() && Control() == After(ms)
      ensures allocs - frees == if After(ms).Serving? then 1 else 0
      ensures installed == if After(ms).Listening? then {After(ms).port} else {}
    {
      var k := 0;
      while k < |ms|
        invariant 0 <= k <= |ms|
        invariant Valid() && Control() == After(ms[..k])
      {
        assert ms[..k + 1][..k] == ms[..k];
        assert Sendable(ms[k]);
        match ms[k] {
          case Enable(i) => OnEnable(i);
          case Disable => OnDisable();
          case SetListenSerial(id) => OnSetListenSerial(id);
          case ReloadSettings(i) => OnReloadSettings(i);
          case ModuleConnected => OnModuleConnected();
          case ModuleDisconnected => OnModuleDisconnected();
          case ConnectionEstablished => OnConnectionEstablished();
          case IsConnected => var _ := OnIsConnected();
        }
        k := k + 1;
      }
      assert ms[..k] == ms;
    }
  }
}
