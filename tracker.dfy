/** The two connection flags of the BLE handler as a state machine over the
    transport's callbacks and the firmware's periodic loop() tick. */
module Tracker {

  /** deviceConnected, and the value loop() last acted on. */
  datatype Link = Link(deviceConnected: bool, oldDeviceConnected: bool)

  datatype Event = Connect | Disconnect | Tick

  /** Both flags are false when the handler is constructed. */
  const Boot: Link := Link(false, false)

  /** loop() restarts advertising when it sees a connected-to-disconnected edge. */
  function RestartsAdvertising(l: Link, e: Event): (r: bool)
    ensures r <==> e == Tick && Pending(l) == 1
    ensures r ==> Next(l, e) == Link(false, false)
  {
    e == Tick && !l.deviceConnected && l.oldDeviceConnected
  }

  /** onConnect and onDisconnect only set deviceConnected; loop() runs its
      disconnecting branch and then its connecting branch. */
  function Next(l: Link, e: Event): (n: Link)
    ensures n.deviceConnected == (match e case Connect => true case Disconnect => false case Tick => l.deviceConnected)
    ensures e != Tick ==> n.oldDeviceConnected == l.oldDeviceConnected
    ensures e == Tick ==> n.oldDeviceConnected == n.deviceConnected
  {
    match e
    case Connect => l.(deviceConnected := true)
    case Disconnect => l.(deviceConnected := false)
    case Tick =>
      var afterDisconnecting :=
        if !l.deviceConnected && l.oldDeviceConnected
        then l.(oldDeviceConnected := l.deviceConnected) else l;
      if afterDisconnecting.deviceConnected && !afterDisconnecting.oldDeviceConnected
      then afterDisconnecting.(oldDeviceConnected := afterDisconnecting.deviceConnected)
      else afterDisconnecting
  }

  /** A restart cannot repeat on the next tick unless the client comes back and goes again. */
  lemma NoRestartTwice(l: Link)
    ensures !RestartsAdvertising(Next(l, Tick), Tick)
  {
  }

  /** The link after `es`, with the number of advertising restarts on the way. */
  datatype Run = Run(link: Link, restarts: nat)

  function RunEvents(l: Link, es: seq<Event>): Run
    decreases |es|
  {
    if es == [] then Run(l, 0)
    else
      var rest := RunEvents(Next(l, es[0]), es[1..]);
      rest.(restarts := rest.restarts + (if RestartsAdvertising(l, es[0]) then 1 else 0))
  }

  /** The disconnect callbacks in `es` that find a client connected: the
      connected-to-disconnected edges of deviceConnected. A repeated
      onDisconnect is not an edge. */
  function DisconnectEdges(l: Link, es: seq<Event>): nat
    decreases |es|
  {
    if es == [] then 0
    else
      (if es[0] == Disconnect && l.deviceConnected then 1 else 0)
      + DisconnectEdges(Next(l, es[0]), es[1..])
  }

  /** 1 while a disconnect edge waits for loop() to see it. */
  function Pending(l: Link): nat {
    if !l.deviceConnected && l.oldDeviceConnected then 1 else 0
  }

  /** Restarts, plus the one still pending, never outnumber disconnect edges. */
  lemma {:induction false} RestartsBounded(l: Link, es: seq<Event>)
    ensures RunEvents(l, es).restarts + Pending(RunEvents(l, es).link) <= Pending(l) + DisconnectEdges(l, es)
    decreases |es|
  {
    if es != [] {
      RestartsBounded(Next(l, es[0]), es[1..]);
    }
  }

  /** From boot, advertising is restarted at most once per connected-to-
      disconnected edge. */
  lemma AtMostOneRestartPerDisconnect(es: seq<Event>)
    ensures RunEvents(Boot, es).restarts <= DisconnectEdges(Boot, es)
  {
    RestartsBounded(Boot, es);
  }

  /** A client that connects, is seen by loop(), and leaves with a duplicate
      disconnect callback: one edge, one restart. */
  lemma ExampleDuplicateDisconnect()
    ensures var es := [Connect, Tick, Disconnect, Disconnect, Tick];
      DisconnectEdges(Boot, es) == 1 && RunEvents(Boot, es).restarts == 1
  {
  }

  /** A client that loop() has seen connected and that then leaves gets
      advertising restarted on the next tick. */
  lemma SeenDisconnectRestarts(l: Link)
    requires l.deviceConnected && l.oldDeviceConnected
    ensures RestartsAdvertising(Next(l, Disconnect), Tick)
    ensures Next(Next(l, Disconnect), Tick) == Boot
  {
  }

  /** A connection shorter than one tick is a disconnect edge that earns no
      restart: loop() never sees the client, oldDeviceConnected stays false,
      and the flags end where they started. */
  lemma ShortConnectionNoRestart()
    ensures var es := [Connect, Disconnect, Tick];
      DisconnectEdges(Boot, es) == 1 && RunEvents(Boot, es).restarts == 0
      && RunEvents(Boot, es).link == Boot
  {
  }

  /** Appending a tick to any history settles the flags: afterwards loop()
      has acted on the current connection state. */
  lemma {:induction false} TickSettles(l: Link, es: seq<Event>)
    ensures RunEvents(l, es + [Tick]).link.oldDeviceConnected == RunEvents(l, es).link.deviceConnected
    ensures RunEvents(l, es + [Tick]).link.deviceConnected == RunEvents(l, es).link.deviceConnected
    decreases |es|
  {
    if es == [] {
      assert es + [Tick] == [Tick];
    } else {
      assert (es + [Tick])[1..] == es[1..] + [Tick];
      TickSettles(Next(l, es[0]), es[1..]);
    }
  }
}
