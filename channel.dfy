/**
  The push channel between the server and its viewers: the messages that
  cross it, the state the server keeps per connection, and the rules for
  subscribing and for choosing the recipients of a live update.

  A `ClientView` is the value of one connection's state; the classes in
  `LiveServer` are proved to move their state exactly as these functions say.
*/
module Channel {
  import opened Wrappers
  import opened Readings

  /** A JSON value as `JSON.parse` yields it; objects and arrays are opaque. */
  datatype Json = JNull | JBool(b: bool) | JNumber(n: real) | JString(s: string) | JCompound

  /** JavaScript truthiness of a parsed JSON value. */
  predicate Truthy(j: Json)
  {
    match j
    case JNull => false
    case JBool(b) => b
    case JNumber(n) => n != 0.0
    case JString(s) => s != ""
    case JCompound => true
  }

  /**
    A message from a viewer. `Malformed` is text that `JSON.parse` rejects or
    that parses to `null`; otherwise the two fields the handler looks at.
  */
  datatype Inbound = Malformed | Decoded(action: Option<Json>, deviceId: Option<Json>)

  /** A message from the server to one viewer. */
  datatype Outbound =
    | Connected(message: string)
    | Subscribed(deviceId: Json)
    | GpsUpdate(data: Reading)

  /** The text of the one-time acknowledgement sent on connect. */
  const EstablishedText: string := "WebSocket connection established"

  /**
    One connection's state: whether its ready state is OPEN, its device
    filter (`ws.device_id`, absent until a subscribe) and everything the
    server has sent on it so far.
  */
  datatype ClientView = ClientView(open: bool, filter: Option<Json>, outbox: seq<Outbound>)

  /** A filter is only ever set to a truthy value. */
  predicate WellFormed(v: ClientView)
  {
    v.filter.Some? ==> Truthy(v.filter.value)
  }

  /** A connection just accepted: open, unfiltered, acknowledged once. */
  function Accepted(): (v: ClientView)
    ensures v.open && v.filter.None? && WellFormed(v)
    ensures |v.outbox| == 1 && v.outbox[0].Connected?
  {
    ClientView(true, None, [Connected(EstablishedText)])
  }

  /** `action === 'subscribe'` with a truthy `device_id`. */
  predicate IsSubscribe(m: Inbound)
  {
    m.Decoded? && m.action == Some(JString("subscribe")) && m.deviceId.Some? && Truthy(m.deviceId.value)
  }

  /** The `message` handler: a subscribe replaces the filter and is acknowledged; anything else is ignored. */
  function Receive(v: ClientView, m: Inbound): (v': ClientView)
    ensures v'.open == v.open
    ensures WellFormed(v) ==> WellFormed(v')
    ensures IsSubscribe(m) ==> v'.filter == Some(m.deviceId.value) && v'.outbox == v.outbox + [Subscribed(m.deviceId.value)]
    ensures !IsSubscribe(m) ==> v' == v
  {
    if IsSubscribe(m) then
      v.(filter := Some(m.deviceId.value), outbox := v.outbox + [Subscribed(m.deviceId.value)])
    else
      v
  }

  /** `broadcastToClients`' test for one client and an update about device `dev`. */
  predicate Matches(v: ClientView, dev: string)
  {
    v.open && (v.filter.None? || !Truthy(v.filter.value) || v.filter.value == JString(dev))
  }

  /**
    On a well-formed connection the test reads: open, and either unfiltered
    or filtered to exactly the update's device id.
  */
  lemma MatchesExactly(v: ClientView, dev: string)
    requires WellFormed(v)
    ensures Matches(v, dev) <==> v.open && (v.filter == None || v.filter == Some(JString(dev)))
  {
  }

  /** The update a connection is owed for one reading: one message or none. */
  function OwedNow(v: ClientView, r: Reading): seq<Outbound>
  {
    if Matches(v, r.deviceId) then [GpsUpdate(r)] else []
  }

  /** One update delivered to one connection. */
  function Deliver(v: ClientView, r: Reading): ClientView
  {
    v.(outbox := v.outbox + OwedNow(v, r))
  }

  /**
    `broadcastToClients` over a snapshot of all connections: every matching
    connection gets one `gps_update` carrying the reading, every other is
    left alone, and no connection is added, removed, opened, closed or
    re-filtered.
  */
  function Dispatch(vs: seq<ClientView>, r: Reading): (ws: seq<ClientView>)
    ensures |ws| == |vs|
    ensures forall k :: 0 <= k < |vs| ==> ws[k].open == vs[k].open && ws[k].filter == vs[k].filter
    ensures forall k :: 0 <= k < |vs| ==>
      ws[k].outbox == vs[k].outbox + OwedNow(vs[k], r)
  {
    if vs == [] then [] else [Deliver(vs[0], r)] + Dispatch(vs[1..], r)
  }

  /** The updates a connection with `v`'s state and filter is owed for `rs`, in order. */
  function UpdatesFor(v: ClientView, rs: seq<Reading>): seq<Outbound>
  {
    if rs == [] then []
    else OwedNow(v, rs[0]) + UpdatesFor(v, rs[1..])
  }

  /** Broadcasts of `rs`, one after another. */
  function Broadcasts(vs: seq<ClientView>, rs: seq<Reading>): seq<ClientView>
    decreases rs
  {
    if rs == [] then vs else Broadcasts(Dispatch(vs, rs[0]), rs[1..])
  }

  /** Subscribe messages handled one after another. */
  function ReceiveAll(v: ClientView, ms: seq<Inbound>): ClientView
    decreases ms
  {
    if ms == [] then v else ReceiveAll(Receive(v, ms[0]), ms[1..])
  }

  /** The device id of the last subscribe in `ms`, if any. */
  function LastSubscription(ms: seq<Inbound>): Option<Json>
  {
    if ms == [] then None
    else if IsSubscribe(ms[|ms| - 1]) then Some(ms[|ms| - 1].deviceId.value)
    else LastSubscription(ms[..|ms| - 1])
  }

  /** The acknowledgements owed for `ms`, one per subscribe, in order. */
  function Acks(ms: seq<Inbound>): seq<Outbound>
  {
    if ms == [] then []
    else AckFor(ms[0]) + Acks(ms[1..])
  }

  /** The acknowledgement owed for one message: one for a subscribe, none otherwise. */
  function AckFor(m: Inbound): seq<Outbound>
  {
    if IsSubscribe(m) then [Subscribed(m.deviceId.value)] else []
  }

  /** Which updates are owed depends only on the ready state and the filter. */
  lemma {:induction false} UpdatesForIgnoresOutbox(v: ClientView, w: ClientView, rs: seq<Reading>)
    requires v.open == w.open && v.filter == w.filter
    ensures UpdatesFor(v, rs) == UpdatesFor(w, rs)
  {
    if rs != [] {
      UpdatesForIgnoresOutbox(v, w, rs[1..]);
    }
  }

  /**
    Across any run of broadcasts, each connection receives exactly the
    updates its ready state and filter admit (`UpdatesFor`), in the order
    they were saved, and keeps its ready state and filter.
  */
  lemma {:induction false} BroadcastsPerConnection(vs: seq<ClientView>, rs: seq<Reading>, k: nat)
    requires k < |vs|
    ensures |Broadcasts(vs, rs)| == |vs|
    ensures Broadcasts(vs, rs)[k].open == vs[k].open && Broadcasts(vs, rs)[k].filter == vs[k].filter
    ensures Broadcasts(vs, rs)[k].outbox == vs[k].outbox + UpdatesFor(vs[k], rs)
    decreases rs
  {
    if rs == [] {
      assert vs[k].outbox + [] == vs[k].outbox;
    } else {
      var next := Dispatch(vs, rs[0]);
      BroadcastsPerConnection(next, rs[1..], k);
      UpdatesForIgnoresOutbox(next[k], vs[k], rs[1..]);
      DispatchThenOwed(vs, rs, k);
    }
  }

  /** One broadcast step of `BroadcastsPerConnection`, stated on its own. */
  lemma DispatchThenOwed(vs: seq<ClientView>, rs: seq<Reading>, k: nat)
    requires k < |vs| && rs != []
    ensures Dispatch(vs, rs[0])[k].outbox + UpdatesFor(vs[k], rs[1..]) == vs[k].outbox + UpdatesFor(vs[k], rs)
  {
    var head := OwedNow(vs[k], rs[0]);
    var tail := UpdatesFor(vs[k], rs[1..]);
    SeqAssoc(vs[k].outbox, head, tail);
  }

  /** Associativity of concatenation, stated once to keep the step above stable across solver seeds. */
  lemma SeqAssoc(a: seq<Outbound>, b: seq<Outbound>, c: seq<Outbound>)
    ensures (a + b) + c == a + (b + c)
  {
  }

  /** The `gps_update` messages for the readings of device `dev` in `rs`, in order. */
  function OfDevice(rs: seq<Reading>, dev: string): seq<Outbound>
  {
    if rs == [] then []
    else (if rs[0].deviceId == dev then [GpsUpdate(rs[0])] else []) + OfDevice(rs[1..], dev)
  }

  /**
    An OPEN connection filtered to device `dev` is owed exactly the updates for the
    readings of `dev`, once each and in the order they were broadcast, and
    nothing else.
  */
  lemma {:induction false} UpdatesForFiltered(v: ClientView, rs: seq<Reading>, dev: string)
    requires v.open && WellFormed(v)
    requires v.filter == Some(JString(dev))
    ensures UpdatesFor(v, rs) == OfDevice(rs, dev)
    ensures forall m :: m in UpdatesFor(v, rs) ==> m.GpsUpdate? && m.data in rs && m.data.deviceId == dev
    ensures forall r :: r in rs && r.deviceId == dev ==> GpsUpdate(r) in UpdatesFor(v, rs)
  {
    if rs != [] {
      UpdatesForFiltered(v, rs[1..], dev);
    }
  }

  /** An open connection without a filter is owed one update per reading, in order. */
  lemma {:induction false} UpdatesForUnfiltered(v: ClientView, rs: seq<Reading>)
    requires v.open && v.filter.None?
    ensures |UpdatesFor(v, rs)| == |rs|
    ensures forall i :: 0 <= i < |rs| ==> UpdatesFor(v, rs)[i] == GpsUpdate(rs[i])
  {
    if rs != [] {
      UpdatesForUnfiltered(v, rs[1..]);
    }
  }

  /** A connection that is not open is owed nothing. */
  lemma {:induction false} UpdatesForClosed(v: ClientView, rs: seq<Reading>)
    requires !v.open
    ensures UpdatesFor(v, rs) == []
  {
    if rs != [] {
      UpdatesForClosed(v, rs[1..]);
    }
  }

  /**
    Last write wins: after any messages the filter is the device id of the
    last subscribe (or what it was before, if none), and the connection has
    been sent exactly one acknowledgement per subscribe, in order.
  */
  lemma {:induction false} LastSubscribeWins(v: ClientView, ms: seq<Inbound>)
    ensures ReceiveAll(v, ms).open == v.open
    ensures ReceiveAll(v, ms).filter == (if LastSubscription(ms).Some? then LastSubscription(ms) else v.filter)
    ensures ReceiveAll(v, ms).outbox == v.outbox + Acks(ms)
  {
    if ms != [] {
      var last := ms[|ms| - 1];
      var init := ms[..|ms| - 1];
      ReceiveAllSnoc(v, init, last);
      assert ms == init + [last];
      LastSubscribeWins(v, init);
      AcksSnoc(init, last);
    }
  }

  lemma {:induction false} ReceiveAllSnoc(v: ClientView, ms: seq<Inbound>, m: Inbound)
    ensures ReceiveAll(v, ms + [m]) == Receive(ReceiveAll(v, ms), m)
    decreases ms
  {
    if ms == [] {
      assert [m][1..] == [];
    } else {
      assert (ms + [m])[1..] == ms[1..] + [m];
      ReceiveAllSnoc(Receive(v, ms[0]), ms[1..], m);
    }
  }

  lemma {:induction false} AcksSnoc(ms: seq<Inbound>, m: Inbound)
    ensures Acks(ms + [m]) == Acks(ms) + AckFor(m)
  {
    if ms == [] {
      assert [m][1..] == [];
    } else {
      assert (ms + [m])[0] == ms[0];
      assert (ms + [m])[1..] == ms[1..] + [m];
      AcksSnoc(ms[1..], m);
      SeqAssoc(AckFor(ms[0]), Acks(ms[1..]), AckFor(m));
    }
  }

  /**
    Read-after-write: once a connection has subscribed to a string id, the
    next broadcast reaches it exactly when it is open and the update's
    device is that id.
  */
  lemma SubscribeThenDispatch(vs: seq<ClientView>, k: nat, dev: string, r: Reading)
    requires k < |vs|
    ensures var m := Decoded(Some(JString("subscribe")), Some(JString(dev)));
      var after := Dispatch(vs[k := Receive(vs[k], m)], r);
      dev != "" ==> (after[k].outbox == Receive(vs[k], m).outbox + [GpsUpdate(r)] <==> vs[k].open && r.deviceId == dev)
  {
  }

  /**
    Two viewers: one subscribed to "dev1", one unfiltered. An update about
    "dev2" reaches only the unfiltered one.
  */
  lemma OnlyUnfilteredViewerSeesOtherDevice(r: Reading)
    requires r.deviceId == "dev2"
    ensures var a := Receive(Accepted(), Decoded(Some(JString("subscribe")), Some(JString("dev1"))));
      var after := Dispatch([a, Accepted()], r);
      after[0] == a && after[1].outbox == [Connected(EstablishedText), GpsUpdate(r)]
  {
  }
}
