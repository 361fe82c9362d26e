/**
  The live-update server: the registry of viewer connections kept by the
  push-channel server, the handlers it installs on each connection, the
  broadcast loop, and the ingestion endpoint that saves a reading and then
  broadcasts it.
*/
module LiveServer {
  import opened Wrappers
  import opened Readings
  import opened Channel

  /** One viewer's socket: its ready state, its device filter and what it has been sent. */
  class Connection {
    var open: bool
    var filter: Option<Json>
    var outbox: seq<Outbound>

    /** The connection's state as a value. */
    function View(): ClientView
      reads this
    {
      ClientView(open, filter, outbox)
    }

    /** The `connection` event: the socket is open and unfiltered, and is sent the acknowledgement. */
    constructor ()
      ensures View() == Accepted()
    {
      open := true;
      filter := None;
      outbox := [Connected(EstablishedText)];
    }

    /** `ws.send`: one more message on this socket. */
    method Send(m: Outbound)
      modifies this
      ensures View() == old(View()).(outbox := old(outbox) + [m])
    {
      outbox := outbox + [m];
    }

    /** The `message` handler. */
    method OnMessage(m: Inbound)
      modifies this
      ensures View() == Receive(old(View()), m)
    {
      if IsSubscribe(m) {
        filter := Some(m.deviceId.value);
        Send(Subscribed(m.deviceId.value));
      }
    }

    /** The socket leaves the OPEN state; the `close` handler itself changes nothing. */
    method Close()
      modifies this
      ensures View() == old(View()).(open := false)
    {
      open := false;
    }
  }

  /** No connection appears twice (the client registry is a set). */
  predicate Distinct(cs: seq<Connection>)
  {
    forall i, j :: 0 <= i < j < |cs| ==> cs[i] != cs[j]
  }

  /** The states of `cs`, in registry order. */
  function ViewsOf(cs: seq<Connection>): (vs: seq<ClientView>)
    reads cs
    ensures |vs| == |cs|
    ensures forall k :: 0 <= k < |cs| ==> vs[k] == cs[k].View()
  {
    if cs == [] then [] else [cs[0].View()] + ViewsOf(cs[1..])
  }

  /** The reading store and the registry of viewer connections. */
  class Server {
    var store: seq<Reading>
    var clients: seq<Connection>

    ghost predicate Valid()
      reads this, clients
    {
      && Distinct(clients)
      && forall k :: 0 <= k < |clients| ==> WellFormed(clients[k].View())
    }

    /** The registry's state as a value. */
    function Views(): seq<ClientView>
      reads this, clients
    {
      ViewsOf(clients)
    }

    /** The server starts on whatever readings the database already holds, with no viewers. */
    constructor (initial: seq<Reading>)
      ensures Valid()
      ensures store == initial && clients == []
    {
      store := initial;
      clients := [];
    }

    /** A viewer connects: it joins the registry and gets the `connected` acknowledgement. */
    method Connect() returns (c: Connection)
      requires Valid()
      modifies this
      ensures Valid() && fresh(c)
      ensures clients == old(clients) + [c] && store == old(store)
      ensures Views() == old(Views()) + [Accepted()]
    {
      c := new Connection();
      clients := clients + [c];
    }

    /** Connection `k` sends `m`. */
    method Message(k: nat, m: Inbound)
      requires Valid() && k < |clients|
      modifies clients[k]
      ensures Valid()
      ensures Views() == old(Views())[k := Receive(old(Views())[k], m)]
    {
      clients[k].OnMessage(m);
    }

    /** Connection `k`'s socket closes. */
    method Disconnect(k: nat)
      requires Valid() && k < |clients|
      modifies clients[k]
      ensures Valid()
      ensures Views() == old(Views())[k := old(Views())[k].(open := false)]
    {
      clients[k].Close();
    }

    /** `broadcastToClients`: one pass over the registry, sending to each matching connection. */
    method Broadcast(r: Reading)
      requires Valid()
      modifies clients
      ensures Valid()
      ensures Views() == Dispatch(old(Views()), r)
    {
      ghost var before := Views();
      var i := 0;
      while i < |clients|
        invariant 0 <= i <= |clients|
        invariant forall k :: 0 <= k < i ==> clients[k].View() == Deliver(old(clients[k].View()), r)
        invariant forall k :: i <= k < |clients| ==> clients[k].View() == old(clients[k].View())
      {
        var c := clients[i];
        if Matches(c.View(), r.deviceId) {
          c.Send(GpsUpdate(r));
        }
        i := i + 1;
      }
      ghost var after := Dispatch(before, r);
      forall k | 0 <= k < |clients|
        ensures Views()[k] == after[k]
      {
        assert before[k] == old(clients[k].View());
      }
    }

    /**
      `POST /api/gps`: build and save the reading; only once the save has
      succeeded is it broadcast and its id returned.
    */
    method PostGps(req: GpsRequest, now: Instant, id: ObjectId, accepted: bool) returns (resp: PostResponse)
      requires Valid()
      modifies this, clients
      ensures Valid() && clients == old(clients)
      ensures Save(req, now, id, accepted).Success? ==>
        && store == old(store) + [Save(req, now, id, accepted).value]
        && Views() == Dispatch(old(Views()), Save(req, now, id, accepted).value)
        && resp == Received(id)
      ensures Save(req, now, id, accepted).Failure? ==>
        && store == old(store)
        && Views() == old(Views())
        && resp == PostFailed(Save(req, now, id, accepted).error)
    {
      var saved := Save(req, now, id, accepted);
      if saved.Failure? {
        return PostFailed(saved.error);
      }
      store := store + [saved.value];
      Broadcast(saved.value);
      resp := Received(saved.value.id);
    }
  }
}
