/**
  Location readings, the endpoint that builds and saves them, and the read
  queries (`latest`, `history`, `devices`) run against the reading store.

  The store is a sequence of persisted readings in save order. The database
  engine's filter, sort and limit are written out as functions over it.
*/
module Readings {
  import opened Wrappers

  /** An instant, in milliseconds since the Unix epoch. */
  type Instant = int

  /** The storage identifier (`_id`) assigned to a new document. */
  type ObjectId = nat

  /** The number of readings `history` returns when no usable limit is given. */
  const DefaultLimit: nat := 100

  /** One persisted reading (the `GPSData` document). Coordinates are opaque payload. */
  datatype Reading = Reading(
    id: ObjectId,
    deviceId: string,
    timestamp: Instant,
    latitude: real,
    longitude: real,
    altitude: Option<real>,
    speed: Option<real>,
    satellites: Option<real>,
    hdop: Option<real>,
    createdAt: Instant)

  /**
    The decoded body of `POST /api/gps`. `None` stands for an absent field;
    for `timestamp` it stands for every falsy JSON value (absent, null, 0,
    "" or false), since the endpoint tests the field with `||`.
  */
  datatype GpsRequest = GpsRequest(
    deviceId: Option<string>,
    timestamp: Option<Instant>,
    latitude: Option<real>,
    longitude: Option<real>,
    altitude: Option<real>,
    speed: Option<real>,
    satellites: Option<real>,
    hdop: Option<real>)

  /** Why a save threw: the schema rejected the document, or the database did. */
  datatype SaveError = ValidationFailed | StoreFailed

  /** The answer of `POST /api/gps`: 200 with the new id, or 500 with the error. */
  datatype PostResponse = Received(id: ObjectId) | PostFailed(error: SaveError)

  /** The query string of `GET /api/gps/history/:device_id`, already decoded. */
  datatype HistoryQuery = HistoryQuery(limit: Option<nat>, start: Option<Instant>, end: Option<Instant>)

  /** An inclusive time range `[from, to]`. */
  datatype Span = Span(from: Instant, to: Instant)

  /** The schema's required fields: a non-empty device id, a latitude and a longitude. */
  predicate Complete(req: GpsRequest)
  {
    && req.deviceId.Some? && req.deviceId.value != ""
    && req.latitude.Some?
    && req.longitude.Some?
  }

  /**
    Builds the document for `req` and saves it. `now` is the server clock,
    `id` the identifier the driver assigns and `accepted` whether the
    database accepts the write; all three lie outside the model.
  */
  function Save(req: GpsRequest, now: Instant, id: ObjectId, accepted: bool): (r: Result<Reading, SaveError>)
    ensures r.Success? <==> Complete(req) && accepted
    ensures r.Failure? ==> (r.error == ValidationFailed <==> !Complete(req))
    ensures r.Success? ==> r.value.id == id && r.value.createdAt == now
    ensures r.Success? ==> Some(r.value.deviceId) == req.deviceId && r.value.deviceId != ""
    ensures r.Success? ==> Some(r.value.latitude) == req.latitude && Some(r.value.longitude) == req.longitude
    ensures r.Success? ==> r.value.altitude == req.altitude && r.value.speed == req.speed
    ensures r.Success? ==> r.value.satellites == req.satellites && r.value.hdop == req.hdop
    ensures r.Success? && req.timestamp.Some? ==> r.value.timestamp == req.timestamp.value
    ensures r.Success? && req.timestamp.None? ==> r.value.timestamp == now
  {
    var timestamp := if req.timestamp.Some? then req.timestamp.value else now;
    if !Complete(req) then
      Failure(ValidationFailed)
    else if !accepted then
      Failure(StoreFailed)
    else
      Success(Reading(id, req.deviceId.value, timestamp, req.latitude.value, req.longitude.value,
                      req.altitude, req.speed, req.satellites, req.hdop, now))
  }

  /** `parseInt(limit) || 100`: a missing, unparseable or zero limit becomes the default. */
  function EffectiveLimit(limit: Option<nat>): (n: nat)
    ensures n > 0
    ensures limit.Some? && limit.value != 0 ==> n == limit.value
    ensures limit.None? || limit.value == 0 ==> n == DefaultLimit
  {
    if limit.Some? && limit.value != 0 then limit.value else DefaultLimit
  }

  /** The time range of a history query: present only when both ends are given. */
  function WindowOf(q: HistoryQuery): (w: Option<Span>)
    ensures w.Some? <==> q.start.Some? && q.end.Some?
    ensures w.Some? ==> w.value == Span(q.start.value, q.end.value)
  {
    if q.start.Some? && q.end.Some? then Some(Span(q.start.value, q.end.value)) else None
  }

  /** Whether an instant passes the (optional) inclusive range. */
  predicate Within(w: Option<Span>, t: Instant)
  {
    w.Some? ==> w.value.from <= t <= w.value.to
  }

  /** The readings of `store` for device `dev` inside `w`, in store order. */
  function Selected(store: seq<Reading>, dev: string, w: Option<Span>): (r: seq<Reading>)
    ensures forall x :: x in r <==> x in store && x.deviceId == dev && Within(w, x.timestamp)
    ensures |r| <= |store|
  {
    if store == [] then []
    else
      var rest := Selected(store[1..], dev, w);
      assert store == [store[0]] + store[1..];
      if store[0].deviceId == dev && Within(w, store[0].timestamp) then [store[0]] + rest else rest
  }

  /** Timestamps never increase along `s`. */
  predicate NewestFirst(s: seq<Reading>)
  {
    forall i, j :: 0 <= i < j < |s| ==> s[i].timestamp >= s[j].timestamp
  }

  /** Inserts `x` into a newest-first sequence, ahead of readings with the same timestamp. */
  function InsertNewestFirst(x: Reading, s: seq<Reading>): (r: seq<Reading>)
    requires NewestFirst(s)
    ensures NewestFirst(r)
    ensures multiset(r) == multiset(s) + multiset{x}
  {
    if s == [] || x.timestamp >= s[0].timestamp then
      NewestFirstCons(x, s);
      [x] + s
    else
      var rest := InsertNewestFirst(x, s[1..]);
      assert s == [s[0]] + s[1..];
      SameElements(rest, s[1..] + [x]);
      NewestFirstCons(s[0], rest);
      [s[0]] + rest
  }

  /** The `sort({timestamp: -1})` of the store query; readings with equal timestamps keep store order. */
  function SortNewestFirst(s: seq<Reading>): (r: seq<Reading>)
    ensures NewestFirst(r)
    ensures multiset(r) == multiset(s)
  {
    if s == [] then []
    else
      assert s == [s[0]] + s[1..];
      InsertNewestFirst(s[0], SortNewestFirst(s[1..]))
  }

  /**
    `GET /api/gps/history/:device_id`: the device's readings, restricted to
    the range when both ends are given, newest first, cut to the limit.
  */
  function History(store: seq<Reading>, dev: string, q: HistoryQuery): (r: seq<Reading>)
    ensures forall x :: x in r ==> x in store && x.deviceId == dev && Within(WindowOf(q), x.timestamp)
    ensures NewestFirst(r)
    ensures |r| <= EffectiveLimit(q.limit)
    ensures |r| == EffectiveLimit(q.limit) || multiset(r) == multiset(Selected(store, dev, WindowOf(q)))
    ensures multiset(r) <= multiset(Selected(store, dev, WindowOf(q)))
  {
    var selected := Selected(store, dev, WindowOf(q));
    var sorted := SortNewestFirst(selected);
    var n := if EffectiveLimit(q.limit) < |sorted| then EffectiveLimit(q.limit) else |sorted|;
    PrefixFacts(sorted, n);
    SameElements(sorted, selected);
    assert n == |sorted| ==> sorted[..n] == sorted;
    sorted[..n]
  }

  /** `GET /api/gps/latest/:device_id`: a newest reading of the device, or none. */
  function Latest(store: seq<Reading>, dev: string): (r: Option<Reading>)
    ensures r.None? <==> forall x :: x in store ==> x.deviceId != dev
    ensures r.Some? ==> r.value in store && r.value.deviceId == dev
    ensures r.Some? ==> forall x :: x in store && x.deviceId == dev ==> x.timestamp <= r.value.timestamp
  {
    var selected := Selected(store, dev, None);
    var sorted := SortNewestFirst(selected);
    SameElements(sorted, selected);
    if sorted == [] then None
    else
      HeadIsNewest(sorted);
      Some(sorted[0])
  }

  /** `GET /api/devices`: the distinct device ids of the store. */
  function Devices(store: seq<Reading>): (d: set<string>)
    ensures forall dev :: dev in d <==> exists x :: x in store && x.deviceId == dev
  {
    set x | x in store :: x.deviceId
  }

  /** Putting a reading no older than any of `s` in front keeps `s` newest first. */
  lemma NewestFirstCons(a: Reading, s: seq<Reading>)
    requires NewestFirst(s)
    requires forall y :: y in s ==> y.timestamp <= a.timestamp
    ensures NewestFirst([a] + s)
  {
    forall i, j | 0 <= i < j < |[a] + s|
      ensures ([a] + s)[i].timestamp >= ([a] + s)[j].timestamp
    {
      if i > 0 {
        assert ([a] + s)[i] == s[i - 1];
      }
      assert ([a] + s)[j] == s[j - 1];
    }
  }

  /** Two sequences with the same multiset hold the same elements. */
  lemma SameElements(a: seq<Reading>, b: seq<Reading>)
    requires multiset(a) == multiset(b)
    ensures forall x :: x in a <==> x in b
  {
    forall x ensures x in a <==> x in b {
      assert x in a <==> x in multiset(a);
      assert x in b <==> x in multiset(b);
    }
  }

  /** A prefix keeps the order and takes its readings from the whole. */
  lemma PrefixFacts(s: seq<Reading>, n: nat)
    requires n <= |s|
    ensures NewestFirst(s) ==> NewestFirst(s[..n])
    ensures multiset(s[..n]) <= multiset(s)
    ensures forall x :: x in s[..n] ==> x in s
  {
    assert s == s[..n] + s[n..];
    assert multiset(s) == multiset(s[..n]) + multiset(s[n..]);
  }

  /** The head of a newest-first sequence is a newest element. */
  lemma HeadIsNewest(s: seq<Reading>)
    requires NewestFirst(s) && s != []
    ensures forall x :: x in s ==> x.timestamp <= s[0].timestamp
  {
  }

  /**
    Any reading of the device in the range that `history` leaves out is no
    newer than any reading it returns: the limit keeps the newest ones.
  */
  lemma {:induction false} HistoryHoldsNewest(store: seq<Reading>, dev: string, q: HistoryQuery)
    ensures forall x, y ::
              x in Selected(store, dev, WindowOf(q)) && x !in History(store, dev, q) && y in History(store, dev, q)
              ==> x.timestamp <= y.timestamp
  {
    var sorted := SortNewestFirst(Selected(store, dev, WindowOf(q)));
    var n := if EffectiveLimit(q.limit) < |sorted| then EffectiveLimit(q.limit) else |sorted|;
    assert History(store, dev, q) == sorted[..n];
    forall x, y | x in Selected(store, dev, WindowOf(q)) && x !in sorted[..n] && y in sorted[..n]
      ensures x.timestamp <= y.timestamp
    {
      assert x in multiset(sorted);
      var j :| 0 <= j < |sorted| && sorted[j] == x;
      var i :| 0 <= i < n && sorted[i] == y;
      assert n <= j;
    }
  }

  /** Once a reading is saved, `latest` for its device returns a reading of that device at least as new as it. */
  lemma LatestAfterSave(store: seq<Reading>, req: GpsRequest, now: Instant, id: ObjectId, accepted: bool)
    requires Save(req, now, id, accepted).Success?
    ensures var r := Save(req, now, id, accepted).value;
      var l := Latest(store + [r], r.deviceId);
      l.Some? && l.value.deviceId == r.deviceId && l.value.timestamp >= r.timestamp
  {
  }
}
