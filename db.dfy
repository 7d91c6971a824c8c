/** The SQLite store of app/src/lib/db.ts held in memory: the three tables as
    sequences in rowid order, the AUTOINCREMENT counters, and the queries the
    route handlers run against them. */
module Db {
  import opened Js
  import opened Seqs

  /** A row of `fishing_spots`. `created_at` is CURRENT_TIMESTAMP at insertion. */
  datatype SpotRow = SpotRow(
    id: nat,
    user_id: Value,
    latitude: Value,
    longitude: Value,
    fish_type: Value,
    bait: Value,
    environment: Value,
    rod: Value,
    created_at: int)

  /** A row of `users`. `is_sharing` is the extra attribute `setUserSharing`
      writes; a row written by INSERT OR REPLACE has it NULL. */
  datatype UserRow = UserRow(
    id: Value,
    name: Value,
    latitude: Value,
    longitude: Value,
    last_seen: int,
    is_online: bool,
    is_sharing: Value)

  /** A row of `exchange_requests`. */
  datatype RequestRow = RequestRow(
    id: nat,
    from_user_id: Value,
    to_user_id: Value,
    message: Value,
    status: string,
    created_at: int)

  /** A row of the `getExchangeRequests` join: the request and both user names. */
  datatype RequestView = RequestView(request: RequestRow, from_user_name: Value, to_user_name: Value)

  /** The default `maxDistance` of `getNearbyUsers`, in meters. */
  const DefaultMaxDistance: Number := Finite(50.0)

  /** The `status` column default. */
  const Pending: string := "pending"

  /** The value node-sqlite3 stores for a bound JavaScript value: `undefined`
      becomes NULL and booleans become 1 and 0. */
  function Bind(v: Value): (b: Value)
    ensures b != Undefined && !b.Bool?
    ensures v != Undefined && !v.Bool? ==> b == v
    ensures b == Null <==> v == Null || v == Undefined
  {
    match v
    case Undefined => Null
    case Bool(x) => Num(if x then Finite(1.0) else Finite(0.0))
    case _ => v
  }

  /** The NOT NULL columns of `fishing_spots` accept the bound values. */
  predicate SpotInsertable(userId: Value, latitude: Value, longitude: Value) {
    Bind(userId) != Null && Bind(latitude) != Null && Bind(longitude) != Null
  }

  /** SQLite's numeric reading of a text parameter compared with an INTEGER
      key, for the plain decimal form. */
  function DecimalInteger(s: string): (r: Option<nat>)
    ensures r.Some? <==> s != [] && forall k :: 0 <= k < |s| ==> IsDigit(s[k])
  {
    if s == [] then None else DigitsValue(s)
  }

  function DigitsValue(s: string): (r: Option<nat>)
    requires s != []
    ensures r.Some? <==> forall k :: 0 <= k < |s| ==> IsDigit(s[k])
  {
    var last := s[|s| - 1];
    if !IsDigit(last) then None
    else if |s| == 1 then Some(last as int - '0' as int)
    else
      assert forall k :: 0 <= k < |s| - 1 ==> s[k] == s[..|s| - 1][k];
      match DigitsValue(s[..|s| - 1])
      case None => None
      case Some(v) => Some(v * 10 + (last as int - '0' as int))
  }

  /** The id a client writes into a query string with `${id}` reads back as that id. */
  lemma {:induction false} DecimalIntegerRoundTrip(n: nat)
    ensures DecimalInteger(IntToString(n)) == Some(n)
  {
    if n >= 10 {
      DecimalIntegerRoundTrip(n / 10);
      var s := IntToString(n);
      assert s == IntToString(n / 10) + [DigitChar(n % 10)];
      assert s[..|s| - 1] == IntToString(n / 10);
    }
  }

  function SpotCreatedAt(r: SpotRow): int { r.created_at }

  function RequestCreatedAt(v: RequestView): int { v.request.created_at }

  /** `SELECT * FROM fishing_spots WHERE user_id = ? ORDER BY created_at DESC` */
  function SpotsOf(spots: seq<SpotRow>, userId: string): (r: seq<SpotRow>)
    ensures forall x :: x in r <==> x in spots && x.user_id == Str(userId)
    ensures forall x :: multiset(r)[x] == if x.user_id == Str(userId) then multiset(spots)[x] else 0
    ensures NewestFirst(r, SpotCreatedAt)
  {
    var owned := Filter(spots, (x: SpotRow) => x.user_id == Str(userId));
    FilterCount(spots, (x: SpotRow) => x.user_id == Str(userId));
    var r := SortByKeyDesc(owned, SpotCreatedAt);
    assert forall x :: x in r <==> x in owned by {
      forall x ensures x in r <==> x in owned {
        assert x in r <==> multiset(r)[x] > 0;
        assert x in owned <==> multiset(owned)[x] > 0;
      }
    }
    r
  }

  /** The row `db.get('SELECT * FROM fishing_spots WHERE id = ?')` returns. */
  function SpotById(spots: seq<SpotRow>, id: nat): (r: Option<SpotRow>)
    ensures r.Some? ==> r.value in spots && r.value.id == id
    ensures r.None? ==> forall x :: x in spots ==> x.id != id
  {
    if spots == [] then None
    else if spots[0].id == id then Some(spots[0])
    else SpotById(spots[1..], id)
  }

  /** The condition of `getNearbyUsers`: the SQL `id != ? AND is_online = 1` and
      the haversine filter `distance <= maxDistance`. */
  predicate IsNearby(u: UserRow, userId: string, latitude: Number, longitude: Number,
                     maxDistance: Number, distance: (Number, Number, Value, Value) -> Number)
  {
    u.id != Str(userId) && u.is_online
    && AtMost(distance(latitude, longitude, u.latitude, u.longitude), maxDistance)
  }

  /** The users `getNearbyUsers` returns, in table order. */
  function NearbyOf(users: seq<UserRow>, userId: string, latitude: Number, longitude: Number,
                    maxDistance: Number, distance: (Number, Number, Value, Value) -> Number): (r: seq<UserRow>)
    ensures forall u :: u in r ==> u.id != Str(userId) && u.is_online
    ensures forall u :: u in r ==> AtMost(distance(latitude, longitude, u.latitude, u.longitude), maxDistance)
    ensures forall u :: u in users && IsNearby(u, userId, latitude, longitude, maxDistance, distance) ==> u in r
    ensures forall u :: u in r ==> u in users
  {
    Filter(users, (u: UserRow) => IsNearby(u, userId, latitude, longitude, maxDistance, distance))
  }

  /** The filter keeps the query order: the nearby users of a prefix come before
      those of the rest. */
  lemma NearbyKeepsOrder(a: seq<UserRow>, b: seq<UserRow>, userId: string, latitude: Number, longitude: Number,
                         maxDistance: Number, distance: (Number, Number, Value, Value) -> Number)
    ensures NearbyOf(a + b, userId, latitude, longitude, maxDistance, distance)
         == NearbyOf(a, userId, latitude, longitude, maxDistance, distance)
          + NearbyOf(b, userId, latitude, longitude, maxDistance, distance)
  {
    FilterConcat(a, b, (u: UserRow) => IsNearby(u, userId, latitude, longitude, maxDistance, distance));
  }

  /** No two user rows share an id (the PRIMARY KEY). */
  predicate UniqueIds(users: seq<UserRow>) {
    forall i, j :: 0 <= i < j < |users| ==> users[i].id != users[j].id
  }

  /** The name of the user row with that id, as `JOIN users u ON ... = u.id` finds it. */
  function NameOf(users: seq<UserRow>, id: Value): (r: Option<Value>)
    ensures r.None? <==> forall u :: u in users ==> u.id != id
    ensures r.Some? ==> exists u :: u in users && u.id == id && u.name == r.value
    ensures UniqueIds(users) ==> forall k :: 0 <= k < |users| && users[k].id == id ==> r == Some(users[k].name)
  {
    if users == [] then None
    else if users[0].id == id then Some(users[0].name)
    else
      assert UniqueIds(users) ==> UniqueIds(users[1..]) by {
        if UniqueIds(users) {
          forall i, j | 0 <= i < j < |users| - 1 ensures users[1..][i].id != users[1..][j].id {
            assert users[1..][i] == users[i + 1] && users[1..][j] == users[j + 1];
          }
        }
      }
      NameOf(users[1..], id)
  }

  /** The join rows of the requests addressed to `userId`, in table order. */
  function Joined(requests: seq<RequestRow>, users: seq<UserRow>, userId: string): (r: seq<RequestView>)
    ensures |r| <= |requests|
    ensures forall v :: v in r ==>
      && v.request in requests
      && v.request.to_user_id == Str(userId)
      && NameOf(users, v.request.from_user_id) == Some(v.from_user_name)
      && NameOf(users, v.request.to_user_id) == Some(v.to_user_name)
    ensures forall q :: (q in requests && q.to_user_id == Str(userId)
      && NameOf(users, q.from_user_id).Some? && NameOf(users, q.to_user_id).Some?) ==>
      RequestView(q, NameOf(users, q.from_user_id).value, NameOf(users, q.to_user_id).value) in r
  {
    if requests == [] then []
    else
      var q := requests[0];
      var from := NameOf(users, q.from_user_id);
      var to := NameOf(users, q.to_user_id);
      assert requests == [q] + requests[1..];
      (if q.to_user_id == Str(userId) && from.Some? && to.Some?
       then [RequestView(q, from.value, to.value)] else [])
      + Joined(requests[1..], users, userId)
  }

  /** `getExchangeRequests`: the joined requests addressed to `userId`, newest first. */
  function RequestsFor(requests: seq<RequestRow>, users: seq<UserRow>, userId: string): (r: seq<RequestView>)
    ensures |r| <= |requests|
    ensures forall v :: v in r ==>
      && v.request in requests
      && v.request.to_user_id == Str(userId)
      && NameOf(users, v.request.from_user_id) == Some(v.from_user_name)
      && NameOf(users, v.request.to_user_id) == Some(v.to_user_name)
    ensures forall q :: (q in requests && q.to_user_id == Str(userId)
      && NameOf(users, q.from_user_id).Some? && NameOf(users, q.to_user_id).Some?) ==>
      RequestView(q, NameOf(users, q.from_user_id).value, NameOf(users, q.to_user_id).value) in r
    ensures NewestFirst(r, RequestCreatedAt)
    ensures multiset(r) == multiset(Joined(requests, users, userId))
  {
    var joined := Joined(requests, users, userId);
    var r := SortByKeyDesc(joined, RequestCreatedAt);
    assert |r| == |multiset(r)| == |multiset(joined)| == |joined|;
    assert forall v :: v in r <==> v in joined by {
      forall v ensures v in r <==> v in joined {
        assert v in r <==> multiset(r)[v] > 0;
        assert v in joined <==> multiset(joined)[v] > 0;
      }
    }
    r
  }

  /** The rows `DELETE FROM fishing_spots WHERE id = ? AND user_id = ?` removes. */
  predicate DeleteMatches(r: SpotRow, id: string, userId: string) {
    DecimalInteger(id) == Some(r.id) && r.user_id == Str(userId)
  }

  /** The rows that DELETE leaves. */
  function Survives(id: string, userId: string): SpotRow -> bool {
    (r: SpotRow) => !DeleteMatches(r, id, userId)
  }

  /** The rows INSERT OR REPLACE leaves before it inserts. */
  function OtherId(id: Value): UserRow -> bool {
    (u: UserRow) => u.id != id
  }

  /** The rows `UPDATE users SET is_sharing = ? WHERE id = ?` leaves. */
  function WithSharing(users: seq<UserRow>, id: Value, isSharing: bool): (r: seq<UserRow>)
    ensures |r| == |users|
    ensures forall k :: 0 <= k < |r| ==> r[k].id == users[k].id
    ensures forall k :: 0 <= k < |r| && users[k].id == id ==>
      r[k] == users[k].(is_sharing := Num(if isSharing then Finite(1.0) else Finite(0.0)))
    ensures forall k :: 0 <= k < |r| && users[k].id != id ==> r[k] == users[k]
  {
    seq(|users|, k requires 0 <= k < |users| =>
      if users[k].id == id
      then users[k].(is_sharing := Num(if isSharing then Finite(1.0) else Finite(0.0)))
      else users[k])
  }

  lemma TailUniqueIds(users: seq<UserRow>)
    requires users != [] && UniqueIds(users)
    ensures UniqueIds(users[1..])
    ensures forall u :: u in users[1..] ==> u.id != users[0].id
  {
    var tail := users[1..];
    forall i, j | 0 <= i < j < |tail| ensures tail[i].id != tail[j].id {
      assert tail[i] == users[i + 1] && tail[j] == users[j + 1];
    }
    forall u | u in tail ensures u.id != users[0].id {
      var k :| 0 <= k < |tail| && tail[k] == u;
      assert tail[k] == users[k + 1];
    }
  }

  lemma ConsUniqueIds(x: UserRow, s: seq<UserRow>)
    requires UniqueIds(s) && forall u :: u in s ==> u.id != x.id
    ensures UniqueIds([x] + s)
  {
    var r := [x] + s;
    forall i, j | 0 <= i < j < |r| ensures r[i].id != r[j].id {
      assert r[j] == s[j - 1];
      if i > 0 {
        assert r[i] == s[i - 1];
      } else {
        assert r[j] in s;
      }
    }
  }

  lemma SnocUniqueIds(s: seq<UserRow>, x: UserRow)
    requires UniqueIds(s) && forall u :: u in s ==> u.id != x.id
    ensures UniqueIds(s + [x])
  {
    var r := s + [x];
    forall i, j | 0 <= i < j < |r| ensures r[i].id != r[j].id {
      assert r[i] == s[i];
      if j < |s| {
        assert r[j] == s[j];
      } else {
        assert r[i] in s;
      }
    }
  }

  lemma {:induction false} FilterKeepsUniqueIds(users: seq<UserRow>, p: UserRow -> bool)
    requires UniqueIds(users)
    ensures UniqueIds(Filter(users, p))
  {
    if users != [] {
      TailUniqueIds(users);
      FilterKeepsUniqueIds(users[1..], p);
      var rest := Filter(users[1..], p);
      if p(users[0]) {
        ConsUniqueIds(users[0], rest);
      }
    }
  }

  /** The tables, with the `sqlite_sequence` counters of the two AUTOINCREMENT keys. */
  class Store {
    var spots: seq<SpotRow>
    var users: seq<UserRow>
    var requests: seq<RequestRow>
    var spotSeq: nat
    var requestSeq: nat

    /** Every key was handed out by its counter, and user ids are primary keys. */
    ghost predicate Valid()
      reads this
    {
      && (forall r :: r in spots ==> 0 < r.id <= spotSeq)
      && (forall q :: q in requests ==> 0 < q.id <= requestSeq)
      && UniqueIds(users)
    }

    /** A freshly created database file: the three `CREATE TABLE IF NOT EXISTS`. */
    constructor ()
      ensures Valid()
      ensures spots == [] && users == [] && requests == []
      ensures spotSeq == 0 && requestSeq == 0
    {
      spots, users, requests := [], [], [];
      spotSeq, requestSeq := 0, 0;
    }

    /** `addSpot`: one INSERT; the new key is one more than every key handed out
        before. A NULL in a NOT NULL column makes the INSERT throw (`None`). */
    method AddSpot(userId: Value, latitude: Value, longitude: Value, fish_type: Value,
                   bait: Value, environment: Value, rod: Value, now: int) returns (id: Option<nat>)
      requires Valid()
      modifies this
      ensures Valid()
      ensures id.Some? <==> SpotInsertable(userId, latitude, longitude)
      ensures id.None? ==> spots == old(spots) && spotSeq == old(spotSeq)
      ensures id.Some? ==> id.value == old(spotSeq) + 1 && spotSeq == id.value
      ensures id.Some? ==> spots == old(spots) + [SpotRow(id.value, Bind(userId), Bind(latitude), Bind(longitude),
                                                          Bind(fish_type), Bind(bait), Bind(environment), Bind(rod), now)]
      ensures id.Some? ==> forall r :: r in old(spots) ==> r.id != id.value
      ensures users == old(users) && requests == old(requests) && requestSeq == old(requestSeq)
    {
      if !SpotInsertable(userId, latitude, longitude) {
        return None;
      }
      spotSeq := spotSeq + 1;
      spots := spots + [SpotRow(spotSeq, Bind(userId), Bind(latitude), Bind(longitude),
                                Bind(fish_type), Bind(bait), Bind(environment), Bind(rod), now)];
      id := Some(spotSeq);
    }

    /** `getSpotsByUser` */
    method GetSpotsByUser(userId: string) returns (rows: seq<SpotRow>)
      ensures rows == SpotsOf(spots, userId)
      ensures forall x :: x in rows <==> x in spots && x.user_id == Str(userId)
      ensures NewestFirst(rows, SpotCreatedAt)
    {
      rows := SpotsOf(spots, userId);
    }

    /** `updateUserLocation`: INSERT OR REPLACE deletes the row with that id and
        inserts a new one (last in rowid order), online, seen `now`. */
    method UpdateUserLocation(userId: Value, name: Value, latitude: Value, longitude: Value, now: int)
      returns (ok: bool)
      requires Valid()
      modifies this
      ensures Valid()
      ensures ok <==> Bind(name) != Null
      ensures !ok ==> users == old(users)
      ensures ok ==> users == Filter(old(users), OtherId(Bind(userId)))
                            + [UserRow(Bind(userId), Bind(name), Bind(latitude), Bind(longitude), now, true, Null)]
      ensures ok ==> users[|users| - 1] == UserRow(Bind(userId), Bind(name), Bind(latitude), Bind(longitude), now, true, Null)
      ensures ok ==> forall k :: 0 <= k < |users| - 1 ==> users[k].id != Bind(userId) && users[k] in old(users)
      ensures ok ==> forall u :: u in old(users) && u.id != Bind(userId) ==> u in users
      ensures spots == old(spots) && requests == old(requests)
      ensures spotSeq == old(spotSeq) && requestSeq == old(requestSeq)
    {
      if Bind(name) == Null {
        return false;
      }
      var row := UserRow(Bind(userId), Bind(name), Bind(latitude), Bind(longitude), now, true, Null);
      var kept := Filter(users, OtherId(Bind(userId)));
      FilterKeepsUniqueIds(users, OtherId(Bind(userId)));
      SnocUniqueIds(kept, row);
      users := kept + [row];
      assert forall k :: 0 <= k < |users| - 1 ==> users[k] == kept[k] && kept[k] in kept;
      ok := true;
    }

    /** `getNearbyUsers` */
    method GetNearbyUsers(userId: string, latitude: Number, longitude: Number, maxDistance: Number,
                          distance: (Number, Number, Value, Value) -> Number) returns (rows: seq<UserRow>)
      ensures rows == NearbyOf(users, userId, latitude, longitude, maxDistance, distance)
    {
      rows := NearbyOf(users, userId, latitude, longitude, maxDistance, distance);
    }

    /** `sendExchangeRequest`: one INSERT with status 'pending'. */
    method SendExchangeRequest(fromUserId: Value, toUserId: Value, message: Value, now: int)
      returns (id: Option<nat>)
      requires Valid()
      modifies this
      ensures Valid()
      ensures id.Some? <==> Bind(fromUserId) != Null && Bind(toUserId) != Null && Bind(message) != Null
      ensures id.None? ==> requests == old(requests) && requestSeq == old(requestSeq)
      ensures id.Some? ==> id.value == old(requestSeq) + 1 && requestSeq == id.value
      ensures id.Some? ==> requests == old(requests)
                                      + [RequestRow(id.value, Bind(fromUserId), Bind(toUserId), Bind(message), Pending, now)]
      ensures id.Some? ==> forall q :: q in old(requests) ==> q.id != id.value
      ensures spots == old(spots) && users == old(users) && spotSeq == old(spotSeq)
    {
      if Bind(fromUserId) == Null || Bind(toUserId) == Null || Bind(message) == Null {
        return None;
      }
      requestSeq := requestSeq + 1;
      requests := requests + [RequestRow(requestSeq, Bind(fromUserId), Bind(toUserId), Bind(message), Pending, now)];
      id := Some(requestSeq);
    }

    /** `getExchangeRequests` */
    method GetExchangeRequests(userId: string) returns (rows: seq<RequestView>)
      ensures rows == RequestsFor(requests, users, userId)
      ensures forall v :: v in rows ==> v.request in requests && v.request.to_user_id == Str(userId)
      ensures NewestFirst(rows, RequestCreatedAt)
    {
      rows := RequestsFor(requests, users, userId);
    }

    /** `setUserSharing` */
    method SetUserSharing(userId: Value, isSharing: bool)
      requires Valid()
      modifies this
      ensures Valid()
      ensures users == WithSharing(old(users), Bind(userId), isSharing)
      ensures spots == old(spots) && requests == old(requests)
      ensures spotSeq == old(spotSeq) && requestSeq == old(requestSeq)
    {
      users := WithSharing(users, Bind(userId), isSharing);
    }

    /** `DELETE FROM fishing_spots WHERE id = ? AND user_id = ?`, returning `changes`. */
    method DeleteSpot(id: string, userId: string) returns (changes: nat)
      requires Valid()
      modifies this
      ensures Valid()
      ensures spots == Filter(old(spots), Survives(id, userId))
      ensures changes == |old(spots)| - |spots|
      ensures changes == 0 <==> forall r :: r in old(spots) ==> !DeleteMatches(r, id, userId)
      ensures users == old(users) && requests == old(requests)
      ensures spotSeq == old(spotSeq) && requestSeq == old(requestSeq)
    {
      var before := spots;
      spots := Filter(spots, Survives(id, userId));
      changes := |before| - |spots|;
      FilterKeepsLength(before, Survives(id, userId));
    }
  }

  /** The module-level `db` handle of db.ts. */
  class Connection {
    var db: Store?

    ghost predicate Valid()
      reads this, db
    {
      db != null ==> db.Valid()
    }

    constructor ()
      ensures Valid() && db == null
    {
      db := null;
    }

    /** `getDb`: the first call opens the database and keeps the handle; every
        later call returns that same handle. */
    method GetDb() returns (d: Store)
      requires Valid()
      modifies this
      ensures Valid() && d.Valid()
      ensures db == d
      ensures old(db) != null ==> d == old(db)
      ensures old(db) == null ==>
        fresh(d) && d.spots == [] && d.users == [] && d.requests == [] && d.spotSeq == 0 && d.requestSeq == 0
    {
      if db != null {
        return db;
      }
      d := new Store();
      db := d;
    }
  }
}
