/** app/src/app/api/users/route.ts: report a location, list nearby users, switch sharing. */
module UsersRoute {
  import opened Js
  import opened Seqs
  import opened Db
  import opened Api

  /** The arguments POST hands to `updateUserLocation`. */
  datatype Location = Location(userId: Value, name: Value, latitude: Value, longitude: Value)

  /** POST's checks: falsy `userId` or `name`, or an undefined coordinate, is refused. */
  function CheckPost(body: RequestBody): (r: Checked<Location>)
    ensures body.Malformed? ==> r == Reject(Fail(500, "Failed to update user location"))
    ensures body.Json? ==>
      (r.Reject? <==> !Truthy(Field(body.fields, "userId")) || !Truthy(Field(body.fields, "name"))
                      || Field(body.fields, "latitude") == Undefined
                      || Field(body.fields, "longitude") == Undefined)
    ensures body.Json? && r.Reject? ==> r.response == Fail(400, "Missing required fields")
    ensures r.Accept? ==>
      && body.Json?
      && r.value == Location(Field(body.fields, "userId"), Field(body.fields, "name"),
                             Field(body.fields, "latitude"), Field(body.fields, "longitude"))
      && Truthy(r.value.userId) && Truthy(r.value.name)
  {
    match body
    case Malformed(_) => Reject(Fail(500, "Failed to update user location"))
    case Json(f) =>
      if !Truthy(Field(f, "userId")) || !Truthy(Field(f, "name"))
         || Field(f, "latitude") == Undefined || Field(f, "longitude") == Undefined
      then Reject(Fail(400, "Missing required fields"))
      else Accept(Location(Field(f, "userId"), Field(f, "name"), Field(f, "latitude"), Field(f, "longitude")))
  }

  /** POST: upserts the caller's row. */
  method Post(db: Store, body: RequestBody, now: int) returns (resp: Response)
    requires db.Valid()
    modifies db
    ensures db.Valid()
    ensures db.spots == old(db.spots) && db.requests == old(db.requests)
    ensures db.spotSeq == old(db.spotSeq) && db.requestSeq == old(db.requestSeq)
    ensures CheckPost(body).Reject? ==> resp == CheckPost(body).response && db.users == old(db.users)
    ensures CheckPost(body).Accept? ==>
      var l := CheckPost(body).value;
      && resp == Ok(Done)
      && db.users == Filter(old(db.users), OtherId(Bind(l.userId)))
                     + [UserRow(Bind(l.userId), Bind(l.name), Bind(l.latitude), Bind(l.longitude), now, true, Null)]
  {
    match CheckPost(body)
    case Reject(r) =>
      resp := r;
    case Accept(l) =>
      var ok := db.UpdateUserLocation(l.userId, l.name, l.latitude, l.longitude, now);
      assert ok;
      resp := Ok(Done);
  }

  /** `parseFloat(searchParams.get(key) || '0')` */
  function Coordinate(query: map<string, string>, key: string, parseFloat: string -> Number): (n: Number)
    ensures !Given(Param(query, key)) ==> n == parseFloat("0")
    ensures Given(Param(query, key)) ==> n == parseFloat(query[key])
  {
    var p := Param(query, key);
    parseFloat(if Given(p) then p.value else "0")
  }

  /** GET: the nearby users within the default 50 m. */
  method Get(db: Store, query: map<string, string>, parseFloat: string -> Number,
             distance: (Number, Number, Value, Value) -> Number) returns (resp: Response)
    ensures !Given(Param(query, "userId")) ==> resp == Fail(400, "User ID is required")
    ensures Given(Param(query, "userId")) ==>
      resp == Ok(Users(NearbyOf(db.users, query["userId"],
                                Coordinate(query, "latitude", parseFloat),
                                Coordinate(query, "longitude", parseFloat),
                                DefaultMaxDistance, distance)))
  {
    var userId := Param(query, "userId");
    var latitude := Coordinate(query, "latitude", parseFloat);
    var longitude := Coordinate(query, "longitude", parseFloat);
    if !Given(userId) {
      return Fail(400, "User ID is required");
    }
    var users := db.GetNearbyUsers(userId.value, latitude, longitude, DefaultMaxDistance, distance);
    resp := Ok(Users(users));
  }

  /** PATCH's checks: `userId` must be truthy and `isSharing` a boolean, `false` included. */
  function CheckPatch(body: RequestBody): (r: Checked<(Value, bool)>)
    ensures body.Malformed? ==> r == Reject(Fail(500, "Failed to update sharing status"))
    ensures body.Json? ==>
      (r.Accept? <==> Truthy(Field(body.fields, "userId")) && Field(body.fields, "isSharing").Bool?)
    ensures body.Json? && r.Reject? ==> r.response == Fail(400, "userId和isSharing必填")
    ensures r.Accept? ==>
      && body.Json?
      && r.value == (Field(body.fields, "userId"), Field(body.fields, "isSharing").b)
  {
    match body
    case Malformed(_) => Reject(Fail(500, "Failed to update sharing status"))
    case Json(f) =>
      if !Truthy(Field(f, "userId")) || !Field(f, "isSharing").Bool?
      then Reject(Fail(400, "userId和isSharing必填"))
      else Accept((Field(f, "userId"), Field(f, "isSharing").b))
  }

  /** PATCH: `setUserSharing(userId, isSharing)`. */
  method Patch(db: Store, body: RequestBody) returns (resp: Response)
    requires db.Valid()
    modifies db
    ensures db.Valid()
    ensures db.spots == old(db.spots) && db.requests == old(db.requests)
    ensures db.spotSeq == old(db.spotSeq) && db.requestSeq == old(db.requestSeq)
    ensures CheckPatch(body).Reject? ==> resp == CheckPatch(body).response && db.users == old(db.users)
    ensures CheckPatch(body).Accept? ==>
      resp == Ok(Done)
      && db.users == WithSharing(old(db.users), Bind(CheckPatch(body).value.0), CheckPatch(body).value.1)
  {
    match CheckPatch(body)
    case Reject(r) =>
      resp := r;
    case Accept((userId, isSharing)) =>
      db.SetUserSharing(userId, isSharing);
      resp := Ok(Done);
  }
}
