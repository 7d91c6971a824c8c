/** app/src/app/api/spots/route.ts: list, add and delete a user's spots. */
module SpotsRoute {
  import opened Js
  import opened Seqs
  import opened Db
  import opened Api

  const RequiredMessage: string := "userId, latitude, longitude 必填"

  /** GET: the caller's spots, newest first. */
  method Get(db: Store, query: map<string, string>) returns (resp: Response)
    ensures !Given(Param(query, "userId")) ==> resp == Fail(400, "User ID is required")
    ensures Given(Param(query, "userId")) ==>
      resp == Ok(Spots(SpotsOf(db.spots, Param(query, "userId").value)))
  {
    var userId := Param(query, "userId");
    if !Given(userId) {
      return Fail(400, "User ID is required");
    }
    var spots := db.GetSpotsByUser(userId.value);
    resp := Ok(Spots(spots));
  }

  /** The arguments POST hands to `addSpot`. */
  datatype NewSpot = NewSpot(
    userId: Value,
    latitude: Value,
    longitude: Value,
    fish_type: Value,
    bait: Value,
    environment: Value,
    rod: Value)

  /** A text column as POST passes it on: `value || ''`. */
  function OrEmpty(v: Value): (r: Value)
    ensures Truthy(v) ==> r == v
    ensures !Truthy(v) ==> r == Str("")
  {
    Or(v, Str(""))
  }

  /** POST's checks: a falsy `userId` or an undefined coordinate is refused; falsy
      text fields become empty strings. */
  function CheckPost(body: RequestBody): (r: Checked<NewSpot>)
    ensures body.Malformed? ==> r == Reject(Fail(500, "Failed to add spot"))
    ensures body.Json? ==>
      (r.Reject? <==> !Truthy(Field(body.fields, "userId"))
                      || Field(body.fields, "latitude") == Undefined
                      || Field(body.fields, "longitude") == Undefined)
    ensures body.Json? && r.Reject? ==> r.response == Fail(400, RequiredMessage)
    ensures r.Accept? ==>
      && body.Json?
      && r.value.userId == Field(body.fields, "userId")
      && r.value.latitude == Field(body.fields, "latitude")
      && r.value.longitude == Field(body.fields, "longitude")
      && r.value.fish_type == OrEmpty(Field(body.fields, "fish_type"))
      && r.value.bait == OrEmpty(Field(body.fields, "bait"))
      && r.value.environment == OrEmpty(Field(body.fields, "environment"))
      && r.value.rod == OrEmpty(Field(body.fields, "rod"))
  {
    match body
    case Malformed(_) => Reject(Fail(500, "Failed to add spot"))
    case Json(f) =>
      if !Truthy(Field(f, "userId")) || Field(f, "latitude") == Undefined || Field(f, "longitude") == Undefined
      then Reject(Fail(400, RequiredMessage))
      else Accept(NewSpot(Field(f, "userId"), Field(f, "latitude"), Field(f, "longitude"),
                          OrEmpty(Field(f, "fish_type")), OrEmpty(Field(f, "bait")),
                          OrEmpty(Field(f, "environment")), OrEmpty(Field(f, "rod"))))
  }

  /** A latitude or longitude of 0 passes the checks: only `undefined` is refused. */
  lemma ZeroCoordinateAccepted(fields: map<string, Value>)
    requires Truthy(Field(fields, "userId"))
    requires Field(fields, "latitude") == Num(Finite(0.0)) && Field(fields, "longitude") == Num(Finite(0.0))
    ensures CheckPost(Json(fields)).Accept?
  {
  }

  /** The row POST inserts for an accepted body. */
  function PostedRow(n: NewSpot, id: nat, now: int): SpotRow {
    SpotRow(id, Bind(n.userId), Bind(n.latitude), Bind(n.longitude),
            Bind(n.fish_type), Bind(n.bait), Bind(n.environment), Bind(n.rod), now)
  }

  /** POST: one new spot, or no change at all. */
  method Post(db: Store, body: RequestBody, now: int) returns (resp: Response)
    requires db.Valid()
    modifies db
    ensures db.Valid()
    ensures db.users == old(db.users) && db.requests == old(db.requests) && db.requestSeq == old(db.requestSeq)
    ensures CheckPost(body).Reject? ==>
      resp == CheckPost(body).response && db.spots == old(db.spots) && db.spotSeq == old(db.spotSeq)
    ensures CheckPost(body).Accept? ==>
      var n := CheckPost(body).value;
      if SpotInsertable(n.userId, n.latitude, n.longitude) then
        && resp == Ok(Created(old(db.spotSeq) + 1))
        && db.spots == old(db.spots) + [PostedRow(n, old(db.spotSeq) + 1, now)]
        && db.spotSeq == old(db.spotSeq) + 1
        && forall r :: r in old(db.spots) ==> r.id != old(db.spotSeq) + 1
      else
        resp == Fail(500, "Failed to add spot") && db.spots == old(db.spots) && db.spotSeq == old(db.spotSeq)
  {
    match CheckPost(body)
    case Reject(r) =>
      resp := r;
    case Accept(n) =>
      var id := db.AddSpot(n.userId, n.latitude, n.longitude, n.fish_type, n.bait, n.environment, n.rod, now);
      if id.None? {
        resp := Fail(500, "Failed to add spot");
      } else {
        resp := Ok(Created(id.value));
      }
  }

  /** DELETE: removes the spot only when both its id and its owner match. */
  method Delete(db: Store, query: map<string, string>) returns (resp: Response)
    requires db.Valid()
    modifies db
    ensures db.Valid()
    ensures db.users == old(db.users) && db.requests == old(db.requests)
    ensures db.spotSeq == old(db.spotSeq) && db.requestSeq == old(db.requestSeq)
    ensures !Given(Param(query, "id")) || !Given(Param(query, "userId")) ==>
      resp == Fail(400, "id and userId required") && db.spots == old(db.spots)
    ensures Given(Param(query, "id")) && Given(Param(query, "userId")) ==>
      var id, userId := Param(query, "id").value, Param(query, "userId").value;
      && db.spots == Filter(old(db.spots), Survives(id, userId))
      && (resp == Ok(Done) <==> exists r :: r in old(db.spots) && DeleteMatches(r, id, userId))
      && (resp != Ok(Done) ==> resp == Fail(404, "Not found or not allowed") && db.spots == old(db.spots))
  {
    var id, userId := Param(query, "id"), Param(query, "userId");
    if !Given(id) || !Given(userId) {
      return Fail(400, "id and userId required");
    }
    var changes := db.DeleteSpot(id.value, userId.value);
    if changes > 0 {
      resp := Ok(Done);
    } else {
      FilterKeepsLength(old(db.spots), Survives(id.value, userId.value));
      resp := Fail(404, "Not found or not allowed");
    }
  }

  /** A spot that is not the caller's survives their DELETE. */
  lemma DeleteSparesOthers(spots: seq<SpotRow>, id: string, userId: string, r: SpotRow)
    requires r in spots && r.user_id != Str(userId)
    ensures r in Filter(spots, Survives(id, userId))
  {
  }
}
