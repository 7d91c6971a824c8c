/** app/src/app/api/exchange/route.ts: send and list spot-exchange requests. */
module ExchangeRoute {
  import opened Js
  import opened Db
  import opened Api

  /** The arguments POST hands to `sendExchangeRequest`. */
  datatype NewRequest = NewRequest(fromUserId: Value, toUserId: Value, message: Value)

  /** POST's checks: all three fields must be truthy. */
  function CheckPost(body: RequestBody): (r: Checked<NewRequest>)
    ensures body.Malformed? ==> r == Reject(Fail(500, "Failed to send exchange request"))
    ensures body.Json? ==>
      (r.Accept? <==> Truthy(Field(body.fields, "fromUserId")) && Truthy(Field(body.fields, "toUserId"))
                      && Truthy(Field(body.fields, "message")))
    ensures body.Json? && r.Reject? ==> r.response == Fail(400, "Missing required fields")
    ensures r.Accept? ==> body.Json? && r.value == NewRequest(Field(body.fields, "fromUserId"),
                                                              Field(body.fields, "toUserId"),
                                                              Field(body.fields, "message"))
  {
    match body
    case Malformed(_) => Reject(Fail(500, "Failed to send exchange request"))
    case Json(f) =>
      if !Truthy(Field(f, "fromUserId")) || !Truthy(Field(f, "toUserId")) || !Truthy(Field(f, "message"))
      then Reject(Fail(400, "Missing required fields"))
      else Accept(NewRequest(Field(f, "fromUserId"), Field(f, "toUserId"), Field(f, "message")))
  }

  /** POST: records one pending request and answers with its id. */
  method Post(db: Store, body: RequestBody, now: int) returns (resp: Response)
    requires db.Valid()
    modifies db
    ensures db.Valid()
    ensures db.spots == old(db.spots) && db.users == old(db.users) && db.spotSeq == old(db.spotSeq)
    ensures CheckPost(body).Reject? ==>
      resp == CheckPost(body).response && db.requests == old(db.requests) && db.requestSeq == old(db.requestSeq)
    ensures CheckPost(body).Accept? ==>
      var n := CheckPost(body).value;
      var id := old(db.requestSeq) + 1;
      && resp == Ok(RequestCreated(id))
      && db.requestSeq == id
      && db.requests == old(db.requests) + [RequestRow(id, Bind(n.fromUserId), Bind(n.toUserId), Bind(n.message), Pending, now)]
      && forall q :: q in old(db.requests) ==> q.id != id
  {
    match CheckPost(body)
    case Reject(r) =>
      resp := r;
    case Accept(n) =>
      var id := db.SendExchangeRequest(n.fromUserId, n.toUserId, n.message, now);
      resp := Ok(RequestCreated(id.value));
  }

  /** GET: the requests addressed to the caller, newest first. */
  method Get(db: Store, query: map<string, string>) returns (resp: Response)
    ensures !Given(Param(query, "userId")) ==> resp == Fail(400, "User ID is required")
    ensures Given(Param(query, "userId")) ==>
      resp == Ok(Requests(RequestsFor(db.requests, db.users, query["userId"])))
  {
    var userId := Param(query, "userId");
    if !Given(userId) {
      return Fail(400, "User ID is required");
    }
    var requests := db.GetExchangeRequests(userId.value);
    resp := Ok(Requests(requests));
  }
}
