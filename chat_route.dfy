/** app/src/app/api/chat/route.ts: turn a free-text catch report into a spot,
    with a language model extracting the fields. */
module ChatRoute {
  import opened Js
  import opened Db
  import opened Api
  import SpotsRoute

  /** What the chat-completion call produced: it threw (with the error's
      `message`), or it answered with the first choice's content, possibly null. */
  datatype Completion = CallThrows(message: string) | Reply(content: Option<string>)

  /** `JSON.parse(content)`: a syntax error, `null`, or any other value, whose
      own properties are what the destructuring finds (none for a primitive). */
  datatype Parsed = NotJson | JsonNull | Record(fields: map<string, Value>)

  const InternalError: string := "Internal Server Error: "

  /** `error.message || 'An unexpected error occurred'` */
  function ErrorText(message: string): (r: string)
    ensures message != "" ==> r == message
    ensures message == "" ==> r == "An unexpected error occurred"
  {
    if message != "" then message else "An unexpected error occurred"
  }

  /** What the handler does: answer without touching the store, or insert a spot. */
  datatype Plan = Answer(response: Response) | Insert(spot: SpotsRoute.NewSpot)

  /** The request's own checks, before the model is consulted. */
  predicate Complete(f: map<string, Value>) {
    Truthy(Field(f, "message")) && Field(f, "latitude") != Undefined
    && Field(f, "longitude") != Undefined && Truthy(Field(f, "userId"))
  }

  /** The handler up to the insert. `parse` is `JSON.parse`, `toNumber` is
      StringToNumber, and `nullError` is the message of the TypeError thrown when
      the reply parses to `null` and is destructured. */
  function PlanFor(body: RequestBody, completion: Completion, parse: string -> Parsed,
                   toNumber: string -> Number, nullError: string): (p: Plan)
    ensures body.Malformed? ==> p == Answer(Fail(500, InternalError + ErrorText(body.message)))
    ensures body.Json? && !Complete(body.fields) ==>
      p == Answer(Fail(400, "Message, location and userId are required"))
    ensures body.Json? && Complete(body.fields)
            && (IsNaN(ToNumber(Field(body.fields, "latitude"), toNumber))
                || IsNaN(ToNumber(Field(body.fields, "longitude"), toNumber))) ==>
      p == Answer(Fail(400, "Invalid coordinates"))
    ensures p.Insert? <==>
      && body.Json? && Complete(body.fields)
      && !IsNaN(ToNumber(Field(body.fields, "latitude"), toNumber))
      && !IsNaN(ToNumber(Field(body.fields, "longitude"), toNumber))
      && completion.Reply? && completion.content.Some? && completion.content.value != ""
      && parse(completion.content.value).Record?
    ensures p.Insert? ==>
      var f, rec := body.fields, parse(completion.content.value).fields;
      && p.spot.userId == Field(f, "userId")
      && p.spot.latitude == Num(ToNumber(Field(f, "latitude"), toNumber))
      && p.spot.longitude == Num(ToNumber(Field(f, "longitude"), toNumber))
      && p.spot.fish_type == Field(rec, "fish_type")
      && p.spot.bait == Field(rec, "bait")
      && p.spot.environment == Field(rec, "environment")
      && p.spot.rod == Field(rec, "rod")
    ensures body.Json? && Complete(body.fields)
            && !IsNaN(ToNumber(Field(body.fields, "latitude"), toNumber))
            && !IsNaN(ToNumber(Field(body.fields, "longitude"), toNumber)) ==>
      && (completion.CallThrows? ==> p == Answer(Fail(500, InternalError + ErrorText(completion.message))))
      && (completion.Reply? && (completion.content.None? || completion.content.value == "") ==>
            p == Answer(Fail(500, "AI returned empty content")))
      && (completion.Reply? && completion.content.Some? && completion.content.value != "" ==>
            && (parse(completion.content.value).NotJson? ==> p == Answer(Fail(500, "AI response is not valid JSON")))
            && (parse(completion.content.value).JsonNull? ==>
                  p == Answer(Fail(500, InternalError + ErrorText(nullError)))))
    ensures p.Answer? ==> p.response.status == 400 || p.response.status == 500
  {
    match body
    case Malformed(m) => Answer(Fail(500, InternalError + ErrorText(m)))
    case Json(f) =>
      if !Complete(f) then
        Answer(Fail(400, "Message, location and userId are required"))
      else
        var lat := ToNumber(Field(f, "latitude"), toNumber);
        var lng := ToNumber(Field(f, "longitude"), toNumber);
        if IsNaN(lat) || IsNaN(lng) then
          Answer(Fail(400, "Invalid coordinates"))
        else
          match completion
          case CallThrows(m) => Answer(Fail(500, InternalError + ErrorText(m)))
          case Reply(content) =>
            if content.None? || content.value == "" then
              Answer(Fail(500, "AI returned empty content"))
            else
              match parse(content.value)
              case NotJson => Answer(Fail(500, "AI response is not valid JSON"))
              case JsonNull => Answer(Fail(500, InternalError + ErrorText(nullError)))
              case Record(rec) =>
                Insert(SpotsRoute.NewSpot(Field(f, "userId"), Num(lat), Num(lng),
                                          Field(rec, "fish_type"), Field(rec, "bait"),
                                          Field(rec, "environment"), Field(rec, "rod")))
  }

  /** A request that fails its own checks is answered the same whatever the
      model would have said: the model is consulted only after them. */
  lemma RefusedBeforeModel(body: RequestBody, c1: Completion, c2: Completion, parse: string -> Parsed,
                           toNumber: string -> Number, nullError: string)
    requires body.Malformed? || !Complete(body.fields)
             || IsNaN(ToNumber(Field(body.fields, "latitude"), toNumber))
             || IsNaN(ToNumber(Field(body.fields, "longitude"), toNumber))
    ensures PlanFor(body, c1, parse, toNumber, nullError) == PlanFor(body, c2, parse, toNumber, nullError)
    ensures PlanFor(body, c1, parse, toNumber, nullError).Answer?
  {
  }

  /** A planned insert always satisfies the store's NOT NULL columns. */
  lemma PlannedInsertSucceeds(body: RequestBody, completion: Completion, parse: string -> Parsed,
                              toNumber: string -> Number, nullError: string)
    requires PlanFor(body, completion, parse, toNumber, nullError).Insert?
    ensures var n := PlanFor(body, completion, parse, toNumber, nullError).spot;
      SpotInsertable(n.userId, n.latitude, n.longitude)
  {
    var n := PlanFor(body, completion, parse, toNumber, nullError).spot;
    assert Truthy(n.userId);
  }

  /** Looking a fresh id up after appending its row finds that row. */
  lemma {:induction false} SpotByIdAppended(spots: seq<SpotRow>, r: SpotRow)
    requires forall x :: x in spots ==> x.id != r.id
    ensures SpotById(spots + [r], r.id) == Some(r)
  {
    if spots == [] {
      assert spots + [r] == [r];
    } else {
      assert (spots + [r])[0] == spots[0];
      assert (spots + [r])[1..] == spots[1..] + [r];
      SpotByIdAppended(spots[1..], r);
    }
  }

  /** POST: the inserted spot, read back by its new id. */
  method Post(db: Store, body: RequestBody, completion: Completion, parse: string -> Parsed,
              toNumber: string -> Number, nullError: string, now: int) returns (resp: Response)
    requires db.Valid()
    modifies db
    ensures db.Valid()
    ensures db.users == old(db.users) && db.requests == old(db.requests) && db.requestSeq == old(db.requestSeq)
    ensures PlanFor(body, completion, parse, toNumber, nullError).Answer? ==>
      resp == PlanFor(body, completion, parse, toNumber, nullError).response
      && db.spots == old(db.spots) && db.spotSeq == old(db.spotSeq)
    ensures PlanFor(body, completion, parse, toNumber, nullError).Insert? ==>
      var row := SpotsRoute.PostedRow(PlanFor(body, completion, parse, toNumber, nullError).spot,
                                      old(db.spotSeq) + 1, now);
      && db.spots == old(db.spots) + [row]
      && db.spotSeq == old(db.spotSeq) + 1
      && resp == Ok(Spot(Some(row)))
  {
    match PlanFor(body, completion, parse, toNumber, nullError)
    case Answer(r) =>
      resp := r;
    case Insert(n) =>
      PlannedInsertSucceeds(body, completion, parse, toNumber, nullError);
      var id := db.AddSpot(n.userId, n.latitude, n.longitude, n.fish_type, n.bait, n.environment, n.rod, now);
      SpotByIdAppended(old(db.spots), SpotsRoute.PostedRow(n, id.value, now));
      var row := SpotById(db.spots, id.value);
      resp := Ok(Spot(row));
  }
}
