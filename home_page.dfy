/** app/src/app/page.tsx: the home page's list of spots, the markers derived
    from it, and the delete and sharing actions of the current user. */
module HomePage {
  import opened Js
  import opened Seqs
  import opened Text
  import opened Db
  import opened Api
  import UsersRoute

  /** The current user as the page holds it. */
  datatype ClientUser = ClientUser(
    id: string,
    name: string,
    latitude: Number,
    longitude: Number,
    lastSeen: string,
    isOnline: bool,
    is_sharing: Option<bool>)

  /** `handleAddSpot`: the new spot goes in front of the previous ones. */
  function AddSpot(prev: seq<SpotRow>, newSpot: SpotRow): (r: seq<SpotRow>)
    ensures |r| == |prev| + 1
    ensures r[0] == newSpot && r[1..] == prev
    ensures multiset(r) == multiset(prev) + multiset{newSpot}
  {
    [newSpot] + prev
  }

  /** The `filter` callback of `handleDeleteSpot`. */
  function OtherSpot(id: nat): SpotRow -> bool {
    (s: SpotRow) => s.id != id
  }

  /** How `handleDeleteSpot` ends. */
  datatype DeleteOutcome =
    | NoUser                         // no current user: nothing is requested
    | Deleted(spots: seq<SpotRow>)   // ok response: the list without that id
    | DeleteFailed                   // any other response: the list is kept

  /** `handleDeleteSpot(id)`; `responseOk` is `res.ok` of the DELETE request. */
  function HandleDelete(currentUser: Option<ClientUser>, spots: seq<SpotRow>, id: nat, responseOk: bool)
    : (r: DeleteOutcome)
    ensures currentUser.None? <==> r == NoUser
    ensures currentUser.Some? && !responseOk ==> r == DeleteFailed
    ensures currentUser.Some? && responseOk ==> r == Deleted(Filter(spots, OtherSpot(id)))
    ensures r.Deleted? ==>
      && currentUser.Some? && responseOk
      && r.spots == Filter(spots, OtherSpot(id))
      && (forall s :: s in r.spots <==> s in spots && s.id != id)
  {
    if currentUser.None? then NoUser
    else if responseOk then Deleted(Filter(spots, OtherSpot(id)))
    else DeleteFailed
  }

  /** Deleting a spot just added, whose id the list did not hold, gives the
      list back. */
  lemma DeleteUndoesAdd(user: ClientUser, prev: seq<SpotRow>, newSpot: SpotRow)
    requires forall s :: s in prev ==> s.id != newSpot.id
    ensures HandleDelete(Some(user), AddSpot(prev, newSpot), newSpot.id, true) == Deleted(prev)
  {
    assert AddSpot(prev, newSpot)[1..] == prev;
    FilterKeepsLength(prev, OtherSpot(newSpot.id));
  }

  /** The spots before and after a deleted one keep their relative order. */
  lemma DeleteKeepsOrder(before: seq<SpotRow>, x: SpotRow, after: seq<SpotRow>)
    ensures Filter(before + [x] + after, OtherSpot(x.id))
         == Filter(before, OtherSpot(x.id)) + Filter(after, OtherSpot(x.id))
  {
    var p := OtherSpot(x.id);
    assert !p(x);
    FilterSnoc(before, x, p);
    assert Filter(before + [x], p) == Filter(before, p);
    FilterConcat(before + [x], after, p);
  }

  /** The query of the DELETE request: `?id=${id}&userId=${currentUser.id}`. */
  function DeleteQuery(id: nat, user: ClientUser): map<string, string> {
    map["id" := IntToString(id), "userId" := user.id]
  }

  /** The request removes, on the server, exactly the caller's row with that id. */
  lemma DeleteQueryTargetsSpot(id: nat, user: ClientUser, r: SpotRow)
    ensures Param(DeleteQuery(id, user), "id") == Some(IntToString(id))
    ensures DeleteMatches(r, IntToString(id), user.id) <==> r.id == id && r.user_id == Str(user.id)
  {
    DecimalIntegerRoundTrip(id);
  }

  /** Whether the PATCH request of the toggle threw (a network failure); a
      response with an error status does not throw. */
  datatype PatchResult = Resolved | Threw

  /** `handleToggleSharing(isSharing)`: the states handed to `setCurrentUser`,
      in order. The optimistic state comes first; a thrown request is followed
      by the opposite value, set on a copy of the user as it was before. */
  function ToggleSharing(currentUser: Option<ClientUser>, isSharing: bool, result: PatchResult)
    : (states: seq<ClientUser>)
    ensures currentUser.None? ==> states == []
    ensures currentUser.Some? ==>
      && |states| == (if result == Threw then 2 else 1)
      && states[0] == currentUser.value.(is_sharing := Some(isSharing))
      && (result == Threw ==> states[1] == currentUser.value.(is_sharing := Some(!isSharing)))
    ensures forall k :: 0 <= k < |states| ==> states[k].(is_sharing := currentUser.value.is_sharing) == currentUser.value
  {
    match currentUser
    case None => []
    case Some(u) =>
      [u.(is_sharing := Some(isSharing))]
      + (if result == Threw then [u.(is_sharing := Some(!isSharing))] else [])
  }

  /** The state the toggle leaves: the requested value unless the request threw. */
  lemma ToggleFinalState(u: ClientUser, isSharing: bool, result: PatchResult)
    ensures var states := ToggleSharing(Some(u), isSharing, result);
      states[|states| - 1].is_sharing == Some(if result == Resolved then isSharing else !isSharing)
  {
  }

  /** The rollback writes the negation of the request, not the previous value:
      a user who was not sharing and asks not to share ends up sharing. */
  lemma RollbackIsNotRestore(u: ClientUser)
    requires u.is_sharing == Some(false)
    ensures var states := ToggleSharing(Some(u), false, Threw);
      states[|states| - 1] != u && states[|states| - 1].is_sharing == Some(true)
  {
  }

  /** The body of the toggle's PATCH request. */
  function TogglePatch(u: ClientUser, isSharing: bool): RequestBody {
    Json(map["userId" := Str(u.id), "isSharing" := Bool(isSharing)])
  }

  /** The users route accepts the toggle's request for a user with an id, with
      the requested value. */
  lemma TogglePatchAccepted(u: ClientUser, isSharing: bool)
    requires u.id != ""
    ensures UsersRoute.CheckPatch(TogglePatch(u, isSharing)) == Accept((Str(u.id), isSharing))
  {
    var f := TogglePatch(u, isSharing).fields;
    assert Field(f, "userId") == Str(u.id) && Field(f, "isSharing") == Bool(isSharing);
  }

  /** A map marker: its position and popup text. */
  datatype Marker = Marker(position: (Value, Value), popupContent: string)

  const Unknown: string := "未知"

  /** `${value || '未知'}` */
  function Shown(v: Value, nts: Number -> string): (r: string)
    ensures !Truthy(v) ==> r == Unknown
    ensures Truthy(v) ==> r == Template(v, nts)
  {
    Template(Or(v, Str(Unknown)), nts)
  }

  /** The popup text of a spot: fish, bait and environment; the rod is not shown. */
  function Popup(s: SpotRow, nts: Number -> string): string {
    "鱼类: " + Shown(s.fish_type, nts) + " | 鱼饵: " + Shown(s.bait, nts) + " | 环境: " + Shown(s.environment, nts)
  }

  /** `spots.map(...)`: one marker per spot, in order. */
  function Markers(spots: seq<SpotRow>, nts: Number -> string): (r: seq<Marker>)
    ensures |r| == |spots|
    ensures forall i :: 0 <= i < |spots| ==>
      r[i].position == (spots[i].latitude, spots[i].longitude) && r[i].popupContent == Popup(spots[i], nts)
  {
    seq(|spots|, i requires 0 <= i < |spots| => Marker((spots[i].latitude, spots[i].longitude), Popup(spots[i], nts)))
  }

  /** The popup does not depend on the rod. */
  lemma PopupIgnoresRod(s: SpotRow, rod: Value, nts: Number -> string)
    ensures Popup(s.(rod := rod), nts) == Popup(s, nts)
  {
  }

  /** With no `|` in the shown field texts the popup has exactly three lines,
      one per field. */
  lemma PopupThreeLines(s: SpotRow, nts: Number -> string)
    requires '|' !in Shown(s.fish_type, nts) && '|' !in Shown(s.bait, nts) && '|' !in Shown(s.environment, nts)
    ensures Split(Popup(s, nts), " | ")
      == ["鱼类: " + Shown(s.fish_type, nts), "鱼饵: " + Shown(s.bait, nts), "环境: " + Shown(s.environment, nts)]
  {
    var a, b, c := "鱼类: " + Shown(s.fish_type, nts), "鱼饵: " + Shown(s.bait, nts), "环境: " + Shown(s.environment, nts);
    assert Popup(s, nts) == a + " | " + b + " | " + c;
    assert '|' !in a && '|' !in b && '|' !in c;
    JoinThree(a, b, c);
    SplitJoin([a, b, c], " | ", '|', 1);
  }

  /** A field text that begins with `| ` adds a line, although it does not
      contain `' | '`: the space before it belongs to the label. */
  lemma PopupExtraLine(s: SpotRow, nts: Number -> string)
    requires s.fish_type == Str("| x") && !Truthy(s.bait) && !Truthy(s.environment)
    ensures Split(Popup(s, nts), " | ") == ["鱼类:", "x", "鱼饵: 未知", "环境: 未知"]
  {
    var parts := ["鱼类:", "x", "鱼饵: 未知", "环境: 未知"];
    ExtraLineText(s, nts);
    assert forall k :: 0 <= k < |parts| ==> '|' !in parts[k];
    SplitJoin(parts, " | ", '|', 1);
  }

  /** The popup text of the spot of `PopupExtraLine`, as four joined pieces. */
  lemma ExtraLineText(s: SpotRow, nts: Number -> string)
    requires s.fish_type == Str("| x") && !Truthy(s.bait) && !Truthy(s.environment)
    ensures Popup(s, nts) == Join(["鱼类:", "x", "鱼饵: 未知", "环境: 未知"], " | ")
  {
    assert Shown(s.fish_type, nts) == "| x";
    JoinFour("鱼类:", "x", "鱼饵: 未知", "环境: 未知");
  }

  /** Three pieces joined by `' | '`. */
  lemma JoinThree(a: string, b: string, c: string)
    ensures Join([a, b, c], " | ") == a + " | " + b + " | " + c
  {
    assert [a, b, c][1..] == [b, c] && [b, c][1..] == [c];
    assert Join([b, c], " | ") == b + " | " + c;
  }

  /** Four pieces joined by `' | '`. */
  lemma JoinFour(a: string, b: string, c: string, d: string)
    ensures Join([a, b, c, d], " | ") == a + " | " + b + " | " + c + " | " + d
  {
    assert [a, b, c, d][1..] == [b, c, d];
    JoinThree(b, c, d);
  }
}
