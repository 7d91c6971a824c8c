/** app/src/components/Map.tsx: pulling a sharing peer's spots into one's own
    list when the peer's marker is clicked, and the lines of a spot's popup. */
module MapView {
  import opened Js
  import opened Seqs
  import opened Text
  import opened Db
  import opened Api
  import SpotsRoute

  /** The identity of a spot for the pull: its coordinates and four text fields
      rendered by a template literal and joined by `_`, the rod before the
      environment. `nts` is Number::toString. */
  function SpotKey(s: SpotRow, nts: Number -> string): string {
    Template(s.latitude, nts) + "_" + Template(s.longitude, nts) + "_" + Template(s.fish_type, nts)
    + "_" + Template(s.bait, nts) + "_" + Template(s.rod, nts) + "_" + Template(s.environment, nts)
  }

  /** `new Set(mySpots.map(key))` */
  function KeySet(mine: seq<SpotRow>, nts: Number -> string): (keys: set<string>)
    ensures forall s :: s in mine ==> SpotKey(s, nts) in keys
    ensures forall k :: k in keys ==> exists s :: s in mine && SpotKey(s, nts) == k
  {
    set s | s in mine :: SpotKey(s, nts)
  }

  /** A peer spot whose key the caller's set does not hold. */
  function Absent(keys: set<string>, nts: Number -> string): SpotRow -> bool {
    s => SpotKey(s, nts) !in keys
  }

  /** The body of one `POST /api/spots` the pull issues. */
  datatype SpotPost = SpotPost(
    userId: string,
    latitude: Value,
    longitude: Value,
    fish_type: Value,
    bait: Value,
    environment: Value,
    rod: Value)

  /** A copy of the peer spot `s` attributed to `userId`. */
  function CopyOf(s: SpotRow, userId: string): (p: SpotPost)
    ensures p.userId == userId
    ensures p.latitude == s.latitude && p.longitude == s.longitude
    ensures p.fish_type == s.fish_type && p.bait == s.bait && p.environment == s.environment && p.rod == s.rod
  {
    SpotPost(userId, s.latitude, s.longitude, s.fish_type, s.bait, s.environment, s.rod)
  }

  /** The request body the spots route receives for a post. */
  function BodyOf(p: SpotPost): RequestBody {
    Json(map["userId" := Str(p.userId), "latitude" := p.latitude, "longitude" := p.longitude,
             "fish_type" := p.fish_type, "bait" := p.bait, "environment" := p.environment, "rod" := p.rod])
  }

  /** One post per spot, in order. */
  function PostsOf(spots: seq<SpotRow>, userId: string): (r: seq<SpotPost>)
    ensures |r| == |spots|
    ensures forall i :: 0 <= i < |spots| ==> r[i] == CopyOf(spots[i], userId)
  {
    seq(|spots|, i requires 0 <= i < |spots| => CopyOf(spots[i], userId))
  }

  /** How a click on a peer's marker ends. */
  datatype Pull =
    | NotSharing              // the peer does not share: nothing happens
    | NotLoggedIn             // no current user: "please log in"
    | OwnMarker               // the peer is the caller: "cannot pull your own spots"
    | PeerFetchFailed         // the peer's spots could not be fetched
    | Pulled(posts: seq<SpotPost>, newCount: nat, refreshed: bool)

  /** `!currentUserId` fails for a missing or empty id. */
  predicate LoggedIn(currentUserId: Option<string>) {
    currentUserId.Some? && currentUserId.value != ""
  }

  /** Concatenated spot lists give concatenated posts. */
  lemma PostsOfConcat(a: seq<SpotRow>, b: seq<SpotRow>, userId: string)
    ensures PostsOf(a + b, userId) == PostsOf(a, userId) + PostsOf(b, userId)
  {
  }

  /** The posts the loop has issued after visiting `spots`: one copy, in
      order, of every spot that `absent` selects. */
  function Copies(spots: seq<SpotRow>, absent: SpotRow -> bool, userId: string): seq<SpotPost>
  {
    if spots == [] then []
    else
      var last := spots[|spots| - 1];
      Copies(spots[..|spots| - 1], absent, userId) + (if absent(last) then [CopyOf(last, userId)] else [])
  }

  /** Appending a spot, or nothing, to the kept spots appends its copy, or
      nothing, to their posts. */
  lemma PostsOfSnoc(posts: seq<SpotPost>, kept: seq<SpotRow>, last: SpotRow, take: bool, userId: string)
    requires posts == PostsOf(kept, userId)
    ensures posts + (if take then [CopyOf(last, userId)] else [])
         == PostsOf(kept + (if take then [last] else []), userId)
  {
    if take {
      PostsOfConcat(kept, [last], userId);
    } else {
      assert kept + [] == kept;
    }
  }

  /** The loop's posts are the copies of the filtered peer list. */
  lemma {:induction false} CopiesAreFiltered(spots: seq<SpotRow>, absent: SpotRow -> bool, userId: string)
    ensures Copies(spots, absent, userId) == PostsOf(Filter(spots, absent), userId)
  {
    if spots != [] {
      var prefix, last := spots[..|spots| - 1], spots[|spots| - 1];
      assert spots == prefix + [last];
      CopiesAreFiltered(prefix, absent, userId);
      FilterSnoc(prefix, last, absent);
      PostsOfSnoc(Copies(prefix, absent, userId), Filter(prefix, absent), last, absent(last), userId);
    }
  }

  /** The loop of the handler: one post, in peer-list order, for every peer
      spot whose key is not in `keys`; `keys` is never updated. */
  method CopyAbsent(spots: seq<SpotRow>, keys: set<string>, userId: string, nts: Number -> string)
    returns (posts: seq<SpotPost>, newCount: nat)
    ensures posts == Copies(spots, Absent(keys, nts), userId)
    ensures newCount == |posts|
  {
    posts := [];
    newCount := 0;
    for i := 0 to |spots|
      invariant posts == Copies(spots[..i], Absent(keys, nts), userId)
      invariant newCount == |posts|
    {
      assert spots[..i + 1][..i] == spots[..i];
      var key := SpotKey(spots[i], nts);
      if key !in keys {
        posts := posts + [CopyOf(spots[i], userId)];
        newCount := newCount + 1;
      }
    }
    assert spots[..|spots|] == spots;
  }

  /** The click handler. `peerSpots` is the peer's list, `None` when that fetch
      is not ok; `mySpots` is the caller's own list, `None` when that fetch is
      not ok. */
  method PullSharedSpots(peer: UserRow, currentUserId: Option<string>,
                         peerSpots: Option<seq<SpotRow>>, mySpots: Option<seq<SpotRow>>,
                         nts: Number -> string) returns (outcome: Pull)
    ensures !Truthy(peer.is_sharing) ==> outcome == NotSharing
    ensures Truthy(peer.is_sharing) && !LoggedIn(currentUserId) ==> outcome == NotLoggedIn
    ensures Truthy(peer.is_sharing) && LoggedIn(currentUserId) && peer.id == Str(currentUserId.value) ==>
      outcome == OwnMarker
    ensures (Truthy(peer.is_sharing) && LoggedIn(currentUserId) && peer.id != Str(currentUserId.value)
             && peerSpots.None?) ==> outcome == PeerFetchFailed
    ensures outcome.Pulled? <==>
      Truthy(peer.is_sharing) && LoggedIn(currentUserId) && peer.id != Str(currentUserId.value) && peerSpots.Some?
    ensures outcome.Pulled? ==>
      var mine := if mySpots.Some? then mySpots.value else [];
      var copied := Filter(peerSpots.value, Absent(KeySet(mine, nts), nts));
      && outcome.posts == PostsOf(copied, currentUserId.value)
      && outcome.newCount == |copied|
      && (outcome.refreshed <==> outcome.newCount > 0)
      && (forall s :: multiset(copied)[s] ==
            if SpotKey(s, nts) in KeySet(mine, nts) then 0 else multiset(peerSpots.value)[s])
    ensures outcome.Pulled? && mySpots.None? ==>
      outcome.posts == PostsOf(peerSpots.value, currentUserId.value)
  {
    if !Truthy(peer.is_sharing) {
      return NotSharing;
    }
    if !LoggedIn(currentUserId) {
      return NotLoggedIn;
    }
    var cur := currentUserId.value;
    if peer.id == Str(cur) {
      return OwnMarker;
    }
    if peerSpots.None? {
      return PeerFetchFailed;
    }
    var spots := peerSpots.value;
    var mine := if mySpots.Some? then mySpots.value else [];
    var keys := KeySet(mine, nts);
    var posts, newCount := CopyAbsent(spots, keys, cur, nts);
    CopiesAreFiltered(spots, Absent(keys, nts), cur);
    FilterCount(spots, Absent(keys, nts));
    if mySpots.None? {
      assert keys == {};
      FilterKeepsLength(spots, Absent(keys, nts));
    }
    outcome := Pulled(posts, newCount, newCount > 0);
  }

  /** Two spots that agree on the six key fields have the same key. */
  predicate SameKeyFields(a: SpotRow, b: SpotRow) {
    a.latitude == b.latitude && a.longitude == b.longitude && a.fish_type == b.fish_type
    && a.bait == b.bait && a.rod == b.rod && a.environment == b.environment
  }

  /** A peer spot that duplicates one of the caller's spots field for field is
      never copied. */
  lemma ExactDuplicateNeverCopied(peer: seq<SpotRow>, mine: seq<SpotRow>, x: SpotRow, y: SpotRow,
                                  nts: Number -> string)
    requires y in mine && SameKeyFields(x, y)
    ensures x !in Filter(peer, Absent(KeySet(mine, nts), nts))
  {
    assert SpotKey(x, nts) == SpotKey(y, nts);
  }

  /** A filter over `[a, b, a]` that takes `a` and rejects `b`. */
  lemma FilterABA(a: SpotRow, b: SpotRow, p: SpotRow -> bool)
    requires p(a) && !p(b)
    ensures Filter([a, b, a], p) == [a, a]
  {
    assert [a, b, a][1..] == [b, a] && [b, a][1..] == [a] && [a][1..] == [];
  }

  /** The key set is not updated by the loop: a peer spot listed twice whose key
      the caller lacks is copied twice, and one the caller has is not copied. */
  lemma RepeatedKeyCopiedTwice(a: SpotRow, b: SpotRow, nts: Number -> string)
    requires SpotKey(a, nts) != SpotKey(b, nts)
    ensures Filter([a, b, a], Absent(KeySet([b], nts), nts)) == [a, a]
  {
    var keys := KeySet([b], nts);
    assert keys == {SpotKey(b, nts)};
    FilterABA(a, b, Absent(keys, nts));
  }

  /** The key does not tell spots apart when `_` occurs inside a field. */
  lemma KeyNotInjective(nts: Number -> string)
    ensures var a := SpotRow(1, Str("u"), Null, Null, Str("a_b"), Str("c"), Null, Null, 0);
            var b := a.(fish_type := Str("a"), bait := Str("b_c"));
            !SameKeyFields(a, b) && SpotKey(a, nts) == SpotKey(b, nts)
  {
    var a := SpotRow(1, Str("u"), Null, Null, Str("a_b"), Str("c"), Null, Null, 0);
    var b := a.(fish_type := Str("a"), bait := Str("b_c"));
    assert Template(a.fish_type, nts) + "_" + Template(a.bait, nts) == Template(b.fish_type, nts) + "_" + Template(b.bait, nts);
  }

  /** The length of a key: its six fields and five separators. */
  lemma KeyLength(s: SpotRow, nts: Number -> string)
    ensures |SpotKey(s, nts)| == |Template(s.latitude, nts)| + |Template(s.longitude, nts)|
      + |Template(s.fish_type, nts)| + |Template(s.bait, nts)| + |Template(s.rod, nts)|
      + |Template(s.environment, nts)| + 5
  {
  }

  /** A text field as the spots route stores a copy of it: `null` becomes `''`,
      other text is kept. */
  lemma StoredText(v: Value, nts: Number -> string)
    requires v.Null? || v.Str?
    ensures v.Str? ==> Bind(SpotsRoute.OrEmpty(v)) == v
    ensures v.Null? ==> |Template(Bind(SpotsRoute.OrEmpty(v)), nts)| + 4 == |Template(v, nts)|
  {
  }

  /** What the spots route makes of a copy's body: the caller as owner, the
      coordinates as they were, and each falsy text field as `''`. */
  lemma CopyAccepted(x: SpotRow, userId: string)
    requires userId != "" && x.latitude.Num? && x.longitude.Num?
    ensures SpotsRoute.CheckPost(BodyOf(CopyOf(x, userId)))
      == Accept(SpotsRoute.NewSpot(Str(userId), x.latitude, x.longitude,
                SpotsRoute.OrEmpty(x.fish_type), SpotsRoute.OrEmpty(x.bait),
                SpotsRoute.OrEmpty(x.environment), SpotsRoute.OrEmpty(x.rod)))
  {
    var f := BodyOf(CopyOf(x, userId)).fields;
    assert Field(f, "userId") == Str(userId);
    assert Field(f, "latitude") == x.latitude && Field(f, "longitude") == x.longitude;
    assert Field(f, "fish_type") == x.fish_type && Field(f, "bait") == x.bait;
    assert Field(f, "environment") == x.environment && Field(f, "rod") == x.rod;
  }

  /** The stored copy of a spot with a `null` text field has a shorter key. */
  lemma NullFieldCopyKeyShorter(x: SpotRow, n: SpotsRoute.NewSpot, id: nat, now: int, nts: Number -> string)
    requires x.latitude.Num? && x.longitude.Num?
    requires (x.fish_type.Null? || x.fish_type.Str?) && (x.bait.Null? || x.bait.Str?)
    requires (x.rod.Null? || x.rod.Str?) && (x.environment.Null? || x.environment.Str?)
    requires x.fish_type.Null? || x.bait.Null? || x.rod.Null? || x.environment.Null?
    requires n.latitude == x.latitude && n.longitude == x.longitude
    requires n.fish_type == SpotsRoute.OrEmpty(x.fish_type) && n.bait == SpotsRoute.OrEmpty(x.bait)
    requires n.environment == SpotsRoute.OrEmpty(x.environment) && n.rod == SpotsRoute.OrEmpty(x.rod)
    ensures |SpotKey(SpotsRoute.PostedRow(n, id, now), nts)| < |SpotKey(x, nts)|
  {
    var stored := SpotsRoute.PostedRow(n, id, now);
    StoredText(x.fish_type, nts);
    StoredText(x.bait, nts);
    StoredText(x.rod, nts);
    StoredText(x.environment, nts);
    KeyLength(x, nts);
    KeyLength(stored, nts);
  }

  /** A peer spot with a `null` text field is copied again on the next pull: its
      stored copy renders the field as `''` where the original renders `null`,
      so the copy's key does not match. `mine` is the caller's list before the
      copy is stored; the original must be absent from it. That does not follow
      from the first pull alone: a second peer spot that differs from the
      original only by holding the text `"null"` in place of `null` has the
      same key, is copied too, and its stored copy then hides the original. */
  lemma RepullCopiesNullFieldAgain(x: SpotRow, userId: string, id: nat, now: int,
                                   mine: seq<SpotRow>, nts: Number -> string)
    requires userId != "" && x.latitude.Num? && x.longitude.Num?
    requires (x.fish_type.Null? || x.fish_type.Str?) && (x.bait.Null? || x.bait.Str?)
    requires (x.rod.Null? || x.rod.Str?) && (x.environment.Null? || x.environment.Str?)
    requires x.fish_type.Null? || x.bait.Null? || x.rod.Null? || x.environment.Null?
    requires Absent(KeySet(mine, nts), nts)(x)
    ensures SpotsRoute.CheckPost(BodyOf(CopyOf(x, userId))).Accept?
    ensures var stored := SpotsRoute.PostedRow(SpotsRoute.CheckPost(BodyOf(CopyOf(x, userId))).value, id, now);
      && stored.user_id == Str(userId)
      && Filter([x], Absent(KeySet(mine + [stored], nts), nts)) == [x]
  {
    CopyAccepted(x, userId);
    var n := SpotsRoute.NewSpot(Str(userId), x.latitude, x.longitude,
                                SpotsRoute.OrEmpty(x.fish_type), SpotsRoute.OrEmpty(x.bait),
                                SpotsRoute.OrEmpty(x.environment), SpotsRoute.OrEmpty(x.rod));
    var stored := SpotsRoute.PostedRow(n, id, now);
    NullFieldCopyKeyShorter(x, n, id, now, nts);
    var keys := KeySet(mine + [stored], nts);
    OneMoreKeyAbsent(x, stored, mine, nts);
    FilterOne(x, Absent(keys, nts));
  }

  /** A spot with a `null` fish type and its twin holding the text `"null"` have one key. */
  lemma NullTextTwinSameKey(x: SpotRow, nts: Number -> string)
    requires x.fish_type.Null?
    ensures SpotKey(x.(fish_type := Str("null")), nts) == SpotKey(x, nts)
  {
  }

  /** Adding a row whose key is shorter than that of `x` keeps `x` absent. */
  lemma OneMoreKeyAbsent(x: SpotRow, stored: SpotRow, mine: seq<SpotRow>, nts: Number -> string)
    requires Absent(KeySet(mine, nts), nts)(x)
    requires |SpotKey(stored, nts)| < |SpotKey(x, nts)|
    ensures Absent(KeySet(mine + [stored], nts), nts)(x)
  {
    var key := SpotKey(x, nts);
    assert key !in KeySet(mine, nts);
    forall r | r in mine + [stored] ensures SpotKey(r, nts) != key {
      if r in mine {
        assert SpotKey(r, nts) in KeySet(mine, nts);
      }
    }
  }

  /** The stored copy of a spot with a `null` text field does not hide the
      original from the next pull. */
  lemma NullFieldCopyStaysAbsent(x: SpotRow, n: SpotsRoute.NewSpot, id: nat, now: int, nts: Number -> string)
    requires x.latitude.Num? && x.longitude.Num?
    requires (x.fish_type.Null? || x.fish_type.Str?) && (x.bait.Null? || x.bait.Str?)
    requires (x.rod.Null? || x.rod.Str?) && (x.environment.Null? || x.environment.Str?)
    requires x.fish_type.Null? || x.bait.Null? || x.rod.Null? || x.environment.Null?
    requires n.latitude == x.latitude && n.longitude == x.longitude
    requires n.fish_type == SpotsRoute.OrEmpty(x.fish_type) && n.bait == SpotsRoute.OrEmpty(x.bait)
    requires n.environment == SpotsRoute.OrEmpty(x.environment) && n.rod == SpotsRoute.OrEmpty(x.rod)
    ensures Filter([x], Absent(KeySet([SpotsRoute.PostedRow(n, id, now)], nts), nts)) == [x]
  {
    var stored := SpotsRoute.PostedRow(n, id, now);
    NullFieldCopyKeyShorter(x, n, id, now, nts);
    var keys := KeySet([stored], nts);
    SingleKeyAbsent(x, stored, keys, nts);
    FilterOne(x, Absent(keys, nts));
  }

  /** A spot whose key differs from that of the only spot of the set is absent from it. */
  lemma SingleKeyAbsent(x: SpotRow, stored: SpotRow, keys: set<string>, nts: Number -> string)
    requires keys == KeySet([stored], nts)
    requires |SpotKey(stored, nts)| < |SpotKey(x, nts)|
    ensures Absent(keys, nts)(x)
  {
    assert forall k :: k in keys ==> k == SpotKey(stored, nts);
  }

  /** A filter over one element that it takes. */
  lemma FilterOne(x: SpotRow, p: SpotRow -> bool)
    requires p(x)
    ensures Filter([x], p) == [x]
  {
    assert [x][1..] == [];
  }

  /** The popup of a spot marker: one line per `' | '`-separated segment. */
  function PopupLines(popupContent: string): (lines: seq<string>)
    ensures |lines| >= 1
    ensures Join(lines, " | ") == popupContent
    ensures forall k, j :: 0 <= k < |lines| ==> !OccursAt(lines[k], " | ", j)
  {
    JoinSplit(popupContent, " | ");
    forall k: nat, j: nat | k < |Split(popupContent, " | ")|
      ensures !OccursAt(Split(popupContent, " | ")[k], " | ", j)
    {
      SplitPiecesFree(popupContent, " | ", k, j);
    }
    Split(popupContent, " | ")
  }

  /** The first popup line runs up to the leftmost `' | '`; the other lines are
      the popup of the text after it. */
  lemma PopupLinesCut(popupContent: string, i: nat)
    requires OccursAt(popupContent, " | ", i)
    requires forall j :: 0 <= j < i ==> !OccursAt(popupContent, " | ", j)
    ensures PopupLines(popupContent)[0] == popupContent[..i]
    ensures PopupLines(popupContent)[1..] == PopupLines(popupContent[i + 3..])
  {
    SplitLeftmost(popupContent, " | ", i);
  }

  /** A popup text without `' | '` is shown as a single line. */
  lemma PopupLinesSingle(popupContent: string)
    requires forall j :: 0 <= j <= |popupContent| ==> !OccursAt(popupContent, " | ", j)
    ensures PopupLines(popupContent) == [popupContent]
  {
    SplitNone(popupContent, " | ");
  }
}
