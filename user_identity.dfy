/** app/src/lib/user.ts: the browser-local identity of a user, derived from a
    fingerprint of the browser and kept in localStorage. */
module UserIdentity {
  import opened Js
  import opened Seqs

  /** The browser facts the id is derived from. */
  datatype Fingerprint = Fingerprint(
    userAgent: string,
    screenWidth: nat,
    screenHeight: nat,
    timeZone: string,
    language: string)

  /** The user the functions return; `lastSeen` is the clock reading in milliseconds. */
  datatype User = User(
    id: string,
    name: string,
    latitude: Number,
    longitude: Number,
    lastSeen: int,
    isOnline: bool)

  /** `${userAgent}|${width}x${height}|${timeZone}|${language}` */
  function MachineInfo(fp: Fingerprint): string {
    fp.userAgent + "|" + IntToString(fp.screenWidth) + "x" + IntToString(fp.screenHeight)
    + "|" + fp.timeZone + "|" + fp.language
  }

  /** The characters `[a-zA-Z0-9]` keeps. */
  predicate IsAsciiAlnum(c: char) {
    ('a' <= c <= 'z') || ('A' <= c <= 'Z') || ('0' <= c <= '9')
  }

  const IdPrefix: string := "user_"

  /** `generateUserId()`: `user_` and at most the first 16 ASCII letters and
      digits of the Base64 text of the machine info; `btoa` is the browser's. */
  function GenerateUserId(fp: Fingerprint, btoa: string -> string): (id: string)
    ensures |IdPrefix| <= |id| <= |IdPrefix| + 16 && id[..|IdPrefix|] == IdPrefix
    ensures forall k :: |IdPrefix| <= k < |id| ==> IsAsciiAlnum(id[k])
    ensures id[|IdPrefix|..] <= Filter(btoa(MachineInfo(fp)), IsAsciiAlnum)
    ensures var kept := Filter(btoa(MachineInfo(fp)), IsAsciiAlnum);
      |id| == |IdPrefix| + (if |kept| <= 16 then |kept| else 16)
      && id == IdPrefix + kept[..|id| - |IdPrefix|]
  {
    var kept := Filter(btoa(MachineInfo(fp)), IsAsciiAlnum);
    var hash := if |kept| <= 16 then kept else kept[..16];
    assert forall k :: 0 <= k < |hash| ==> hash[k] in kept;
    var id := IdPrefix + hash;
    assert id[|IdPrefix|..] == hash;
    id
  }

  /** `s.slice(-4)`: the last four characters, or all of a shorter text. */
  function LastFour(s: string): (r: string)
    ensures |r| == if |s| < 4 then |s| else 4
    ensures r == s[|s| - |r|..]
  {
    if |s| < 4 then s else s[|s| - 4..]
  }

  const NamePrefix: string := "钓友"

  /** The default name: `钓友` and the last four characters of the id. */
  function DefaultName(id: string): (name: string)
    ensures |name| == |NamePrefix| + |LastFour(id)|
    ensures name[..|NamePrefix|] == NamePrefix && name[|NamePrefix|..] == LastFour(id)
  {
    NamePrefix + LastFour(id)
  }

  /** `localStorage.getItem(key) || fallback` */
  function ItemOr(items: map<string, string>, key: string, fallback: string): (r: string)
    ensures key in items && items[key] != "" ==> r == items[key]
    ensures !(key in items && items[key] != "") ==> r == fallback
  {
    if key in items && items[key] != "" then items[key] else fallback
  }

  /** A usable id is stored: `localStorage.getItem('userId')` is truthy. */
  predicate HasStoredId(items: map<string, string>) {
    "userId" in items && items["userId"] != ""
  }

  /** The user `getOrCreateUser` returns for storage `items`, given the id it
      would generate. */
  function UserFor(items: map<string, string>, generated: string, now: int): (u: User)
    ensures HasStoredId(items) ==> u.id == items["userId"]
    ensures !HasStoredId(items) ==> u.id == generated
    ensures u.name == ItemOr(items, "userName", DefaultName(u.id))
    ensures u.latitude == Finite(0.0) && u.longitude == Finite(0.0) && u.isOnline && u.lastSeen == now
  {
    var id := ItemOr(items, "userId", generated);
    User(id, ItemOr(items, "userName", DefaultName(id)), Finite(0.0), Finite(0.0), now, true)
  }

  /** The storage `getOrCreateUser` leaves: unchanged when an id is stored,
      otherwise the new id and the name written, and nothing else touched. */
  function StorageAfter(items: map<string, string>, generated: string): (after: map<string, string>)
    ensures HasStoredId(items) ==> after == items
    ensures !HasStoredId(items) ==>
      && "userId" in after && after["userId"] == generated
      && "userName" in after && after["userName"] == ItemOr(items, "userName", DefaultName(generated))
    ensures forall k :: k != "userId" && k != "userName" ==>
      (k in after <==> k in items) && (k in items ==> after[k] == items[k])
  {
    if HasStoredId(items) then items
    else items["userId" := generated]["userName" := ItemOr(items, "userName", DefaultName(generated))]
  }

  /** A second call finds what the first stored: storage does not change again
      and the same id and name come back. */
  lemma SecondCallSameUser(items: map<string, string>, generated: string, generated2: string, now: int, now2: int)
    requires generated != ""
    ensures StorageAfter(StorageAfter(items, generated), generated2) == StorageAfter(items, generated)
    ensures UserFor(StorageAfter(items, generated), generated2, now2).id == UserFor(items, generated, now).id
    ensures UserFor(StorageAfter(items, generated), generated2, now2).name == UserFor(items, generated, now).name
  {
    var after := StorageAfter(items, generated);
    assert HasStoredId(after);
    if !HasStoredId(items) {
      assert after["userId"] == generated;
      assert after["userName"] == ItemOr(items, "userName", DefaultName(generated));
    }
  }

  /** The `userLocation` entry: `JSON.stringify({ latitude, longitude, lastSeen })`,
      where a NaN coordinate is written as `null` and the date as its ISO text. */
  function LocationEntry(latitude: Number, longitude: Number, lastSeenIso: string, nts: Number -> string): string {
    "{\"latitude\":" + JsonNumber(latitude, nts) + ",\"longitude\":" + JsonNumber(longitude, nts)
    + ",\"lastSeen\":\"" + lastSeenIso + "\"}"
  }

  /** A number in JSON text. */
  function JsonNumber(n: Number, nts: Number -> string): (r: string)
    ensures n.NaN? ==> r == "null"
    ensures n.Finite? ==> r == nts(n)
  {
    if n.NaN? then "null" else nts(n)
  }

  /** The user `updateUserLocation` returns: the stored identity with the
      given coordinates. */
  function UpdatedUser(items: map<string, string>, generated: string, latitude: Number, longitude: Number, now: int)
    : (u: User)
    ensures u.id == UserFor(items, generated, now).id && u.name == UserFor(items, generated, now).name
    ensures u.latitude == latitude && u.longitude == longitude && u.isOnline && u.lastSeen == now
  {
    UserFor(items, generated, now).(latitude := latitude, longitude := longitude, lastSeen := now)
  }

  /** Writing the location entry does not disturb the identity: a later call
      returns the same id and name. */
  lemma LocationKeepsIdentity(items: map<string, string>, generated: string, generated2: string,
                              entry: string, now: int, now2: int)
    requires generated != ""
    ensures var after := StorageAfter(items, generated)["userLocation" := entry];
      && UserFor(after, generated2, now2).id == UserFor(items, generated, now).id
      && UserFor(after, generated2, now2).name == UserFor(items, generated, now).name
  {
    var mid := StorageAfter(items, generated);
    var after := mid["userLocation" := entry];
    SecondCallSameUser(items, generated, generated2, now, now2);
    assert after["userId"] == mid["userId"];
    assert ("userName" in after <==> "userName" in mid) && ("userName" in mid ==> after["userName"] == mid["userName"]);
  }

  /** The browser's localStorage. */
  class LocalStorage {
    var items: map<string, string>

    constructor (initial: map<string, string>)
      ensures items == initial
    {
      items := initial;
    }

    /** `localStorage.getItem(key)`: `null` when absent. */
    function GetItem(key: string): (r: Option<string>)
      reads this
      ensures r.Some? <==> key in items
      ensures r.Some? ==> r.value == items[key]
    {
      if key in items then Some(items[key]) else None
    }

    /** `getOrCreateUser()` */
    method GetOrCreateUser(fp: Fingerprint, btoa: string -> string, now: int) returns (u: User)
      modifies this
      ensures u == UserFor(old(items), GenerateUserId(fp, btoa), now)
      ensures items == StorageAfter(old(items), GenerateUserId(fp, btoa))
    {
      var generated := GenerateUserId(fp, btoa);
      var stored := GetItem("userId");
      var userId := if stored.Some? && stored.value != "" then stored.value else generated;
      assert userId == ItemOr(items, "userId", generated);
      var storedName := GetItem("userName");
      var userName := if storedName.Some? && storedName.value != "" then storedName.value else DefaultName(userId);
      assert userName == ItemOr(items, "userName", DefaultName(userId));
      var again := GetItem("userId");
      if !(again.Some? && again.value != "") {
        assert !HasStoredId(items) && userId == generated;
        items := items["userId" := userId]["userName" := userName];
      }
      u := User(userId, userName, Finite(0.0), Finite(0.0), now, true);
    }

    /** `updateUserLocation(latitude, longitude)`; `isoDate` is `Date.prototype.toJSON`. */
    method UpdateUserLocation(latitude: Number, longitude: Number, fp: Fingerprint, btoa: string -> string,
                              now: int, isoDate: int -> string, nts: Number -> string) returns (u: User)
      modifies this
      ensures u == UpdatedUser(old(items), GenerateUserId(fp, btoa), latitude, longitude, now)
      ensures items == StorageAfter(old(items), GenerateUserId(fp, btoa))
                       ["userLocation" := LocationEntry(latitude, longitude, isoDate(now), nts)]
    {
      var user := GetOrCreateUser(fp, btoa, now);
      u := user.(latitude := latitude, longitude := longitude, lastSeen := now);
      items := items["userLocation" := LocationEntry(latitude, longitude, isoDate(u.lastSeen), nts)];
    }
  }
}
