/** app/src/components/SearchBox.tsx: the address search provider backed by
    the Amap geocoding service, and the map move on a chosen result. */
module SearchBox {
  import opened Js
  import opened Text

  /** One geocode of the service's answer. */
  datatype Geocode = Geocode(formatted_address: string, location: string)

  /** The JSON the service answers with; `geocodes` is `None` when absent or null. */
  datatype Payload = Payload(status: Value, infocode: Value, geocodes: Option<seq<Geocode>>)

  /** The outcome of the request: a non-ok status, a JSON answer, or a thrown
      error (network failure, unreadable body). */
  datatype Reply = NotOk | Answered(payload: Payload) | Threw

  /** A search result as handed to the search control; `labelText` is its `label`. */
  datatype SearchResult = SearchResult(x: Number, y: Number, labelText: string, bounds: Value, raw: Geocode)

  /** Some element of `acc` has that address. */
  predicate HasAddress(acc: seq<Geocode>, address: string) {
    exists i :: 0 <= i < |acc| && acc[i].formatted_address == address
  }

  /** No earlier element of `s` has the address of `s[i]`. */
  predicate FirstAt(s: seq<Geocode>, i: int) {
    0 <= i < |s| && forall j :: 0 <= j < i ==> s[j].formatted_address != s[i].formatted_address
  }

  /** The geocodes the `reduce` keeps: each address at its first occurrence, in
      input order. */
  function FirstOccurrences(s: seq<Geocode>): (r: seq<Geocode>)
    ensures |r| <= |s|
  {
    if s == [] then []
    else
      var prev := FirstOccurrences(s[..|s| - 1]);
      if HasAddress(prev, s[|s| - 1].formatted_address) then prev else prev + [s[|s| - 1]]
  }

  /** No two geocodes of `s` share an address. */
  predicate Distinct(s: seq<Geocode>) {
    forall i, j :: 0 <= i < j < |s| ==> s[i].formatted_address != s[j].formatted_address
  }

  /** The kept geocodes have pairwise distinct addresses, so the results have
      pairwise distinct labels. */
  lemma {:induction false} DistinctAddresses(s: seq<Geocode>)
    ensures Distinct(FirstOccurrences(s))
  {
    if s != [] {
      var prev, last := FirstOccurrences(s[..|s| - 1]), s[|s| - 1];
      DistinctAddresses(s[..|s| - 1]);
      assert FirstOccurrences(s) == if HasAddress(prev, last.formatted_address) then prev else prev + [last];
      if !HasAddress(prev, last.formatted_address) {
        var r := prev + [last];
        forall i, j | 0 <= i < j < |r| ensures r[i].formatted_address != r[j].formatted_address {
          if j == |r| - 1 {
            assert r[i] == prev[i] && r[j] == last;
            assert !(0 <= i < |prev| && prev[i].formatted_address == last.formatted_address);
            assert r[i].formatted_address != r[j].formatted_address;
          } else {
            assert r[i] == prev[i] && r[j] == prev[j];
            assert prev[i].formatted_address != prev[j].formatted_address;
          }
        }
      }
    }
  }

  /** Every address of the input is among the kept ones. */
  lemma {:induction false} EveryAddressKept(s: seq<Geocode>)
    ensures forall i :: 0 <= i < |s| ==> HasAddress(FirstOccurrences(s), s[i].formatted_address)
  {
    if s != [] {
      var prefix := s[..|s| - 1];
      EveryAddressKept(prefix);
      var r := FirstOccurrences(s);
      forall i | 0 <= i < |s| ensures HasAddress(r, s[i].formatted_address) {
        if i < |s| - 1 {
          assert prefix[i] == s[i];
          var k :| 0 <= k < |FirstOccurrences(prefix)| && FirstOccurrences(prefix)[k].formatted_address == s[i].formatted_address;
          assert r[k] == FirstOccurrences(prefix)[k];
        } else if !HasAddress(FirstOccurrences(prefix), s[i].formatted_address) {
          assert r[|r| - 1] == s[i];
        }
      }
    }
  }

  /** The first occurrence of each address is kept. */
  lemma {:induction false} FirstsKept(s: seq<Geocode>)
    ensures forall i :: FirstAt(s, i) ==> s[i] in FirstOccurrences(s)
  {
    if s != [] {
      var prefix := s[..|s| - 1];
      FirstsKept(prefix);
      forall i | FirstAt(s, i) ensures s[i] in FirstOccurrences(s) {
        if i < |s| - 1 {
          assert prefix[i] == s[i];
          assert FirstAt(prefix, i);
        } else {
          var prev := FirstOccurrences(prefix);
          forall k | 0 <= k < |prev| ensures prev[k].formatted_address != s[i].formatted_address {
            KeptAreFirsts(prefix);
            assert prev[k] in prev;
            var j :| FirstAt(prefix, j) && prefix[j] == prev[k];
            assert s[j] == prefix[j];
          }
        }
      }
    }
  }

  /** Only first occurrences are kept. */
  lemma {:induction false} KeptAreFirsts(s: seq<Geocode>)
    ensures forall g :: g in FirstOccurrences(s) ==> exists i :: FirstAt(s, i) && s[i] == g
  {
    if s != [] {
      var prefix := s[..|s| - 1];
      KeptAreFirsts(prefix);
      forall g | g in FirstOccurrences(s) ensures exists i :: FirstAt(s, i) && s[i] == g {
        if g in FirstOccurrences(prefix) {
          var i :| FirstAt(prefix, i) && prefix[i] == g;
          assert s[i] == prefix[i];
          assert FirstAt(s, i) by {
            forall j | 0 <= j < i ensures s[j].formatted_address != s[i].formatted_address {
              assert s[j] == prefix[j];
            }
          }
        } else {
          var n := |s| - 1;
          assert g == s[n] && !HasAddress(FirstOccurrences(prefix), s[n].formatted_address);
          EveryAddressKept(prefix);
          assert FirstAt(s, n) by {
            forall j | 0 <= j < n ensures s[j].formatted_address != s[n].formatted_address {
              assert s[j] == prefix[j];
            }
          }
        }
      }
    }
  }

  /** One more geocode can only add at the end of what is kept. */
  lemma FirstOccurrencesStep(s: seq<Geocode>)
    requires s != []
    ensures FirstOccurrences(s[..|s| - 1]) <= FirstOccurrences(s)
  {
  }

  /** Extending the input never reorders or drops what was already kept. */
  lemma {:induction false} FirstOccurrencesGrow(s: seq<Geocode>, n: nat)
    requires n <= |s|
    ensures FirstOccurrences(s[..n]) <= FirstOccurrences(s)
    decreases |s| - n
  {
    if n < |s| {
      FirstOccurrencesGrow(s, n + 1);
      var t := s[..n + 1];
      assert t[..|t| - 1] == s[..n];
      FirstOccurrencesStep(t);
    } else {
      assert s[..n] == s;
    }
  }

  /** `acc.find(result => result.formatted_address === address)` */
  method Find(acc: seq<Geocode>, address: string) returns (found: Option<Geocode>)
    ensures found.None? <==> !HasAddress(acc, address)
    ensures found.Some? ==> exists i :: 0 <= i < |acc| && acc[i] == found.value
                                       && acc[i].formatted_address == address
                                       && forall j :: 0 <= j < i ==> acc[j].formatted_address != address
  {
    var i := 0;
    while i < |acc|
      invariant 0 <= i <= |acc|
      invariant forall j :: 0 <= j < i ==> acc[j].formatted_address != address
    {
      if acc[i].formatted_address == address {
        return Some(acc[i]);
      }
      i := i + 1;
    }
    return None;
  }

  /** The `reduce` over the geocodes: push an item unless `find` sees its address. */
  method DedupByAddress(items: seq<Geocode>) returns (acc: seq<Geocode>)
    ensures acc == FirstOccurrences(items)
  {
    acc := [];
    for n := 0 to |items|
      invariant acc == FirstOccurrences(items[..n])
    {
      assert items[..n + 1][..n] == items[..n];
      var existing := Find(acc, items[n].formatted_address);
      if existing.None? {
        acc := acc + [items[n]];
      }
    }
    assert items[..|items|] == items;
  }

  /** The result for one geocode: `location` is `"lng,lat"`; a location without
      a comma reads its latitude from `parseFloat(undefined)`. */
  function ToResult(g: Geocode, parseFloat: string -> Number): (r: SearchResult)
    ensures r.labelText == g.formatted_address && r.bounds == Null && r.raw == g
    ensures r.x == parseFloat(Split(g.location, ",")[0])
    ensures r.y == parseFloat(if |Split(g.location, ",")| > 1 then Split(g.location, ",")[1] else "undefined")
  {
    var parts := Split(g.location, ",");
    SearchResult(parseFloat(parts[0]), parseFloat(if |parts| > 1 then parts[1] else "undefined"),
                 g.formatted_address, Null, g)
  }

  /** A well-formed location yields its two numbers as x and y. */
  lemma LocationParts(lng: string, lat: string, formattedAddress: string, parseFloat: string -> Number)
    requires ',' !in lng && ',' !in lat
    ensures var r := ToResult(Geocode(formattedAddress, lng + "," + lat), parseFloat);
      r.x == parseFloat(lng) && r.y == parseFloat(lat)
  {
    SplitPeel(lng, ",", lat, ',', 0);
    SplitWhole(lat, ",", ',', 0);
  }

  function ToResults(items: seq<Geocode>, parseFloat: string -> Number): (r: seq<SearchResult>)
    ensures |r| == |items|
    ensures forall i :: 0 <= i < |items| ==> r[i] == ToResult(items[i], parseFloat)
  {
    seq(|items|, i requires 0 <= i < |items| => ToResult(items[i], parseFloat))
  }

  /** The service accepted the query: status `'1'` and infocode `'10000'`. */
  predicate Accepted(p: Payload) {
    p.status == Str("1") && p.infocode == Str("10000")
  }

  /** `amapProvider.search`: no results unless the reply is ok, accepted and
      holds geocodes; otherwise one result per distinct address. */
  method Search(reply: Reply, parseFloat: string -> Number) returns (results: seq<SearchResult>)
    ensures reply.NotOk? || reply.Threw? ==> results == []
    ensures reply.Answered? && !Accepted(reply.payload) ==> results == []
    ensures reply.Answered? && (reply.payload.geocodes.None? || reply.payload.geocodes.value == []) ==> results == []
    ensures reply.Answered? && Accepted(reply.payload) && reply.payload.geocodes.Some? ==>
      results == ToResults(FirstOccurrences(reply.payload.geocodes.value), parseFloat)
    ensures forall i, j :: 0 <= i < j < |results| ==> results[i].labelText != results[j].labelText
  {
    if !reply.Answered? {
      return [];
    }
    var data := reply.payload;
    if !Accepted(data) {
      return [];
    }
    if data.geocodes.None? || |data.geocodes.value| == 0 {
      return [];
    }
    var unique := DedupByAddress(data.geocodes.value);
    DistinctAddresses(data.geocodes.value);
    results := ToResults(unique, parseFloat);
  }

  /** `map.flyTo([lat, lng], zoom)` */
  datatype FlyTo = FlyTo(lat: Number, lng: Number, zoom: int)

  /** `onSearch`: fly to `[y, x]` at zoom 15 when both are truthy. */
  function OnSearch(result: Option<SearchResult>): (move: Option<FlyTo>)
    ensures move.Some? <==> result.Some? && NumberTruthy(result.value.x) && NumberTruthy(result.value.y)
    ensures move.Some? ==> move.value == FlyTo(result.value.y, result.value.x, 15)
  {
    if result.Some? && NumberTruthy(result.value.x) && NumberTruthy(result.value.y)
    then Some(FlyTo(result.value.y, result.value.x, 15))
    else None
  }

  /** A result on the zero meridian or the equator is not flown to. */
  lemma ZeroCoordinateNotFlown(r: SearchResult)
    requires r.x == Finite(0.0) || r.y == Finite(0.0)
    ensures OnSearch(Some(r)).None?
  {
  }
}
