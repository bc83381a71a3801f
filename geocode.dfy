/**
 * The deterministic part of geocode_address in app.py: composing the
 * free-text query and choosing the answer from the provider's body.
 * The HTTP request itself is a function parameter.
 */
module Geocode {
  import opened Wrappers
  import opened Json

  /** What geocode_address returns: position, title and access point.
      The provider's values are passed through as they come. */
  datatype GeocodeResult = GeocodeResult(
    lat: Json, lon: Json, title: Json, accessLat: Json, accessLon: Json)

  datatype GeocodeError =
    | Transport(status: int)   // a status other than 200
    | NotFound                 // no items in the answer
    | Malformed                // the body lacks a key or has the wrong shape

  /** An optional text argument counts only when it is present and non-empty. */
  predicate Present(o: Option<string>) {
    o.Some? && o.value != []
  }

  /** The query `q`: the address, then the postal code and then the city,
      each preceded by ", " and only when present. */
  function GeocodeQuery(address: string, postalCode: Option<string>, city: Option<string>): (q: string)
    ensures address <= q
    ensures |q| == |address|
      + (if Present(postalCode) then 2 + |postalCode.value| else 0)
      + (if Present(city) then 2 + |city.value| else 0)
  {
    var q := address;
    var q := if Present(postalCode) then q + ", " + postalCode.value else q;
    if Present(city) then q + ", " + city.value else q
  }

  /** The pieces of s between commas, in order. */
  function SplitOnComma(s: string): (parts: seq<string>)
    ensures |parts| >= 1
  {
    if s == [] then [""]
    else
      var tail := SplitOnComma(s[1..]);
      if s[0] == ',' then [""] + tail else [[s[0]] + tail[0]] + tail[1..]
  }

  lemma {:induction false} SplitWithoutComma(s: string)
    requires ',' !in s
    ensures SplitOnComma(s) == [s]
  {
    if s != [] {
      SplitWithoutComma(s[1..]);
      assert [s[0]] + s[1..] == s;
    }
  }

  lemma {:induction false} SplitAfterFirstComma(x: string, y: string)
    requires ',' !in x
    ensures SplitOnComma(x + "," + y) == [x] + SplitOnComma(y)
  {
    if x == [] {
      assert x + "," + y == [','] + y;
      assert ([','] + y)[1..] == y;
    } else {
      SplitAfterFirstComma(x[1..], y);
      assert (x + "," + y)[1..] == x[1..] + "," + y;
      assert [x[0]] + x[1..] == x;
    }
  }

  /** The parts joined with single commas between them. */
  function JoinWithCommas(parts: seq<string>): string
    requires |parts| >= 1
  {
    if |parts| == 1 then parts[0] else parts[0] + "," + JoinWithCommas(parts[1..])
  }

  /** Splitting undoes joining when no part holds a comma. */
  lemma {:induction false} SplitJoin(parts: seq<string>)
    requires |parts| >= 1
    requires forall i :: 0 <= i < |parts| ==> ',' !in parts[i]
    ensures SplitOnComma(JoinWithCommas(parts)) == parts
  {
    if |parts| == 1 {
      SplitWithoutComma(parts[0]);
    } else {
      SplitJoin(parts[1..]);
      SplitAfterFirstComma(parts[0], JoinWithCommas(parts[1..]));
    }
  }

  /** The parts of the query that are present, in query order, each after
      the space that follows its comma. */
  function QueryParts(address: string, postalCode: Option<string>, city: Option<string>): seq<string> {
    [address]
    + (if Present(postalCode) then [" " + postalCode.value] else [])
    + (if Present(city) then [" " + city.value] else [])
  }

  /** The query is the present parts joined with commas: the address, then
      ", " + postal code when present, then ", " + city when present. */
  lemma QueryIsJoin(address: string, postalCode: Option<string>, city: Option<string>)
    ensures GeocodeQuery(address, postalCode, city) == JoinWithCommas(QueryParts(address, postalCode, city))
  {
    var parts := QueryParts(address, postalCode, city);
    if Present(postalCode) && Present(city) {
      assert parts[1..][1..] == [" " + city.value];
      assert JoinWithCommas(parts[1..]) == " " + postalCode.value + "," + " " + city.value;
    } else if Present(postalCode) {
      assert parts[1..] == [" " + postalCode.value];
    } else if Present(city) {
      assert parts[1..] == [" " + city.value];
    }
  }

  /** One step of the split: a leading comma opens a new piece, any other
      character joins the first piece. */
  lemma SplitCons(c: char, s: string)
    ensures SplitOnComma([c] + s)
         == if c == ',' then [""] + SplitOnComma(s)
            else [[c] + SplitOnComma(s)[0]] + SplitOnComma(s)[1..]
  {
    assert ([c] + s)[1..] == s;
  }

  /** Splitting at a comma splits each side on its own. */
  lemma {:induction false} SplitAppend(x: string, y: string)
    ensures SplitOnComma(x + "," + y) == SplitOnComma(x) + SplitOnComma(y)
  {
    if x == [] {
      SplitCons(',', y);
      assert x + "," + y == [','] + y;
    } else {
      var c, x' := x[0], x[1..];
      assert x == [c] + x';
      assert x + "," + y == [c] + (x' + "," + y);
      SplitAppend(x', y);
      SplitCons(c, x' + "," + y);
      SplitCons(c, x');
      if c != ',' {
        ExtendFirstPiece([c], SplitOnComma(x'), SplitOnComma(y));
      }
    }
  }

  /** Growing the first piece of a split commutes with appending pieces. */
  lemma ExtendFirstPiece(pre: string, a: seq<string>, b: seq<string>)
    requires |a| >= 1
    ensures [pre + (a + b)[0]] + (a + b)[1..] == [pre + a[0]] + a[1..] + b
  {
    assert (a + b)[1..] == a[1..] + b;
  }

  /** When the postal code and the city hold no comma, splitting the query
      on commas gives the address's own pieces, then " " + postal code and
      " " + city for the parts that are present; with a comma-free address
      the pieces are exactly the present parts. */
  lemma QueryComponents(address: string, postalCode: Option<string>, city: Option<string>)
    requires Present(postalCode) ==> ',' !in postalCode.value
    requires Present(city) ==> ',' !in city.value
    ensures SplitOnComma(GeocodeQuery(address, postalCode, city))
         == SplitOnComma(address) + QueryParts(address, postalCode, city)[1..]
    ensures ',' !in address ==>
      SplitOnComma(GeocodeQuery(address, postalCode, city)) == QueryParts(address, postalCode, city)
  {
    var parts := QueryParts(address, postalCode, city);
    var rest := parts[1..];
    QueryIsJoin(address, postalCode, city);
    if rest != [] {
      forall i | 0 <= i < |rest| ensures ',' !in rest[i] {
        if Present(postalCode) && i == 0 {
          assert rest[i] == " " + postalCode.value;
        } else {
          assert rest[i] == " " + city.value;
        }
      }
      SplitJoin(rest);
      SplitAppend(address, JoinWithCommas(rest));
    }
    if ',' !in address {
      SplitWithoutComma(address);
    }
  }

  /** The selection of geocode_address: status, then the items list. */
  function SelectGeocode(resp: Response, address: string): (r: Result<GeocodeResult, GeocodeError>)
    ensures r == Err(Transport(resp.status)) <==> resp.status != 200
    ensures r == Err(NotFound) <==>
      resp.status == 200 && resp.body.Obj? &&
      !("items" in resp.body.fields && Truthy(resp.body.fields["items"]))
  {
    if resp.status != 200 then Err(Transport(resp.status))
    else if !resp.body.Obj? then Err(Malformed)
    else
      var data := resp.body.fields;
      if !("items" in data && Truthy(data["items"])) then Err(NotFound)
      else if !data["items"].Arr? then Err(Malformed)
      else SelectItem(data["items"].elems[0], address)
  }

  /** What geocode_address reads from one item: the position, its first
      access point field by field with the position as fallback, and the
      title with the input address as fallback. */
  function SelectItem(item: Json, address: string): (r: Result<GeocodeResult, GeocodeError>)
    ensures r.Err? ==> r.error == Malformed
  {
    if !item.Obj? || "position" !in item.fields then Err(Malformed)
    else
      var position := item.fields["position"];
      if !position.Obj? || "lat" !in position.fields || "lng" !in position.fields then Err(Malformed)
      else
        var lat, lon := position.fields["lat"], position.fields["lng"];
        var access := GetOr(item.fields, "access", Arr([]));
        if !Truthy(access) then
          Ok(GeocodeResult(lat, lon, GetOr(item.fields, "title", Str(address)), lat, lon))
        else if !(access.Arr? && access.elems[0].Obj?) then Err(Malformed)
        else
          var first := access.elems[0].fields;
          Ok(GeocodeResult(lat, lon, GetOr(item.fields, "title", Str(address)),
                           GetOr(first, "lat", lat), GetOr(first, "lng", lon)))
  }

  /** geocode_address: one request for the composed query, then the selection. */
  function GeocodeAddress(address: string, postalCode: Option<string>, city: Option<string>,
                          fetch: string -> Response): (r: Result<GeocodeResult, GeocodeError>)
    ensures var resp := fetch(GeocodeQuery(address, postalCode, city));
      r == Err(Transport(resp.status)) <==> resp.status != 200
  {
    SelectGeocode(fetch(GeocodeQuery(address, postalCode, city)), address)
  }

  /** A well-formed item's position and title, as geocode_address reads them. */
  predicate HasPosition(item: Json) {
    && item.Obj? && "position" in item.fields
    && item.fields["position"].Obj?
    && "lat" in item.fields["position"].fields
    && "lng" in item.fields["position"].fields
  }

  /** Only the first item is looked at: a successful answer is decided by
      items[0] alone, whatever follows it and whatever else the body holds. */
  lemma FirstItemOnly(data: map<string, Json>, first: Json, more: seq<Json>, address: string)
    requires "items" in data && data["items"] == Arr([first] + more)
    ensures SelectGeocode(Response(200, Obj(data)), address) == SelectItem(first, address)
    ensures SelectGeocode(Response(200, Obj(data)), address)
         == SelectGeocode(Response(200, Obj(map["items" := Arr([first])])), address)
  {
    assert Truthy(Arr([first] + more));
    assert ([first] + more)[0] == first;
  }

  /** An item is accepted exactly when it has a position with both
      coordinates and its access list is absent, empty or starts with an
      object; the position is then returned unchanged, and the title is the
      item's own or, when it has none, the input address. */
  lemma ItemAccepted(item: Json, address: string)
    ensures var r := SelectItem(item, address);
      r.Ok? <==>
        HasPosition(item) &&
        var access := GetOr(item.fields, "access", Arr([]));
        !Truthy(access) || (access.Arr? && access.elems[0].Obj?)
    ensures var r := SelectItem(item, address);
      r.Ok? ==>
        r.value.lat == item.fields["position"].fields["lat"] &&
        r.value.lon == item.fields["position"].fields["lng"]
    ensures var r := SelectItem(item, address);
      r.Ok? ==> r.value.title == GetOr(item.fields, "title", Str(address))
  {
  }

  /** With no access list, or an empty one, the access point is the position. */
  lemma AccessFallsBackToPosition(item: Json, address: string)
    requires HasPosition(item)
    requires "access" !in item.fields || item.fields["access"] == Arr([])
    ensures var r := SelectItem(item, address);
      r.Ok? && r.value.accessLat == r.value.lat && r.value.accessLon == r.value.lon
  {
  }

  /** With a non-empty access list, each coordinate comes from access[0]
      when it has it and falls back to the position's otherwise. */
  lemma AccessFieldByField(item: Json, address: string, first: map<string, Json>, more: seq<Json>)
    requires HasPosition(item)
    requires "access" in item.fields && item.fields["access"] == Arr([Obj(first)] + more)
    ensures var r := SelectItem(item, address);
      && r.Ok?
      && r.value.accessLat == (if "lat" in first then first["lat"] else r.value.lat)
      && r.value.accessLon == (if "lng" in first then first["lng"] else r.value.lon)
  {
    assert ([Obj(first)] + more)[0] == Obj(first);
  }

  /** A missing title becomes the address as typed, not the composed query. */
  lemma TitleDefaultsToAddress(address: string, postalCode: Option<string>, city: Option<string>,
                               fetch: string -> Response, item: Json)
    requires var b := fetch(GeocodeQuery(address, postalCode, city));
      b.status == 200 && b.body.Obj? && "items" in b.body.fields &&
      b.body.fields["items"].Arr? && |b.body.fields["items"].elems| > 0 &&
      b.body.fields["items"].elems[0] == item
    requires SelectItem(item, address).Ok? && "title" !in item.fields
    ensures var r := GeocodeAddress(address, postalCode, city, fetch);
      r.Ok? && r.value.title == Str(address)
  {
  }
}
