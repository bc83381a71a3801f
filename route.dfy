/**
 * The deterministic part of truck_route in app.py: picking the first
 * route's first section from the provider's body. The HTTP request is
 * left out; the polyline decoder is a parameter that may fail.
 */
module Route {
  import opened Wrappers
  import opened Json

  /** One decoded polyline point. */
  datatype Coord = Coord(lat: real, lon: real)

  /** What truck_route returns: the path, its length and its duration,
      the latter two as the provider sent them. */
  datatype RouteResult = RouteResult(coords: seq<Coord>, lengthM: Json, durationS: Json)

  datatype RouteError =
    | Transport(status: int)   // a status other than 200
    | NoRoute                  // no routes in the answer
    | Malformed                // a key is missing or a value has the wrong shape
    | InvalidPolyline          // the decoder rejected the polyline

  /** A polyline decoder: None when it raises. */
  type Decoder = Json -> Option<seq<Coord>>

  /** decode_poly: a decoder failure becomes InvalidPolyline. */
  function DecodePoly(encoded: Json, decode: Decoder): (r: Result<seq<Coord>, RouteError>)
    ensures r.Err? <==> decode(encoded).None?
    ensures r.Err? ==> r.error == InvalidPolyline
    ensures r.Ok? ==> r.value == decode(encoded).value
  {
    match decode(encoded)
    case None => Err(InvalidPolyline)
    case Some(coords) => Ok(coords)
  }

  /** The selection of truck_route: status, then the routes list. */
  function SelectRoute(resp: Response, decode: Decoder): (r: Result<RouteResult, RouteError>)
    ensures r == Err(Transport(resp.status)) <==> resp.status != 200
    ensures r == Err(NoRoute) <==>
      resp.status == 200 && resp.body.Obj? &&
      !("routes" in resp.body.fields && Truthy(resp.body.fields["routes"]))
  {
    if resp.status != 200 then Err(Transport(resp.status))
    else if !resp.body.Obj? then Err(Malformed)
    else
      var data := resp.body.fields;
      if !("routes" in data && Truthy(data["routes"])) then Err(NoRoute)
      else if !data["routes"].Arr? then Err(Malformed)
      else SelectSection(data["routes"].elems[0], decode)
  }

  /** `route["sections"][0]` of the first route: its summary's length and
      duration, then its decoded polyline. */
  function SelectSection(route: Json, decode: Decoder): (r: Result<RouteResult, RouteError>)
    ensures r.Err? ==> r.error == Malformed || r.error == InvalidPolyline
  {
    if !route.Obj? || "sections" !in route.fields then Err(Malformed)
    else
      var sections := route.fields["sections"];
      if !sections.Arr? || sections.elems == [] then Err(Malformed)
      else
        var section := sections.elems[0];
        if !section.Obj? || "summary" !in section.fields then Err(Malformed)
        else
          var summary := section.fields["summary"];
          if !summary.Obj? || "length" !in summary.fields || "duration" !in summary.fields then Err(Malformed)
          else if "polyline" !in section.fields then Err(Malformed)
          else
            match DecodePoly(section.fields["polyline"], decode)
            case Err(e) => Err(e)
            case Ok(coords) => Ok(RouteResult(coords, summary.fields["length"], summary.fields["duration"]))
  }

  /** A section with a summary holding length and duration, and a polyline. */
  predicate WellFormedSection(section: Json) {
    && section.Obj? && "summary" in section.fields && "polyline" in section.fields
    && section.fields["summary"].Obj?
    && "length" in section.fields["summary"].fields
    && "duration" in section.fields["summary"].fields
  }

  /** Only routes[0] is looked at, and of it only sections[0]: later routes
      and later sections never change the answer. */
  lemma FirstRouteFirstSection(data: map<string, Json>, route: map<string, Json>,
                               section: Json, moreSections: seq<Json>, moreRoutes: seq<Json>,
                               decode: Decoder)
    requires "routes" in data && data["routes"] == Arr([Obj(route)] + moreRoutes)
    requires "sections" in route && route["sections"] == Arr([section] + moreSections)
    ensures SelectRoute(Response(200, Obj(data)), decode)
         == SelectSection(Obj(map["sections" := Arr([section])]), decode)
  {
    assert ([Obj(route)] + moreRoutes)[0] == Obj(route);
    assert ([section] + moreSections)[0] == section;
  }

  /** From a well-formed first section the result carries its summary's
      length and duration and the decoded polyline; when the decoder fails
      the answer is InvalidPolyline instead of a result. */
  lemma SectionFields(section: Json, decode: Decoder)
    requires WellFormedSection(section)
    ensures var r := SelectSection(Obj(map["sections" := Arr([section])]), decode);
      var summary := section.fields["summary"].fields;
      var poly := section.fields["polyline"];
      && (decode(poly).None? ==> r == Err(InvalidPolyline))
      && (decode(poly).Some? ==>
            r == Ok(RouteResult(decode(poly).value, summary["length"], summary["duration"])))
  {
  }

  /** A present but empty sections list is a malformed answer, not NoRoute;
      a section without polyline is malformed before any decoding. */
  lemma MalformedBeforeDecoding(route: map<string, Json>, decode: Decoder)
    ensures "sections" in route && route["sections"] == Arr([]) ==>
      SelectSection(Obj(route), decode) == Err(Malformed)
    ensures
      ("sections" in route && route["sections"].Arr? && route["sections"].elems != [] &&
       route["sections"].elems[0].Obj? && "polyline" !in route["sections"].elems[0].fields)
      ==> SelectSection(Obj(route), decode) == Err(Malformed)
  {
  }
}
