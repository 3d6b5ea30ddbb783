/**
 * Values produced by `JSON.parse`, and the itinerary shape the prompt asks the model for.
 *
 * `JSON.parse` and `JSON.stringify` are library calls whose internals are not modelled: the
 * extractor receives them as the function parameters `parse` and `pretty`.
 */
module JsonValue {
  import opened Wrappers

  /** A JSON value; numbers are JavaScript numbers, kept here as reals. */
  datatype Json =
    | JNull
    | JBool(b: bool)
    | JNum(n: real)
    | JString(str: string)
    | JArray(items: seq<Json>)
    | JObject(fields: map<string, Json>)

  /** `JSON.parse`: `None` stands for the exception it throws on text that is not JSON. */
  type Parser = string -> Option<Json>

  /** `JSON.stringify(value, null, 2)`. */
  type Printer = Json -> string

  /** JavaScript truthiness of a parsed value (`if (parsed)`). */
  predicate Truthy(v: Json)
    ensures Truthy(v) <==> !(v == JNull || v == JBool(false) || v == JNum(0.0) || v == JString([]))
  {
    match v
    case JNull => false
    case JBool(b) => b
    case JNum(n) => n != 0.0
    case JString(s) => s != []
    case JArray(_) => true
    case JObject(_) => true
  }

  /** `DayObj`: one day of a route. */
  datatype DayObj = DayObj(day: real, places: seq<string>)

  /** `ItineraryRoute`: a titled route, day by day. */
  datatype ItineraryRoute = ItineraryRoute(title: string, itinerary: seq<DayObj>)

  /** `ParsedRoutes`: the document the prompt asks for; every field is optional. */
  datatype ParsedRoutes = ParsedRoutes(
    city: Option<string>,
    days: Option<real>,
    routes: Option<seq<ItineraryRoute>>)

  function StringsToJson(xs: seq<string>): (r: seq<Json>)
    ensures |r| == |xs|
    ensures forall k | 0 <= k < |xs| :: r[k] == JString(xs[k])
  {
    if xs == [] then [] else [JString(xs[0])] + StringsToJson(xs[1..])
  }

  function DayToJson(d: DayObj): Json {
    JObject(map["day" := JNum(d.day), "places" := JArray(StringsToJson(d.places))])
  }

  function DaysToJson(ds: seq<DayObj>): (r: seq<Json>)
    ensures |r| == |ds|
    ensures forall k | 0 <= k < |ds| :: r[k] == DayToJson(ds[k])
  {
    if ds == [] then [] else [DayToJson(ds[0])] + DaysToJson(ds[1..])
  }

  function RouteToJson(rt: ItineraryRoute): Json {
    JObject(map["title" := JString(rt.title), "itinerary" := JArray(DaysToJson(rt.itinerary))])
  }

  function RoutesToJson(rs: seq<ItineraryRoute>): (r: seq<Json>)
    ensures |r| == |rs|
    ensures forall k | 0 <= k < |rs| :: r[k] == RouteToJson(rs[k])
  {
    if rs == [] then [] else [RouteToJson(rs[0])] + RoutesToJson(rs[1..])
  }

  /** The JSON object a `ParsedRoutes` document is written as: absent fields are absent keys. */
  function ToJson(p: ParsedRoutes): (j: Json)
    ensures j.JObject?
    ensures "routes" in j.fields <==> p.routes.Some?
    ensures p.routes.Some? ==> j.fields["routes"] == JArray(RoutesToJson(p.routes.value))
    ensures "city" in j.fields <==> p.city.Some?
    ensures "days" in j.fields <==> p.days.Some?
  {
    var withCity: map<string, Json> := if p.city.Some? then map["city" := JString(p.city.value)] else map[];
    var withDays := if p.days.Some? then withCity["days" := JNum(p.days.value)] else withCity;
    var all := if p.routes.Some? then withDays["routes" := JArray(RoutesToJson(p.routes.value))] else withDays;
    JObject(all)
  }
}
