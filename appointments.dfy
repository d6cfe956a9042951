/** The Appointments table the Lambdas and the seeding script share, keyed by
    appointmentId, and the HTTP responses the Lambdas hand back to API
    Gateway. */
module Appointments {
  import opened JsonValues

  /** One item: its string attributes (appointmentId, appointmentDate,
      appointmentTime, status, patientEmail, patientName, notes). */
  type Item = map<string, string>

  /** The table, updated in place by the Lambdas and the seeding script. */
  class Table {
    var items: map<string, Item>

    constructor(initial: map<string, Item>)
      ensures items == initial
    {
      items := initial;
    }
  }

  /** A Lambda proxy response; body is the value json.dumps writes out. */
  datatype Response = Response(statusCode: int, headers: map<string, string>, body: Json)

  /** How an invocation ends: a response, or an exception that escapes the
      handler (API Gateway then answers on its own). */
  datatype Invocation = Returned(response: Response) | Raised

  /** An item as the resource API hands it back: every attribute a string. */
  function ItemJson(item: Item): (r: Json)
    ensures r.JObj? && r.fields.Keys == item.Keys
    ensures forall k :: k in item ==> r.fields[k] == JStr(item[k])
  {
    JObj(map k | k in item :: JStr(item[k]))
  }

  /** item.get(key, ""). */
  function Attr(item: Item, key: string): string {
    if key in item then item[key] else ""
  }

  /** The scan filter `status = AVAILABLE` both listing Lambdas apply. */
  predicate IsAvailable(item: Item) {
    "status" in item && item["status"] == "AVAILABLE"
  }

  /** The items of a scan page that pass the filter, in page order. */
  function FilterAvailable(items: seq<Item>): (r: seq<Item>)
    ensures |r| <= |items|
    ensures forall k :: 0 <= k < |r| ==> IsAvailable(r[k])
    ensures forall x :: multiset(r)[x] == (if IsAvailable(x) then multiset(items)[x] else 0)
  {
    if items == [] then []
    else
      assert items == [items[0]] + items[1..];
      (if IsAvailable(items[0]) then [items[0]] else []) + FilterAvailable(items[1..])
  }
}
