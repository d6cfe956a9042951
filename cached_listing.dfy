/** The cache-aside listing Lambda
    (phase_1/lambda/GetBookingSlotLambda/lambda_function1.py): it answers from
    the Redis key appointments:available when that holds a value, and
    otherwise scans the table once, renames the fields and caches the result
    for sixty seconds. */
module CachedListing {
  import opened Outcomes
  import opened JsonValues
  import opened Appointments

  const CacheKey: string := "appointments:available"
  const CacheSeconds: nat := 60

  /** A cached value with the expiry it was written with. The value is what
      json.loads gives back for the text json.dumps stored. */
  datatype Entry = Entry(value: Json, ttl: nat)

  /** The Redis store; expiry itself is the store's business. */
  class Cache {
    var entries: map<string, Entry>

    constructor(initial: map<string, Entry>)
      ensures entries == initial
    {
      entries := initial;
    }
  }

  function Headers(source: string): map<string, string> {
    map["Content-Type" := "application/json", "Access-Control-Allow-Origin" := "*", "X-Cache" := source]
  }

  /** {'slotId', 'date', 'time'} from an item's id, date and time; None when
      one of them is missing (item[...] raises KeyError). */
  function Renamed(item: Item): (r: Option<Json>)
    ensures r.Some? <==> "appointmentId" in item && "appointmentDate" in item && "appointmentTime" in item
  {
    if "appointmentId" in item && "appointmentDate" in item && "appointmentTime" in item
    then Some(JObj(map["slotId" := JStr(item["appointmentId"]), "date" := JStr(item["appointmentDate"]),
                       "time" := JStr(item["appointmentTime"])]))
    else None
  }

  /** Every item renamed, in order. */
  function RenamedAll(items: seq<Item>): (r: Option<seq<Json>>)
    ensures r.Some? <==> forall k :: 0 <= k < |items| ==> Renamed(items[k]).Some?
    ensures r.Some? ==> |r.value| == |items| && forall k :: 0 <= k < |items| ==> Some(r.value[k]) == Renamed(items[k])
  {
    if items == [] then Some([])
    else
      match (RenamedAll(items[..|items| - 1]), Renamed(items[|items| - 1]))
      case (Some(front), Some(last)) => Some(front + [last])
      case _ => None
  }

  /** The renaming carries exactly the three fields, and no status. */
  lemma RenamedFields(item: Item)
    requires Renamed(item).Some?
    ensures Renamed(item).value.fields.Keys == {"slotId", "date", "time"}
    ensures Member(Renamed(item).value, "status").None?
  {
  }

  /** The for loop appending each renamed item to slots. */
  method RenameItems(items: seq<Item>) returns (slots: Option<seq<Json>>)
    ensures slots == RenamedAll(items)
  {
    var acc: seq<Json> := [];
    for i := 0 to |items|
      invariant RenamedAll(items[..i]) == Some(acc)
    {
      assert items[..i + 1][..i] == items[..i];
      var item := items[i];
      var renamed := Renamed(item);
      if renamed.None? {
        assert RenamedAll(items[..i + 1]).None?;
        RenamedNoneExtends(items, i + 1);
        return None;
      }
      acc := acc + [renamed.value];
    }
    assert items[..|items|] == items;
    slots := Some(acc);
  }

  lemma {:induction false} RenamedNoneExtends(items: seq<Item>, n: nat)
    requires n <= |items| && RenamedAll(items[..n]).None?
    ensures RenamedAll(items).None?
    decreases |items| - n
  {
    if n < |items| {
      assert items[..n + 1][..n] == items[..n];
      RenamedNoneExtends(items, n + 1);
    } else {
      assert items[..n] == items;
    }
  }

  /** How the handler ended and what it left in the cache. */
  datatype Outcome = Outcome(entries: map<string, Entry>, result: Invocation)

  /** lambda_handler. connected: a Redis client was created; readFault and
      writeFault: the get and the setex raise (both are caught); firstPage:
      the first page of the table, the only one read; scanFault: the scan
      raises, which nothing catches. */
  function Handle(entries: map<string, Entry>, connected: bool, readFault: bool, writeFault: bool,
                  firstPage: seq<Item>, scanFault: bool): (r: Outcome)
    ensures r.result.Returned? ==> r.result.response.statusCode == 200
  {
    if connected && !readFault && CacheKey in entries then
      Outcome(entries, Returned(Response(200, Headers("HIT"),
        JObj(map["slots" := entries[CacheKey].value, "source" := JStr("cache")]))))
    else if scanFault then Outcome(entries, Raised)
    else
      match RenamedAll(FilterAvailable(firstPage))
      case None => Outcome(entries, Raised)
      case Some(slots) =>
        var written := if connected && !writeFault then entries[CacheKey := Entry(JArr(slots), CacheSeconds)] else entries;
        Outcome(written, Returned(Response(200, Headers("MISS"),
          JObj(map["slots" := JArr(slots), "source" := JStr("dynamodb")]))))
  }

  /** A hit answers from the cache and changes nothing; without a client the
      answer never comes from the cache. */
  lemma HitServesCache(entries: map<string, Entry>, connected: bool, readFault: bool, writeFault: bool,
                       firstPage: seq<Item>, scanFault: bool)
    ensures var r := Handle(entries, connected, readFault, writeFault, firstPage, scanFault);
      (r.result.Returned? && r.result.response.headers["X-Cache"] == "HIT")
        <==> connected && !readFault && CacheKey in entries
    ensures var r := Handle(entries, connected, readFault, writeFault, firstPage, scanFault);
      connected && !readFault && CacheKey in entries ==>
        r.entries == entries && r.result.response.body == JObj(map["slots" := entries[CacheKey].value, "source" := JStr("cache")])
  {
  }

  /** A miss returns the renamed available items of the first page, and with
      a working client caches exactly that list for sixty seconds. */
  lemma MissCachesResult(entries: map<string, Entry>, connected: bool, readFault: bool, writeFault: bool,
                         firstPage: seq<Item>)
    requires !(connected && !readFault && CacheKey in entries)
    requires RenamedAll(FilterAvailable(firstPage)).Some?
    ensures var r := Handle(entries, connected, readFault, writeFault, firstPage, false);
      var slots := RenamedAll(FilterAvailable(firstPage)).value;
      && |slots| == |FilterAvailable(firstPage)|
      && r.result == Returned(Response(200, Headers("MISS"), JObj(map["slots" := JArr(slots), "source" := JStr("dynamodb")])))
      && (connected && !writeFault ==> r.entries == entries[CacheKey := Entry(JArr(slots), CacheSeconds)])
      && (!connected || writeFault ==> r.entries == entries)
  {
  }

  /** Cache-aside coherence: after a miss that wrote the cache, the next
      call is a hit with the same slots, and does not scan. */
  lemma HitAfterMiss(entries: map<string, Entry>, firstPage: seq<Item>, laterPage: seq<Item>, scanFault: bool)
    requires CacheKey !in entries && RenamedAll(FilterAvailable(firstPage)).Some?
    ensures var first := Handle(entries, true, false, false, firstPage, false);
      var second := Handle(first.entries, true, false, false, laterPage, scanFault);
      && second.result.Returned? && second.result.response.headers["X-Cache"] == "HIT"
      && second.result.response.body.fields["slots"] == first.result.response.body.fields["slots"]
  {
  }

  /** The cache-aside handler on the store, updated in place. */
  method Handler(cache: Cache, connected: bool, readFault: bool, writeFault: bool,
                 firstPage: seq<Item>, scanFault: bool) returns (result: Invocation)
    modifies cache
    ensures Outcome(cache.entries, result) == Handle(old(cache.entries), connected, readFault, writeFault, firstPage, scanFault)
  {
    if connected && !readFault && CacheKey in cache.entries {
      var slots := cache.entries[CacheKey].value;
      return Returned(Response(200, Headers("HIT"), JObj(map["slots" := slots, "source" := JStr("cache")])));
    }
    if scanFault {
      return Raised;
    }
    var renamed := RenameItems(FilterAvailable(firstPage));
    if renamed.None? {
      return Raised;
    }
    var slots := renamed.value;
    if connected && !writeFault {
      cache.entries := cache.entries[CacheKey := Entry(JArr(slots), CacheSeconds)];
    }
    result := Returned(Response(200, Headers("MISS"), JObj(map["slots" := JArr(slots), "source" := JStr("dynamodb")])));
  }
}
