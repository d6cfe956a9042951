/** The slot listing Lambda (phase_1/lambda/GetBookingSlotLambda/lambda_function.py):
    it scans the table for AVAILABLE items page by page, sorts them by date
    and time and returns them. */
module SlotListing {
  import opened Outcomes
  import opened Text
  import opened JsonValues
  import opened Sorting
  import opened Appointments

  const Headers: map<string, string> := map[
    "Content-Type" := "application/json",
    "Access-Control-Allow-Origin" := "*",
    "Access-Control-Allow-Methods" := "GET,OPTIONS",
    "Access-Control-Allow-Headers" := "Content-Type"]

  /** One page of the table as a scan call reads it, before the filter, and
      whether the reply carries a LastEvaluatedKey. */
  datatype Page = Page(items: seq<Item>, hasMore: bool)

  /** The pages successive scan calls return: every one but the last carries
      a LastEvaluatedKey. */
  predicate ScanPages(pages: seq<Page>) {
    && pages != []
    && (forall k :: 0 <= k < |pages| - 1 ==> pages[k].hasMore)
    && !pages[|pages| - 1].hasMore
  }

  /** The items the loop collects from the pages, in page order. */
  function Collected(pages: seq<Page>): (r: seq<Item>)
    ensures forall k :: 0 <= k < |r| ==> IsAvailable(r[k])
  {
    if pages == [] then []
    else Collected(pages[..|pages| - 1]) + FilterAvailable(pages[|pages| - 1].items)
  }

  /** An item is collected as often as it occurs, available, on the pages. */
  lemma {:induction false} CollectedMultiplicity(pages: seq<Page>, x: Item)
    ensures multiset(Collected(pages))[x]
         == (if IsAvailable(x) then PageCount(pages, x) else 0)
  {
    if pages != [] {
      CollectedMultiplicity(pages[..|pages| - 1], x);
    }
  }

  /** How often an item occurs on the pages. */
  function PageCount(pages: seq<Page>, x: Item): nat {
    if pages == [] then 0
    else PageCount(pages[..|pages| - 1], x) + multiset(pages[|pages| - 1].items)[x]
  }

  /** The sort key (appointmentDate, appointmentTime), "" for a missing one,
      compared as Python compares tuples of strings. */
  function KeyLe(a: Item, b: Item): (r: bool)
    ensures Attr(a, "appointmentDate") != Attr(b, "appointmentDate") ==>
              (r <==> LexLe(Attr(a, "appointmentDate"), Attr(b, "appointmentDate")))
    ensures Attr(a, "appointmentDate") == Attr(b, "appointmentDate") ==>
              (r <==> LexLe(Attr(a, "appointmentTime"), Attr(b, "appointmentTime")))
  {
    LexLt(Attr(a, "appointmentDate"), Attr(b, "appointmentDate"))
    || (Attr(a, "appointmentDate") == Attr(b, "appointmentDate")
        && LexLe(Attr(a, "appointmentTime"), Attr(b, "appointmentTime")))
  }

  lemma KeyLeTotalPreorder()
    ensures IsTotalPreorder(KeyLe)
  {
    forall a, b ensures KeyLe(a, b) || KeyLe(b, a) {
      LexLeTotal(Attr(a, "appointmentDate"), Attr(b, "appointmentDate"));
      LexLeTotal(Attr(a, "appointmentTime"), Attr(b, "appointmentTime"));
    }
    forall a, b, c | KeyLe(a, b) && KeyLe(b, c) ensures KeyLe(a, c) {
      var da, db, dc := Attr(a, "appointmentDate"), Attr(b, "appointmentDate"), Attr(c, "appointmentDate");
      if da == db && db == dc {
        LexLeTransitive(Attr(a, "appointmentTime"), Attr(b, "appointmentTime"), Attr(c, "appointmentTime"));
      } else {
        LexLeTotal(da, da);
        LexLeTotal(db, db);
        LexLeTransitive(da, db, dc);
        if da == dc {
          LexLeAntisymmetric(da, db);
        }
      }
    }
  }

  /** The list the handler returns for the scanned pages: the collected
      items ordered by their key. */
  function Listing(pages: seq<Page>): (r: seq<Item>)
    ensures SortedBy(r, KeyLe)
    ensures multiset(r) == multiset(Collected(pages))
  {
    KeyLeTotalPreorder();
    SortBy(Collected(pages), KeyLe)
  }

  function Resp(statusCode: int, body: Json): Response {
    Response(statusCode, Headers, body)
  }

  /** handler: failAt is the index of the scan call that raises, if one
      does; errorText is str(e). The reply is 200 with the listing exactly
      when every scan call of the pages succeeds, and otherwise 500 with the
      error's text. */
  function Handle(pages: seq<Page>, failAt: Option<nat>, errorText: string): (r: Response)
    requires ScanPages(pages)
    ensures r.headers == Headers
    ensures r.statusCode == 200 <==> failAt.None? || failAt.value >= |pages|
    ensures r.statusCode == 200 ==> r.body == JArr(ItemsJson(Listing(pages)))
    ensures r.statusCode != 200 ==> r.statusCode == 500 && r.body == JObj(map["error" := JStr(errorText)])
  {
    if failAt.Some? && failAt.value < |pages| then Resp(500, JObj(map["error" := JStr(errorText)]))
    else Resp(200, JArr(ItemsJson(Listing(pages))))
  }

  function ItemsJson(items: seq<Item>): (r: seq<Json>)
    ensures |r| == |items| && forall k :: 0 <= k < |items| ==> r[k] == ItemJson(items[k])
  {
    seq(|items|, k requires 0 <= k < |items| => ItemJson(items[k]))
  }

  /** Every returned slot is AVAILABLE, and every AVAILABLE item on the
      scanned pages is returned, as often as it occurs there. */
  lemma ListingIsTheAvailableItems(pages: seq<Page>, x: Item)
    ensures x in Listing(pages) ==> IsAvailable(x)
    ensures multiset(Listing(pages))[x] == (if IsAvailable(x) then PageCount(pages, x) else 0)
  {
    CollectedMultiplicity(pages, x);
    if x in Listing(pages) {
      assert x in multiset(Collected(pages));
      assert x in Collected(pages);
    }
  }

  /** The key compares times as text: "01:00 PM" sorts before "09:00 AM" on
      the same day. */
  lemma TextOrderOfTimes(a: Item, b: Item)
    requires a == map["appointmentDate" := "2025-01-06", "appointmentTime" := "01:00 PM"]
    requires b == map["appointmentDate" := "2025-01-06", "appointmentTime" := "09:00 AM"]
    ensures KeyLe(a, b) && !KeyLe(b, a)
  {
    assert Attr(a, "appointmentDate") == Attr(b, "appointmentDate");
    assert Attr(a, "appointmentTime")[1] == '1' && Attr(b, "appointmentTime")[1] == '9';
  }

  lemma CollectedStep(pages: seq<Page>, i: nat)
    requires i < |pages|
    ensures Collected(pages[..i + 1]) == Collected(pages[..i]) + FilterAvailable(pages[i].items)
  {
    var prefix := pages[..i + 1];
    assert prefix[..|prefix| - 1] == pages[..i] && prefix[|prefix| - 1] == pages[i];
  }

  /** The loop stops at the last page, having read them all. */
  lemma LastScan(pages: seq<Page>, i: nat)
    requires ScanPages(pages) && i < |pages| && !pages[i].hasMore
    ensures i == |pages| - 1 && pages[..i + 1] == pages
  {
  }

  /** The handler's loop: scan, then scan again from the last key while the
      reply has one, extending the list. None when a scan call raises. */
  method ScanAll(pages: seq<Page>, failAt: Option<nat>) returns (items: Option<seq<Item>>)
    requires ScanPages(pages)
    ensures items == if failAt.Some? && failAt.value < |pages| then None else Some(Collected(pages))
  {
    var failing: int := if failAt.Some? then failAt.value else -1;
    if failing == 0 {
      return None;
    }
    var result := pages[0];
    var collected := FilterAvailable(result.items);
    var i := 0;
    assert pages[..1] == [pages[0]];
    while result.hasMore
      invariant 0 <= i < |pages| && result == pages[i]
      invariant collected == Collected(pages[..i + 1])
      invariant failing < 0 || failing > i
      decreases |pages| - i
    {
      i := i + 1;
      if failing == i {
        assert failAt.Some? && failAt.value < |pages|;
        return None;
      }
      result := pages[i];
      CollectedStep(pages, i);
      collected := collected + FilterAvailable(result.items);
    }
    LastScan(pages, i);
    assert !(failAt.Some? && failAt.value < |pages|);
    items := Some(collected);
  }

  /** handler: the scan, then the in-place sort by key. */
  method Handler(pages: seq<Page>, failAt: Option<nat>, errorText: string) returns (response: Response)
    requires ScanPages(pages)
    ensures response == Handle(pages, failAt, errorText)
  {
    var scanned := ScanAll(pages, failAt);
    if scanned.None? {
      return Resp(500, JObj(map["error" := JStr(errorText)]));
    }
    var items := scanned.value;
    KeyLeTotalPreorder();
    items := SortBy(items, KeyLe);
    response := Resp(200, JArr(ItemsJson(items)));
  }
}
