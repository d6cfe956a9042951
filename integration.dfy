/** How the two pages read what the two listing Lambdas return. The admin
    board (phase_1/frontend/app.js) keeps a body only when it is an array;
    the patient page (patient/app.js) also accepts {slots: [...]} and fills
    the fields the cached listing renames or drops. */
module Integration {
  import opened Outcomes
  import opened JsonValues
  import opened Appointments
  import SlotListing
  import CachedListing
  import ClientBoard
  import PatientClient

  /** What `res.headers.get(name)` gives the page for a reply with these
      headers. A cross-origin reply lets the page read a header that is not
      CORS-safelisted only when Access-Control-Expose-Headers names it
      (the CORS protocol of the Fetch standard); otherwise the page reads
      null. Header names are matched as written, without case folding. */
  function PageHeader(headers: map<string, string>, name: string, crossOrigin: bool): (r: Option<string>)
    ensures r.Some? ==> name in headers && r.value == headers[name]
    ensures crossOrigin && "Access-Control-Expose-Headers" !in headers ==> r.None?
    ensures !crossOrigin && name in headers ==> r == Some(headers[name])
  {
    if name !in headers then None
    else if crossOrigin && !("Access-Control-Expose-Headers" in headers
                             && Text.Contains(headers["Access-Control-Expose-Headers"], name)) then None
    else Some(headers[name])
  }

  /** Every reply of the cached listing is an object, so the admin board
      shows no slots from it. The reply sends X-Cache but no
      Access-Control-Expose-Headers, so a page served from another origin
      shows NOT_EXPOSED_BY_CORS, and only a same-origin page shows HIT or
      MISS. */
  lemma BoardIgnoresCachedListing(entries: map<string, CachedListing.Entry>, connected: bool, readFault: bool,
                                  writeFault: bool, firstPage: seq<Item>, scanFault: bool, crossOrigin: bool)
    ensures var r := CachedListing.Handle(entries, connected, readFault, writeFault, firstPage, scanFault);
      r.result.Returned? ==>
        && ClientBoard.BodySlots(r.result.response.body) == Some([])
        && "X-Cache" in r.result.response.headers
        && "Access-Control-Expose-Headers" !in r.result.response.headers
        && ClientBoard.CacheLabel(PageHeader(r.result.response.headers, "X-Cache", crossOrigin))
           == (if crossOrigin then ClientBoard.NotExposed else r.result.response.headers["X-Cache"])
  {
    var r := CachedListing.Handle(entries, connected, readFault, writeFault, firstPage, scanFault);
    if r.result.Returned? {
      var tag := r.result.response.headers["X-Cache"];
      assert tag == "HIT" || tag == "MISS";
      assert |tag| > 0;
    }
  }

  /** The paginated listing sends no X-Cache at all, so the board shows
      NOT_EXPOSED_BY_CORS for it from any origin. */
  lemma BoardLabelOnListing(pages: seq<SlotListing.Page>, failAt: Option<nat>, errorText: string, crossOrigin: bool)
    requires SlotListing.ScanPages(pages)
    ensures var r := SlotListing.Handle(pages, failAt, errorText);
      ClientBoard.CacheLabel(PageHeader(r.headers, "X-Cache", crossOrigin)) == ClientBoard.NotExposed
  {
  }

  /** "UNKNOWN" is not a status the patient page selects. */
  lemma UnknownNotAvailable(id: Json, date: Json, time: Json)
    ensures !PatientClient.IsAvailable(PatientClient.Slot(id, date, time, JStr("UNKNOWN")))
  {
    assert |Text.Upper("UNKNOWN")| == 7;
  }

  /** The slot the patient page builds from one renamed item. */
  function CachedSlot(item: Item): PatientClient.Slot
    requires "appointmentId" in item && "appointmentDate" in item && "appointmentTime" in item
  {
    PatientClient.Slot(JStr(item["appointmentId"]), JStr(item["appointmentDate"]), JStr(item["appointmentTime"]),
                       JStr("UNKNOWN"))
  }

  /** The patient page reads a renamed list as one slot per item, in order,
      with id, date and time from slotId, date and time, and status UNKNOWN:
      no slot of the cached listing can be selected for booking. */
  lemma PatientPageOnRenamed(items: seq<Item>, source: Json)
    requires CachedListing.RenamedAll(items).Some?
    ensures var body := JObj(map["slots" := JArr(CachedListing.RenamedAll(items).value), "source" := source]);
      var r := PatientClient.AdaptSlots(body);
      && r.Some? && |r.value| == |items|
      && (forall k :: 0 <= k < |items| ==>
            && CachedListing.Renamed(items[k]).Some?
            && r.value[k] == CachedSlot(items[k])
            && !PatientClient.IsAvailable(r.value[k]))
  {
    var slots := CachedListing.RenamedAll(items).value;
    var body := JObj(map["slots" := JArr(slots), "source" := source]);
    assert map["slots" := JArr(slots), "source" := source] == map["source" := source]["slots" := JArr(slots)];
    PatientClient.AdaptWrapped(slots, map["source" := source]);
    forall k | 0 <= k < |items|
      ensures slots[k] != JNull && PatientClient.NormalizeSlot(slots[k]) == CachedSlot(items[k])
      ensures !PatientClient.IsAvailable(CachedSlot(items[k]))
    {
      RenamedSlot(items[k], slots[k]);
    }
    assert JNull !in slots;
  }

  /** The slot the patient page builds from one renamed item. */
  lemma RenamedSlot(item: Item, renamed: Json)
    requires CachedListing.Renamed(item) == Some(renamed)
    ensures renamed != JNull && PatientClient.NormalizeSlot(renamed) == CachedSlot(item)
    ensures !PatientClient.IsAvailable(CachedSlot(item))
  {
    var id, date, time := JStr(item["appointmentId"]), JStr(item["appointmentDate"]), JStr(item["appointmentTime"]);
    assert renamed == JObj(map["slotId" := id, "date" := date, "time" := time]);
    PatientClient.NormalizeCachedShape(id, date, time);
    UnknownNotAvailable(id, date, time);
  }

  /** A miss of the cached listing, read by the patient page. */
  lemma PatientPageOnCacheMiss(entries: map<string, CachedListing.Entry>, connected: bool, readFault: bool,
                               writeFault: bool, firstPage: seq<Item>)
    requires !(connected && !readFault && CachedListing.CacheKey in entries)
    requires CachedListing.RenamedAll(FilterAvailable(firstPage)).Some?
    ensures var r := CachedListing.Handle(entries, connected, readFault, writeFault, firstPage, false);
      var slots := PatientClient.AdaptSlots(r.result.response.body);
      && slots.Some? && |slots.value| == |FilterAvailable(firstPage)|
      && forall k :: 0 <= k < |slots.value| ==> !PatientClient.IsAvailable(slots.value[k])
  {
    CachedListing.MissCachesResult(entries, connected, readFault, writeFault, firstPage);
    PatientPageOnRenamed(FilterAvailable(firstPage), JStr("dynamodb"));
  }

  /** An AVAILABLE item keeps its status on the patient page. */
  lemma ItemSlotAvailable(item: Item)
    requires IsAvailable(item)
    ensures PatientClient.NormalizeSlot(ItemJson(item)).status == JStr("AVAILABLE")
    ensures PatientClient.IsAvailable(PatientClient.NormalizeSlot(ItemJson(item)))
  {
    var raw := ItemJson(item);
    var statuses := [Member(raw, "status"), Member(raw, "slotStatus")];
    assert statuses[0] == Some(JStr("AVAILABLE")) && !Nullish(statuses[0]);
    assert Text.Upper("AVAILABLE") == "AVAILABLE";
  }

  /** The plain listing, read by the patient page: one slot per listed
      item, in the listing's order, every one of them selectable. */
  lemma PatientPageOnListing(pages: seq<SlotListing.Page>, errorText: string)
    requires SlotListing.ScanPages(pages)
    ensures var body := SlotListing.Handle(pages, None, errorText).body;
      var slots := PatientClient.AdaptSlots(body);
      var listed := SlotListing.Listing(pages);
      && slots.Some? && |slots.value| == |listed|
      && forall k :: 0 <= k < |listed| ==>
           slots.value[k] == PatientClient.NormalizeSlot(ItemJson(listed[k]))
           && PatientClient.IsAvailable(slots.value[k])
  {
    var listed := SlotListing.Listing(pages);
    var arr := SlotListing.ItemsJson(listed);
    assert forall k :: 0 <= k < |arr| ==> arr[k].JObj?;
    assert JNull !in arr;
    forall k | 0 <= k < |listed| ensures PatientClient.IsAvailable(PatientClient.NormalizeSlot(ItemJson(listed[k]))) {
      SlotListing.ListingIsTheAvailableItems(pages, listed[k]);
      ItemSlotAvailable(listed[k]);
    }
  }
}
