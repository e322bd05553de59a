/** The two FHIR endpoints: listing a user's measurements as a searchset
    Bundle, and creating a measurement from a posted Observation or Bundle,
    where the first blood-pressure panel and the first heart rate found win. */
module FhirRouter {
  import opened Wrappers
  import opened Python
  import opened Json
  import opened FhirResources
  import opened FhirParse
  import Db

  const NoBpFound := "No valid BP Observation (LOINC 85354-9) found"
  const HrRequired := "Heart rate (LOINC 8867-4) is required"

  // --------------------------------------------------------------- listing

  /** A searchset entry. */
  function Entry(fullUrl: string, resource: Json): Json {
    JObject(map["fullUrl" := JStr(fullUrl), "resource" := resource])
  }

  /** The two entries one measurement contributes: its panel, then its heart rate. */
  function MeasurementEntries(m: Db.Measurement, userId: string, iso: int -> string): seq<Json> {
    [Entry("urn:uuid:" + m.id, ObservationBp(m, userId, iso)),
     Entry("urn:uuid:" + m.id + "-hr", ObservationHr(m, userId, iso))]
  }

  /** The entries of the listing, in the order of the query result. */
  function ListEntries(ms: seq<Db.Measurement>, userId: string, iso: int -> string): seq<Json> {
    if ms == [] then []
    else ListEntries(ms[..|ms| - 1], userId, iso) + MeasurementEntries(ms[|ms| - 1], userId, iso)
  }

  /** Two entries per measurement, in the order of the measurements. */
  lemma {:induction false} ListShape(ms: seq<Db.Measurement>, userId: string, iso: int -> string)
    ensures |ListEntries(ms, userId, iso)| == 2 * |ms|
    ensures forall k :: 0 <= k < |ms| ==>
              ListEntries(ms, userId, iso)[2 * k] == MeasurementEntries(ms[k], userId, iso)[0]
              && ListEntries(ms, userId, iso)[2 * k + 1] == MeasurementEntries(ms[k], userId, iso)[1]
  {
    if ms != [] {
      var init := ms[..|ms| - 1];
      ListShape(init, userId, iso);
      var es := ListEntries(ms, userId, iso);
      assert es == ListEntries(init, userId, iso) + MeasurementEntries(ms[|ms| - 1], userId, iso);
      forall k | 0 <= k < |ms|
        ensures es[2 * k] == MeasurementEntries(ms[k], userId, iso)[0]
        ensures es[2 * k + 1] == MeasurementEntries(ms[k], userId, iso)[1]
      {
        if k < |ms| - 1 {
          assert init[k] == ms[k];
        }
      }
    }
  }

  /** The entries alternate panel and heart rate, the heart-rate id being
      the panel id followed by "-hr". */
  lemma ListAlternates(ms: seq<Db.Measurement>, userId: string, iso: int -> string, k: nat)
    requires k < |ms|
    ensures 2 * k + 1 < |ListEntries(ms, userId, iso)|
    ensures ListEntries(ms, userId, iso)[2 * k] == Entry("urn:uuid:" + ms[k].id, ObservationBp(ms[k], userId, iso))
    ensures ListEntries(ms, userId, iso)[2 * k + 1] == Entry("urn:uuid:" + ms[k].id + "-hr", ObservationHr(ms[k], userId, iso))
  {
    ListShape(ms, userId, iso);
  }

  /** The searchset Bundle of `list_observations_fhir`. */
  function SearchBundle(ms: seq<Db.Measurement>, userId: string, iso: int -> string): (r: Json)
    ensures r.JObject? && Lookup(r.fields, "resourceType") == JStr("Bundle")
    ensures Lookup(r.fields, "type") == JStr("searchset")
    ensures Lookup(r.fields, "total") == JInt(2 * |ms|)
  {
    var entries := ListEntries(ms, userId, iso);
    ListShape(ms, userId, iso);
    JObject(map["resourceType" := JStr("Bundle"), "type" := JStr("searchset"),
                "total" := JInt(|entries|), "entry" := JArray(entries)])
  }

  /** `list_observations_fhir`, with its loop; `ms` is the query result. */
  method ListObservationsFhir(ms: seq<Db.Measurement>, userId: string, iso: int -> string) returns (bundle: Json)
    ensures bundle == SearchBundle(ms, userId, iso)
  {
    var entries: seq<Json> := [];
    for i := 0 to |ms|
      invariant entries == ListEntries(ms[..i], userId, iso)
    {
      ListEntriesStep(ms, i, userId, iso);
      ghost var before := entries;
      var panel := Entry("urn:uuid:" + ms[i].id, ObservationBp(ms[i], userId, iso));
      var heartRate := Entry("urn:uuid:" + ms[i].id + "-hr", ObservationHr(ms[i], userId, iso));
      entries := entries + [panel];
      entries := entries + [heartRate];
      assert MeasurementEntries(ms[i], userId, iso) == [panel, heartRate];
      assert entries == before + [panel, heartRate];
    }
    assert ms[..|ms|] == ms;
    bundle := JObject(map["resourceType" := JStr("Bundle"), "type" := JStr("searchset"),
                          "total" := JInt(|entries|), "entry" := JArray(entries)]);
    SearchBundleIs(ms, userId, iso);
  }

  /** The search Bundle as a map of its four members. */
  lemma SearchBundleIs(ms: seq<Db.Measurement>, userId: string, iso: int -> string)
    ensures SearchBundle(ms, userId, iso)
            == JObject(map["resourceType" := JStr("Bundle"), "type" := JStr("searchset"),
                           "total" := JInt(|ListEntries(ms, userId, iso)|), "entry" := JArray(ListEntries(ms, userId, iso))])
  {
  }

  /** One more measurement adds its two entries at the end. */
  lemma ListEntriesStep(ms: seq<Db.Measurement>, i: nat, userId: string, iso: int -> string)
    requires i < |ms|
    ensures ListEntries(ms[..i + 1], userId, iso) == ListEntries(ms[..i], userId, iso) + MeasurementEntries(ms[i], userId, iso)
  {
    assert ms[..i + 1][..i] == ms[..i];
  }

  // -------------------------------------------------------------- creation

  /** `[e.get("resource") for e in entries if isinstance(e, dict)]`. */
  function EntryResources(entries: seq<Json>): seq<Json> {
    if entries == [] then []
    else (if entries[0].JObject? then [Lookup(entries[0].fields, "resource")] else [])
         + EntryResources(entries[1..])
  }

  /** When every entry is a dict, the resources are the entries' "resource"
      members, one for one. */
  lemma {:induction false} EntryResourcesOfDicts(entries: seq<Json>)
    requires forall k :: 0 <= k < |entries| ==> entries[k].JObject?
    ensures |EntryResources(entries)| == |entries|
    ensures forall k :: 0 <= k < |entries| ==> EntryResources(entries)[k] == Lookup(entries[k].fields, "resource")
  {
    if entries != [] {
      EntryResourcesOfDicts(entries[1..]);
      forall k | 0 <= k < |entries|
        ensures EntryResources(entries)[k] == Lookup(entries[k].fields, "resource")
      {
        if k > 0 {
          assert entries[1..][k - 1] == entries[k];
        }
      }
    }
  }

  /** The resources a payload offers: a Bundle's dict entries, or the payload
      itself. A Bundle whose `entry` is a str or dict yields none; one whose
      `entry` is an int or null is not iterable. */
  function Resources(payload: map<string, Json>): Outcome<seq<Json>> {
    if Lookup(payload, "resourceType") == JStr("Bundle") then
      var it :- Iterate(GetField(payload, "entry", EmptyArray));
      match it
      case Items(entries) => Ok(EntryResources(entries))
      case Strs(_) => Ok([])
    else Ok([JObject(payload)])
  }

  /** What the scan has found so far. */
  datatype Found = Found(bp: Option<BpData>, hr: Option<int>)

  /** One turn of the scan: non-dicts are skipped; the panel parser runs
      while no panel is found and its exceptions propagate; the heart-rate
      extractor runs while no heart rate is found and its exceptions count
      as None. */
  function ScanStep(res: Json, f: Found, now: int, parseIso: string -> Option<int>): Outcome<Found> {
    if !res.JObject? then Ok(f)
    else
      var bp :- if f.bp.None? then ParsedBp(res.fields, now, parseIso) else Ok(f.bp);
      var hr := if f.hr.None? then (var h := ExtractedHr(res.fields); if h.Ok? then h.value else None) else f.hr;
      Ok(Found(bp, hr))
  }

  /** The loop over the resources. */
  function Scan(rs: seq<Json>, f: Found, now: int, parseIso: string -> Option<int>): Outcome<Found> {
    if rs == [] then Ok(f)
    else
      var f' :- ScanStep(rs[0], f, now, parseIso);
      Scan(rs[1..], f', now, parseIso)
  }

  /** The scan from position `i` is one step, then the scan of the rest. */
  lemma ScanUnfold(rs: seq<Json>, i: nat, f: Found, now: int, parseIso: string -> Option<int>)
    requires i < |rs|
    ensures Scan(rs[i..], f, now, parseIso)
            == (var f' :- ScanStep(rs[i], f, now, parseIso); Scan(rs[i + 1..], f', now, parseIso))
  {
    assert rs[i..][0] == rs[i] && rs[i..][1..] == rs[i + 1..];
  }

  /** Reference definition: the first panel among the dict resources, the
      first exception from parsing a dict resource before it, or None. */
  function FirstBp(rs: seq<Json>, now: int, parseIso: string -> Option<int>): Outcome<Option<BpData>> {
    if rs == [] then Ok(None)
    else if !rs[0].JObject? then FirstBp(rs[1..], now, parseIso)
    else
      var bp :- ParsedBp(rs[0].fields, now, parseIso);
      if bp.Some? then Ok(bp) else FirstBp(rs[1..], now, parseIso)
  }

  /** Reference definition: the first heart rate any dict resource yields
      without an exception. */
  function FirstHr(rs: seq<Json>): Option<int> {
    if rs == [] then None
    else if rs[0].JObject? && ExtractedHr(rs[0].fields).Ok? && ExtractedHr(rs[0].fields).value.Some? then
      ExtractedHr(rs[0].fields).value
    else FirstHr(rs[1..])
  }

  /** The scan is two independent searches: the first panel, whose
      exceptions abort the scan, and the first heart rate. */
  lemma {:induction false} ScanIsFirstBpAndFirstHr(rs: seq<Json>, f: Found, now: int, parseIso: string -> Option<int>)
    ensures Scan(rs, f, now, parseIso)
            == (var bp :- (if f.bp.Some? then Ok(f.bp) else FirstBp(rs, now, parseIso));
                Ok(Found(bp, if f.hr.Some? then f.hr else FirstHr(rs))))
  {
    if rs != [] {
      var step := ScanStep(rs[0], f, now, parseIso);
      if step.Ok? {
        ScanIsFirstBpAndFirstHr(rs[1..], step.value, now, parseIso);
      }
    }
  }

  /** A panel that raises aborts the whole scan when no panel came before
      it, even if a valid panel follows. */
  lemma {:induction false} BrokenPanelAborts(rs: seq<Json>, i: nat, e: Exc, now: int, parseIso: string -> Option<int>)
    requires i < |rs| && rs[i].JObject? && ParsedBp(rs[i].fields, now, parseIso) == Raised(e)
    requires forall j :: 0 <= j < i ==> !rs[j].JObject? || ParsedBp(rs[j].fields, now, parseIso) == Ok(None)
    ensures FirstBp(rs, now, parseIso) == Raised(e)
    ensures Scan(rs, Found(None, None), now, parseIso) == Raised(e)
  {
    if i > 0 {
      BrokenPanelAborts(rs[1..], i - 1, e, now, parseIso);
    }
    ScanIsFirstBpAndFirstHr(rs, Found(None, None), now, parseIso);
  }

  /** The Bundle `create_observation_fhir` answers with. */
  function CollectionBundle(m: Db.Measurement, userId: string, iso: int -> string): Json {
    JObject(map["resourceType" := JStr("Bundle"), "type" := JStr("collection"),
                "entry" := JArray([JObject(map["resource" := ObservationBp(m, userId, iso)]),
                                   JObject(map["resource" := ObservationHr(m, userId, iso)])])])
  }

  /** `create_observation_fhir` up to the insert: the stored measurement and
      the reply. `newId` is the id the database assigns. */
  function Created(payload: map<string, Json>, userId: string, newId: string, now: int,
                   parseIso: string -> Option<int>, iso: int -> string): (r: Outcome<(Db.Measurement, Json)>)
    ensures r.Ok? ==> Db.ValidMeasurement(r.value.0) && r.value.0.id == newId && r.value.0.userId == userId
    ensures r.Ok? ==> r.value.0.tags == [] && r.value.1 == CollectionBundle(r.value.0, userId, iso)
    ensures Resources(payload).Ok? && Scan(Resources(payload).value, Found(None, None), now, parseIso).Ok? ==>
              var f := Scan(Resources(payload).value, Found(None, None), now, parseIso).value;
              (f.bp.None? ==> r == Raised(HTTPException(400, NoBpFound)))
              && (f.bp.Some? && f.hr.None? ==> r == Raised(HTTPException(400, HrRequired)))
              && (f.bp.Some? && f.hr.Some? && r.Ok? ==>
                    r.value.0.systolic == f.bp.value.systolic && r.value.0.diastolic == f.bp.value.diastolic
                    && r.value.0.pulse == f.hr.value && r.value.0.timestamp == f.bp.value.timestamp
                    && r.value.0.notes == f.bp.value.notes)
  {
    var rs :- Resources(payload);
    var f :- Scan(rs, Found(None, None), now, parseIso);
    if f.bp.None? then Raised(HTTPException(400, NoBpFound))
    else if f.hr.None? then Raised(HTTPException(400, HrRequired))
    else
      var bp := f.bp.value;
      var m :- Db.NewMeasurement(newId, userId, bp.systolic, bp.diastolic, f.hr.value,
                                 Some(bp.timestamp), now, Some([]), bp.notes);
      Ok((m, CollectionBundle(m, userId, iso)))
  }

  /** `Created` passes on the exception of reading the resources or of the scan. */
  lemma CreatedAborts(payload: map<string, Json>, userId: string, newId: string, now: int,
                      parseIso: string -> Option<int>, iso: int -> string)
    ensures Resources(payload).Raised? ==>
              Created(payload, userId, newId, now, parseIso, iso) == Raised(Resources(payload).exc)
    ensures Resources(payload).Ok? && Scan(Resources(payload).value, Found(None, None), now, parseIso).Raised? ==>
              Created(payload, userId, newId, now, parseIso, iso)
              == Raised(Scan(Resources(payload).value, Found(None, None), now, parseIso).exc)
  {
  }

  /** What `Created` gives once the scan has found `f`. */
  lemma CreatedOfScan(payload: map<string, Json>, userId: string, newId: string, now: int,
                      parseIso: string -> Option<int>, iso: int -> string, f: Found)
    requires Resources(payload).Ok? && Scan(Resources(payload).value, Found(None, None), now, parseIso) == Ok(f)
    ensures f.bp.None? ==> Created(payload, userId, newId, now, parseIso, iso) == Raised(HTTPException(400, NoBpFound))
    ensures f.bp.Some? && f.hr.None? ==> Created(payload, userId, newId, now, parseIso, iso) == Raised(HTTPException(400, HrRequired))
    ensures f.bp.Some? && f.hr.Some? ==>
              var m := Db.NewMeasurement(newId, userId, f.bp.value.systolic, f.bp.value.diastolic, f.hr.value,
                                         Some(f.bp.value.timestamp), now, Some([]), f.bp.value.notes);
              Created(payload, userId, newId, now, parseIso, iso)
              == if m.Raised? then Raised(m.exc) else Ok((m.value, CollectionBundle(m.value, userId, iso)))
  {
  }

  /** The loop of `create_observation_fhir` over the resources: each dict
      resource goes to the panel parser until a panel is found, whose
      exceptions propagate, and to the heart-rate extractor until a heart rate
      is found, whose exceptions are swallowed. */
  method ScanResources(rs: seq<Json>, now: int, parseIso: string -> Option<int>) returns (r: Outcome<Found>)
    ensures r == Scan(rs, Found(None, None), now, parseIso)
  {
    var bp: Option<BpData> := None;
    var hr: Option<int> := None;
    var i := 0;
    while i < |rs|
      invariant 0 <= i <= |rs|
      invariant Scan(rs, Found(None, None), now, parseIso) == Scan(rs[i..], Found(bp, hr), now, parseIso)
    {
      var res := rs[i];
      ScanUnfold(rs, i, Found(bp, hr), now, parseIso);
      if res.JObject? {
        if bp.None? {
          var parsed := ParseBpObservation(res.fields, now, parseIso);
          if parsed.Raised? {
            return Raised(parsed.exc);
          }
          bp := parsed.value;
        }
        if hr.None? {
          var extracted := ExtractHrFrom(res.fields);
          hr := if extracted.Ok? then extracted.value else None;
        }
      }
      i := i + 1;
    }
    assert rs[i..] == [];
    r := Ok(Found(bp, hr));
  }

  /** `create_observation_fhir`: the resources are scanned, and the
      measurement is inserted into the collection. */
  method CreateObservationFhir(store: Db.MeasurementStore, payload: map<string, Json>, userId: string, newId: string,
                               now: int, parseIso: string -> Option<int>, iso: int -> string)
    returns (r: Outcome<Json>)
    requires store.Valid()
    modifies store
    ensures store.Valid()
    ensures var c := Created(payload, userId, newId, now, parseIso, iso);
            if c.Ok? then r == Ok(c.value.1) && store.measurements == old(store.measurements) + [c.value.0]
            else r == Raised(c.exc) && store.measurements == old(store.measurements)
  {
    CreatedAborts(payload, userId, newId, now, parseIso, iso);
    var rs := Resources(payload);
    if rs.Raised? {
      return Raised(rs.exc);
    }
    var found := ScanResources(rs.value, now, parseIso);
    if found.Raised? {
      return Raised(found.exc);
    }
    var f := found.value;
    CreatedOfScan(payload, userId, newId, now, parseIso, iso, f);
    if f.bp.None? {
      return Raised(HTTPException(400, NoBpFound));
    }
    if f.hr.None? {
      return Raised(HTTPException(400, HrRequired));
    }
    var m := Db.NewMeasurement(newId, userId, f.bp.value.systolic, f.bp.value.diastolic, f.hr.value,
                               Some(f.bp.value.timestamp), now, Some([]), f.bp.value.notes);
    if m.Raised? {
      return Raised(m.exc);
    }
    store.Add(m.value);
    r := Ok(CollectionBundle(m.value, userId, iso));
  }

  // ------------------------------------------------------------ round trips

  /** Posting back the Bundle a create answered with stores the same
      readings and time under the new id; notes are not carried over. */
  lemma CreateFromOwnReply(m: Db.Measurement, userId: string, newId: string, now: int,
                           parseIso: string -> Option<int>, iso: int -> string)
    requires Db.ValidMeasurement(m)
    requires iso(m.timestamp) != "" && parseIso(iso(m.timestamp)) == Some(m.timestamp)
    ensures Created(CollectionBundle(m, userId, iso).fields, userId, newId, now, parseIso, iso).Ok?
    ensures Created(CollectionBundle(m, userId, iso).fields, userId, newId, now, parseIso, iso).value.0
            == m.(id := newId, userId := userId, tags := [], notes := None)
  {
    var bpRes := ObservationBp(m, userId, iso);
    var hrRes := ObservationHr(m, userId, iso);
    var entries := [JObject(map["resource" := bpRes]), JObject(map["resource" := hrRes])];
    EntryResourcesOfDicts(entries);
    var bundle := CollectionBundle(m, userId, iso).fields;
    assert Lookup(bundle, "resourceType") == JStr("Bundle");
    assert GetField(bundle, "entry", EmptyArray) == JArray(entries);
    assert EntryResources(entries) == [bpRes, hrRes];
    assert Resources(bundle) == Ok([bpRes, hrRes]);
    BothFound(m, userId, now, parseIso, iso, [bpRes, hrRes]);
  }

  /** Every entry of a listing is a dict. */
  lemma {:induction false} ListEntriesAreDicts(ms: seq<Db.Measurement>, userId: string, iso: int -> string)
    ensures forall k :: 0 <= k < |ListEntries(ms, userId, iso)| ==> ListEntries(ms, userId, iso)[k].JObject?
  {
    if ms != [] {
      var front := ListEntries(ms[..|ms| - 1], userId, iso);
      var last := MeasurementEntries(ms[|ms| - 1], userId, iso);
      ListEntriesAreDicts(ms[..|ms| - 1], userId, iso);
      assert ListEntries(ms, userId, iso) == front + last;
      assert last[0].JObject? && last[1].JObject? && |last| == 2;
    }
  }

  /** The resources of a non-empty listing start with its first
      measurement's panel and heart rate. */
  lemma ListingResources(ms: seq<Db.Measurement>, userId: string, iso: int -> string)
    requires |ms| > 0
    ensures Resources(SearchBundle(ms, userId, iso).fields).Ok?
    ensures |Resources(SearchBundle(ms, userId, iso).fields).value| >= 2
    ensures Resources(SearchBundle(ms, userId, iso).fields).value[0] == ObservationBp(ms[0], userId, iso)
    ensures Resources(SearchBundle(ms, userId, iso).fields).value[1] == ObservationHr(ms[0], userId, iso)
  {
    var entries := ListEntries(ms, userId, iso);
    ListShape(ms, userId, iso);
    ListEntriesAreDicts(ms, userId, iso);
    EntryResourcesOfDicts(entries);
    SearchBundleResources(ms, userId, iso);
    assert entries[0] == Entry("urn:uuid:" + ms[0].id, ObservationBp(ms[0], userId, iso));
    assert entries[1] == Entry("urn:uuid:" + ms[0].id + "-hr", ObservationHr(ms[0], userId, iso));
  }

  /** A listing's resources are the resources of its entries. */
  lemma SearchBundleResources(ms: seq<Db.Measurement>, userId: string, iso: int -> string)
    ensures Resources(SearchBundle(ms, userId, iso).fields) == Ok(EntryResources(ListEntries(ms, userId, iso)))
  {
    var b := SearchBundle(ms, userId, iso).fields;
    assert Lookup(b, "entry") == JArray(ListEntries(ms, userId, iso));
  }

  /** Posting back a listing stores the readings of its first measurement. */
  lemma CreateFromListing(ms: seq<Db.Measurement>, userId: string, newId: string, now: int,
                          parseIso: string -> Option<int>, iso: int -> string)
    requires |ms| > 0 && Db.ValidMeasurement(ms[0])
    requires iso(ms[0].timestamp) != "" && parseIso(iso(ms[0].timestamp)) == Some(ms[0].timestamp)
    ensures Created(SearchBundle(ms, userId, iso).fields, userId, newId, now, parseIso, iso).Ok?
    ensures Created(SearchBundle(ms, userId, iso).fields, userId, newId, now, parseIso, iso).value.0
            == ms[0].(id := newId, userId := userId, tags := [], notes := None)
  {
    ListingResources(ms, userId, iso);
    BothFound(ms[0], userId, now, parseIso, iso, Resources(SearchBundle(ms, userId, iso).fields).value);
  }

  /** Resources starting with a measurement's panel and heart rate create
      that measurement's readings, whatever follows. */
  lemma BothFound(m: Db.Measurement, userId: string, now: int, parseIso: string -> Option<int>,
                  iso: int -> string, rs: seq<Json>)
    requires Db.ValidMeasurement(m)
    requires iso(m.timestamp) != "" && parseIso(iso(m.timestamp)) == Some(m.timestamp)
    requires |rs| >= 2 && rs[0] == ObservationBp(m, userId, iso) && rs[1] == ObservationHr(m, userId, iso)
    ensures Scan(rs, Found(None, None), now, parseIso)
            == Ok(Found(Some(BpData(m.systolic, m.diastolic, m.timestamp, None)), Some(m.pulse)))
    ensures forall payload: map<string, Json>, newId: string | Resources(payload) == Ok(rs) ::
              Created(payload, userId, newId, now, parseIso, iso).Ok?
              && Created(payload, userId, newId, now, parseIso, iso).value.0
                 == m.(id := newId, userId := userId, tags := [], notes := None)
  {
    BpRoundTrip(m, userId, iso, now, parseIso);
    BpCarriesNoHr(m, userId, iso);
    HrRoundTrip(m, userId, iso);
    ScanIsFirstBpAndFirstHr(rs, Found(None, None), now, parseIso);
    assert FirstBp(rs, now, parseIso) == Ok(Some(BpData(m.systolic, m.diastolic, m.timestamp, None)));
    assert FirstHr(rs) == Some(m.pulse) by {
      assert FirstHr(rs) == FirstHr(rs[1..]);
      assert rs[1..][0] == rs[1];
    }
  }

  /** A lone panel is refused: the heart rate is mandatory. */
  lemma LonePanelRejected(m: Db.Measurement, userId: string, newId: string, now: int,
                          parseIso: string -> Option<int>, iso: int -> string)
    requires iso(m.timestamp) != "" && parseIso(iso(m.timestamp)) == Some(m.timestamp)
    ensures Created(ObservationBp(m, userId, iso).fields, userId, newId, now, parseIso, iso)
            == Raised(HTTPException(400, HrRequired))
  {
    var res := ObservationBp(m, userId, iso);
    BpPanelSteps(m, userId, iso);
    assert Resources(res.fields) == Ok([res]);
    BpRoundTrip(m, userId, iso, now, parseIso);
    BpCarriesNoHr(m, userId, iso);
    var found := Found(Some(BpData(m.systolic, m.diastolic, m.timestamp, None)), None);
    assert ScanStep(res, Found(None, None), now, parseIso) == Ok(found);
    assert [res][1..] == [];
    assert Scan([res], Found(None, None), now, parseIso) == Ok(found);
    CreatedOfScan(res.fields, userId, newId, now, parseIso, iso, found);
  }

  /** A lone heart rate is refused: no panel was found. */
  lemma LoneHeartRateRejected(m: Db.Measurement, userId: string, newId: string, now: int,
                              parseIso: string -> Option<int>, iso: int -> string)
    ensures Created(ObservationHr(m, userId, iso).fields, userId, newId, now, parseIso, iso)
            == Raised(HTTPException(400, NoBpFound))
  {
    var res := ObservationHr(m, userId, iso);
    ObservationHrShape(m, userId, iso);
    assert Resources(res.fields) == Ok([res]);
    HrIsNotPanel(m, userId, iso, now, parseIso);
    HrRoundTrip(m, userId, iso);
    var found := Found(None, Some(m.pulse));
    assert ScanStep(res, Found(None, None), now, parseIso) == Ok(found);
    assert [res][1..] == [];
    assert Scan([res], Found(None, None), now, parseIso) == Ok(found);
  }
}
