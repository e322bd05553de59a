/** Reading FHIR Observations back: matching codings, picking the systolic
    and diastolic components of a blood-pressure panel, and finding a heart
    rate either at the top level or among the components. Each parser is a
    specification function and a method with the source's loop, proved
    equal to it. */
module FhirParse {
  import opened Wrappers
  import opened Python
  import opened Json
  import opened FhirResources
  import Text

  // ---------------------------------------------------------------- codings

  /** A coding element with exactly this system and code. */
  predicate Matches(c: Json, system: string, code: string) {
    c.JObject? && Lookup(c.fields, "system") == JStr(system) && Lookup(c.fields, "code") == JStr(code)
  }

  predicate HasCoding(xs: seq<Json>, system: string, code: string) {
    exists i :: 0 <= i < |xs| && Matches(xs[i], system, code)
  }

  /** `_find_code` over a list: the first match answers True, and an item that
      is not a dict, met before any match, has no `.get`. */
  function CodingFoundIn(xs: seq<Json>, system: string, code: string): Outcome<bool> {
    if xs == [] then Ok(false)
    else if !xs[0].JObject? then Raised(Fault)
    else if Matches(xs[0], system, code) then Ok(true)
    else CodingFoundIn(xs[1..], system, code)
  }

  /** `_find_code` over whatever `codings` is. */
  function CodingFound(codings: Json, system: string, code: string): Outcome<bool> {
    var it :- Iterate(codings);
    match it
    case Items(xs) => CodingFoundIn(xs, system, code)
    case Strs(n) => if n == 0 then Ok(false) else Raised(Fault)
  }

  /** `_find_code` answers True exactly when some coding has the system and
      the code, and it fails exactly when a non-dict comes before the first
      match. */
  lemma {:induction false} CodingFoundInMeaning(xs: seq<Json>, system: string, code: string)
    ensures CodingFoundIn(xs, system, code).Ok? ==> CodingFoundIn(xs, system, code).value == HasCoding(xs, system, code)
    ensures CodingFoundIn(xs, system, code).Raised? <==>
              exists i :: 0 <= i < |xs| && !xs[i].JObject? && forall j :: 0 <= j < i ==> !Matches(xs[j], system, code)
    ensures (forall i :: 0 <= i < |xs| ==> xs[i].JObject?) ==> CodingFoundIn(xs, system, code).Ok?
  {
    if xs != [] {
      CodingFoundInMeaning(xs[1..], system, code);
      var r := CodingFoundIn(xs, system, code);
      if xs[0].JObject? && !Matches(xs[0], system, code) {
        assert HasCoding(xs, system, code) <==> HasCoding(xs[1..], system, code) by {
          if HasCoding(xs, system, code) {
            var i :| 0 <= i < |xs| && Matches(xs[i], system, code);
            assert i > 0 && Matches(xs[1..][i - 1], system, code);
          }
          if HasCoding(xs[1..], system, code) {
            var i :| 0 <= i < |xs[1..]| && Matches(xs[1..][i], system, code);
            assert Matches(xs[i + 1], system, code);
          }
        }
        if r.Raised? {
          var i :| 0 <= i < |xs[1..]| && !xs[1..][i].JObject? && forall j :: 0 <= j < i ==> !Matches(xs[1..][j], system, code);
          assert !xs[i + 1].JObject? && forall j :: 0 <= j < i + 1 ==> !Matches(xs[j], system, code) by {
            forall j | 0 <= j < i + 1 ensures !Matches(xs[j], system, code) {
              if j > 0 { assert xs[j] == xs[1..][j - 1]; }
            }
          }
        }
        if exists i :: 0 <= i < |xs| && !xs[i].JObject? && forall j :: 0 <= j < i ==> !Matches(xs[j], system, code) {
          var i :| 0 <= i < |xs| && !xs[i].JObject? && forall j :: 0 <= j < i ==> !Matches(xs[j], system, code);
          assert i > 0;
          assert !xs[1..][i - 1].JObject? && forall j :: 0 <= j < i - 1 ==> !Matches(xs[1..][j], system, code);
        }
        if forall i :: 0 <= i < |xs| ==> xs[i].JObject? {
          assert forall i :: 0 <= i < |xs[1..]| ==> xs[1..][i].JObject?;
        }
      }
    }
  }

  /** `_find_code`, with its loop and early return. */
  method FindCode(codings: Json, system: string, code: string) returns (r: Outcome<bool>)
    ensures r == CodingFound(codings, system, code)
  {
    var it := Iterate(codings);
    if it.Raised? {
      return Raised(it.exc);
    }
    if it.value.Strs? {
      return if it.value.count == 0 then Ok(false) else Raised(Fault);
    }
    var xs := it.value.items;
    var i := 0;
    while i < |xs|
      invariant 0 <= i <= |xs|
      invariant CodingFoundIn(xs, system, code) == CodingFoundIn(xs[i..], system, code)
    {
      var c := xs[i];
      assert xs[i..][1..] == xs[i + 1..];
      if !c.JObject? {
        return Raised(Fault);
      }
      if Lookup(c.fields, "system") == JStr(system) && Lookup(c.fields, "code") == JStr(code) {
        return Ok(true);
      }
      i := i + 1;
    }
    r := Ok(false);
  }

  // ------------------------------------------------------- blood pressure

  const MissingComponent := "Missing systolic or diastolic component"
  const InvalidEffectiveDateTime := "Invalid effectiveDateTime"

  /** What `_parse_bp_observation` returns for a panel. */
  datatype BpData = BpData(systolic: int, diastolic: int, timestamp: int, notes: Option<string>)

  /** The systolic and diastolic values seen so far. */
  datatype Readings = Readings(systolic: Option<int>, diastolic: Option<int>)

  const NoReadings := Readings(None, None)

  /** `x.get("code", {}).get("coding", [])`, for a resource or a component. */
  function CodingsOf(comp: Json): Outcome<Json> {
    var code :- GetOr(comp, "code", EmptyObject);
    GetOr(code, "coding", EmptyArray)
  }

  /** `int(comp.get("valueQuantity", {}).get("value"))`. */
  function ComponentValue(comp: Json): Outcome<int> {
    var vq :- GetOr(comp, "valueQuantity", EmptyObject);
    var v :- GetOr(vq, "value", JNull);
    ToInt(v)
  }

  /** One turn of the component loop: a systolic coding sets the systolic
      value, otherwise a diastolic coding sets the diastolic value. */
  function ReadComponent(comp: Json, acc: Readings): Outcome<Readings> {
    var cc :- CodingsOf(comp);
    var isSystolic :- CodingFound(cc, Loinc, SystolicCode);
    if isSystolic then
      var v :- ComponentValue(comp);
      Ok(acc.(systolic := Some(v)))
    else
      var isDiastolic :- CodingFound(cc, Loinc, DiastolicCode);
      if isDiastolic then
        var v :- ComponentValue(comp);
        Ok(acc.(diastolic := Some(v)))
      else
        Ok(acc)
  }

  /** The component loop: later components overwrite earlier ones. */
  function ReadComponents(comps: seq<Json>, acc: Readings): Outcome<Readings> {
    if comps == [] then Ok(acc)
    else
      var acc' :- ReadComponent(comps[0], acc);
      ReadComponents(comps[1..], acc')
  }

  /** The loop over `resource.get("component", [])`; a non-empty str or dict
      there yields strs, which have no `.get`. */
  function ComponentReadings(resource: map<string, Json>): Outcome<Readings> {
    var it :- Iterate(GetField(resource, "component", EmptyArray));
    match it
    case Items(comps) => ReadComponents(comps, NoReadings)
    case Strs(n) => if n == 0 then Ok(NoReadings) else Raised(Fault)
  }

  /** The measurement time: a truthy `effectiveDateTime` must be an ISO str
      that `parseIso` accepts, otherwise 400; a falsy or missing one means
      `now`. */
  function EffectiveTime(resource: map<string, Json>, now: int, parseIso: string -> Option<int>): Outcome<int> {
    var e := Lookup(resource, "effectiveDateTime");
    if !PyTruthy(e) then Ok(now)
    else if e.JStr? && parseIso(e.s).Some? then Ok(parseIso(e.s).value)
    else Raised(HTTPException(400, InvalidEffectiveDateTime))
  }

  /** The texts of the `note` items, or None when one is not a dict or its
      text is not a str (the join then raises). */
  function NoteTexts(xs: seq<Json>): Option<seq<string>> {
    if xs == [] then Some([])
    else if !xs[0].JObject? then None
    else
      var t := GetField(xs[0].fields, "text", JStr(""));
      if !t.JStr? then None
      else
        var rest :- NoteTexts(xs[1..]);
        Some([t.s] + rest)
  }

  /** The optional notes: the note texts joined by spaces and stripped; an
      empty result, and any exception on the way, give None. */
  function Notes(resource: map<string, Json>): Option<string> {
    var note := Lookup(resource, "note");
    if !PyTruthy(note) || !note.JArray? then None
    else
      var texts :- NoteTexts(note.items);
      var s := Text.Strip(Text.JoinWith(" ", texts), Text.IsPySpace);
      if s == "" then None else Some(s)
  }

  /** `_parse_bp_observation`: None for anything but an Observation carrying
      the panel coding; 400 when the systolic or the diastolic component is
      missing; 400 for an unreadable time. */
  function ParsedBp(resource: map<string, Json>, now: int, parseIso: string -> Option<int>): (r: Outcome<Option<BpData>>)
    ensures r == Ok(None) <==>
              || Lookup(resource, "resourceType") != JStr("Observation")
              || (CodingsOf(JObject(resource)).Ok?
                  && CodingFound(CodingsOf(JObject(resource)).value, Loinc, BpPanelCode) == Ok(false))
    ensures r.Ok? && r.value.Some? ==>
              ComponentReadings(resource) == Ok(Readings(Some(r.value.value.systolic), Some(r.value.value.diastolic)))
  {
    if Lookup(resource, "resourceType") != JStr("Observation") then Ok(None)
    else
      var codings :- CodingsOf(JObject(resource));
      var isPanel :- CodingFound(codings, Loinc, BpPanelCode);
      if !isPanel then Ok(None)
      else
        var rd :- ComponentReadings(resource);
        if rd.systolic.None? || rd.diastolic.None? then Raised(HTTPException(400, MissingComponent))
        else
          var ts :- EffectiveTime(resource, now, parseIso);
          Ok(Some(BpData(rd.systolic.value, rd.diastolic.value, ts, Notes(resource))))
  }

  /** `_parse_bp_observation`, with its component loop. */
  method ParseBpObservation(resource: map<string, Json>, now: int, parseIso: string -> Option<int>)
    returns (r: Outcome<Option<BpData>>)
    ensures r == ParsedBp(resource, now, parseIso)
  {
    if Lookup(resource, "resourceType") != JStr("Observation") {
      return Ok(None);
    }
    var codings := CodingsOf(JObject(resource));
    if codings.Raised? {
      return Raised(codings.exc);
    }
    var isPanel := FindCode(codings.value, Loinc, BpPanelCode);
    if isPanel.Raised? {
      return Raised(isPanel.exc);
    }
    if !isPanel.value {
      return Ok(None);
    }
    var it := Iterate(GetField(resource, "component", EmptyArray));
    if it.Raised? {
      return Raised(it.exc);
    }
    var systolic: Option<int> := None;
    var diastolic: Option<int> := None;
    if it.value.Strs? {
      if it.value.count != 0 {
        return Raised(Fault);
      }
    } else {
      var comps := it.value.items;
      var i := 0;
      while i < |comps|
        invariant 0 <= i <= |comps|
        invariant ReadComponents(comps, NoReadings) == ReadComponents(comps[i..], Readings(systolic, diastolic))
      {
        var comp := comps[i];
        assert comps[i..][1..] == comps[i + 1..];
        var cc := CodingsOf(comp);
        if cc.Raised? {
          return Raised(cc.exc);
        }
        var isSystolic := FindCode(cc.value, Loinc, SystolicCode);
        if isSystolic.Raised? {
          return Raised(isSystolic.exc);
        }
        if isSystolic.value {
          var v := ComponentValue(comp);
          if v.Raised? {
            return Raised(v.exc);
          }
          systolic := Some(v.value);
        } else {
          var isDiastolic := FindCode(cc.value, Loinc, DiastolicCode);
          if isDiastolic.Raised? {
            return Raised(isDiastolic.exc);
          }
          if isDiastolic.value {
            var v := ComponentValue(comp);
            if v.Raised? {
              return Raised(v.exc);
            }
            diastolic := Some(v.value);
          }
        }
        i := i + 1;
      }
    }
    if systolic.None? || diastolic.None? {
      return Raised(HTTPException(400, MissingComponent));
    }
    var ts := EffectiveTime(resource, now, parseIso);
    if ts.Raised? {
      return Raised(ts.exc);
    }
    r := Ok(Some(BpData(systolic.value, diastolic.value, ts.value, Notes(resource))));
  }

  // ------------------------------------------------------------ heart rate

  /** `if "value" in vq: return int(vq["value"])`. */
  function ValueIfPresent(vq: Json): Outcome<Option<int>> {
    var has :- Contains(vq, "value");
    if !has then Ok(None)
    else
      var v :- Subscript(vq, "value");
      var n :- ToInt(v);
      Ok(Some(n))
  }

  /** One turn of the component loop of `_extract_hr_from`: the value of a
      heart-rate component, None for any other component. */
  function HrOfComponent(comp: Json): Outcome<Option<int>> {
    var cc :- CodingsOf(comp);
    var isHr :- CodingFound(cc, Loinc, HeartRateCode);
    if isHr then
      var vq :- GetOr(comp, "valueQuantity", EmptyObject);
      ValueIfPresent(vq)
    else Ok(None)
  }

  /** The component loop of `_extract_hr_from`: the first heart-rate
      component that carries a value. */
  function ComponentHr(comps: seq<Json>): Outcome<Option<int>> {
    if comps == [] then Ok(None)
    else
      var v :- HrOfComponent(comps[0]);
      if v.Some? then Ok(v) else ComponentHr(comps[1..])
  }

  /** The component loop answers None exactly when every component gives
      none. */
  lemma {:induction false} ComponentHrNone(comps: seq<Json>)
    ensures ComponentHr(comps) == Ok(None) <==> forall i :: 0 <= i < |comps| ==> HrOfComponent(comps[i]) == Ok(None)
  {
    if comps != [] {
      var tail := comps[1..];
      ComponentHrNone(tail);
      if HrOfComponent(comps[0]) == Ok(None) {
        assert forall i :: 0 < i < |comps| ==> comps[i] == tail[i - 1];
      } else {
        assert HrOfComponent(comps[0]) != Ok(None);
      }
    }
  }

  /** A component that gives a heart rate after components that all gave
      none is what the component loop answers. */
  lemma {:induction false} ComponentHrAt(comps: seq<Json>, i: int, v: int)
    requires 0 <= i < |comps| && HrOfComponent(comps[i]) == Ok(Some(v))
    requires forall j :: 0 <= j < i ==> HrOfComponent(comps[j]) == Ok(None)
    ensures ComponentHr(comps) == Ok(Some(v))
  {
    if i > 0 {
      var tail := comps[1..];
      assert HrOfComponent(comps[0]) == Ok(None);
      assert forall j :: 0 <= j < i - 1 ==> tail[j] == comps[j + 1];
      ComponentHrAt(tail, i - 1, v);
    }
  }

  /** When the component loop answers a heart rate, some component gave it
      and every component before that one gave none. */
  lemma {:induction false} ComponentHrWitness(comps: seq<Json>, v: int)
    requires ComponentHr(comps) == Ok(Some(v))
    ensures exists i :: 0 <= i < |comps| && HrOfComponent(comps[i]) == Ok(Some(v))
                        && forall j :: 0 <= j < i ==> HrOfComponent(comps[j]) == Ok(None)
  {
    if HrOfComponent(comps[0]) != Ok(Some(v)) {
      var tail := comps[1..];
      assert HrOfComponent(comps[0]) == Ok(None);
      ComponentHrWitness(tail, v);
      var i :| 0 <= i < |tail| && HrOfComponent(tail[i]) == Ok(Some(v))
               && forall j :: 0 <= j < i ==> HrOfComponent(tail[j]) == Ok(None);
      assert comps[i + 1] == tail[i];
      assert forall j :: 0 < j < i + 1 ==> comps[j] == tail[j - 1];
    }
  }

  /** The component loop answers with the first component that gives a
      heart rate, provided every component before it gave none; it answers
      None exactly when every component gives none. */
  lemma ComponentHrFirstWins(comps: seq<Json>, v: int)
    ensures ComponentHr(comps) == Ok(Some(v)) <==>
              exists i :: 0 <= i < |comps| && HrOfComponent(comps[i]) == Ok(Some(v))
                          && forall j :: 0 <= j < i ==> HrOfComponent(comps[j]) == Ok(None)
    ensures ComponentHr(comps) == Ok(None) <==> forall i :: 0 <= i < |comps| ==> HrOfComponent(comps[i]) == Ok(None)
  {
    ComponentHrNone(comps);
    if ComponentHr(comps) == Ok(Some(v)) {
      ComponentHrWitness(comps, v);
    }
    if exists i :: 0 <= i < |comps| && HrOfComponent(comps[i]) == Ok(Some(v))
                   && forall j :: 0 <= j < i ==> HrOfComponent(comps[j]) == Ok(None) {
      var i :| 0 <= i < |comps| && HrOfComponent(comps[i]) == Ok(Some(v))
               && forall j :: 0 <= j < i ==> HrOfComponent(comps[j]) == Ok(None);
      ComponentHrAt(comps, i, v);
    }
  }

  /** `_extract_hr_from`: a heart-rate coding at the top level with a value
      wins, and a failing read of that value is the answer; otherwise, also
      when the top-level coding has no value, the first heart-rate component
      with a value; otherwise None. */
  function ExtractedHr(resource: map<string, Json>): (r: Outcome<Option<int>>)
    ensures Lookup(resource, "resourceType") != JStr("Observation") ==> r == Ok(None)
    ensures var codings := CodingsOf(JObject(resource));
            var top := ValueIfPresent(GetField(resource, "valueQuantity", EmptyObject));
            Lookup(resource, "resourceType") == JStr("Observation") && codings.Ok?
            && CodingFound(codings.value, Loinc, HeartRateCode) == Ok(true) && top.Ok? && top.value.Some?
            ==> r == top
    ensures var codings := CodingsOf(JObject(resource));
            var comps := GetField(resource, "component", EmptyArray);
            Lookup(resource, "resourceType") == JStr("Observation") && codings.Ok?
            && CodingFound(codings.value, Loinc, HeartRateCode) == Ok(false) && comps.JArray?
            ==> r == ComponentHr(comps.items)
    ensures var codings := CodingsOf(JObject(resource));
            var top := ValueIfPresent(GetField(resource, "valueQuantity", EmptyObject));
            var comps := GetField(resource, "component", EmptyArray);
            Lookup(resource, "resourceType") == JStr("Observation") && codings.Ok?
            && CodingFound(codings.value, Loinc, HeartRateCode) == Ok(true) && top == Ok(None) && comps.JArray?
            ==> r == ComponentHr(comps.items)
    ensures var codings := CodingsOf(JObject(resource));
            var top := ValueIfPresent(GetField(resource, "valueQuantity", EmptyObject));
            Lookup(resource, "resourceType") == JStr("Observation") && codings.Ok?
            && CodingFound(codings.value, Loinc, HeartRateCode) == Ok(true) && top.Raised?
            ==> r == top
  {
    if Lookup(resource, "resourceType") != JStr("Observation") then Ok(None)
    else
      var codings :- CodingsOf(JObject(resource));
      var isHr :- CodingFound(codings, Loinc, HeartRateCode);
      var top :- if isHr then ValueIfPresent(GetField(resource, "valueQuantity", EmptyObject)) else Ok(None);
      if top.Some? then Ok(top)
      else
        var it :- Iterate(GetField(resource, "component", EmptyArray));
        match it
        case Items(comps) => ComponentHr(comps)
        case Strs(n) => if n == 0 then Ok(None) else Raised(Fault)
  }

  /** `_extract_hr_from`, with its component loop and early return. */
  method ExtractHrFrom(resource: map<string, Json>) returns (r: Outcome<Option<int>>)
    ensures r == ExtractedHr(resource)
  {
    if Lookup(resource, "resourceType") != JStr("Observation") {
      return Ok(None);
    }
    var codings := CodingsOf(JObject(resource));
    if codings.Raised? {
      return Raised(codings.exc);
    }
    var isHr := FindCode(codings.value, Loinc, HeartRateCode);
    if isHr.Raised? {
      return Raised(isHr.exc);
    }
    if isHr.value {
      var top := ValueIfPresent(GetField(resource, "valueQuantity", EmptyObject));
      if top.Raised? || top.value.Some? {
        return top;
      }
    }
    var it := Iterate(GetField(resource, "component", EmptyArray));
    if it.Raised? {
      return Raised(it.exc);
    }
    if it.value.Strs? {
      return if it.value.count == 0 then Ok(None) else Raised(Fault);
    }
    var comps := it.value.items;
    var i := 0;
    while i < |comps|
      invariant 0 <= i <= |comps|
      invariant ComponentHr(comps) == ComponentHr(comps[i..])
    {
      var comp := comps[i];
      assert comps[i..][1..] == comps[i + 1..];
      var cc := CodingsOf(comp);
      if cc.Raised? {
        return Raised(cc.exc);
      }
      var found := FindCode(cc.value, Loinc, HeartRateCode);
      if found.Raised? {
        return Raised(found.exc);
      }
      if found.value {
        var vq := GetOr(comp, "valueQuantity", EmptyObject);
        if vq.Raised? {
          return Raised(vq.exc);
        }
        var v := ValueIfPresent(vq.value);
        if v.Raised? || v.value.Some? {
          return v;
        }
      }
      i := i + 1;
    }
    r := Ok(None);
  }

  // ------------------------------------------------------------ round trips

  /** The LOINC codes the backend uses are pairwise distinct. */
  lemma CodesDistinct()
    ensures BpPanelCode != SystolicCode && BpPanelCode != DiastolicCode && BpPanelCode != HeartRateCode
    ensures SystolicCode != DiastolicCode && SystolicCode != HeartRateCode && DiastolicCode != HeartRateCode
  {
    assert BpPanelCode[1] == '5' && SystolicCode[1] == '4' && DiastolicCode[1] == '4' && HeartRateCode[1] == '8';
    assert SystolicCode[2] == '8' && DiastolicCode[2] == '6';
  }

  /** A list holding one coding contains exactly that coding's system and code. */
  lemma SingleCoding(system: string, code: string, display: string, s: string, c: string)
    ensures CodingFound(JArray([Coding(system, code, display)]), s, c) == Ok(system == s && code == c)
  {
    var x := Coding(system, code, display);
    assert Lookup(x.fields, "system") == JStr(system) && Lookup(x.fields, "code") == JStr(code);
    assert Matches(x, s, c) <==> system == s && code == c;
    assert [x][1..] == [];
    assert CodingFoundIn([x][1..], s, c) == Ok(false);
  }

  /** Reading one component the backend wrote sets the reading its code names. */
  lemma ReadBpComponent(code: string, display: string, v: int, acc: Readings)
    requires code == SystolicCode || code == DiastolicCode
    ensures ReadComponent(BpComponent(code, display, v), acc)
            == Ok(if code == SystolicCode then acc.(systolic := Some(v)) else acc.(diastolic := Some(v)))
  {
    var comp := BpComponent(code, display, v);
    var cc := JArray([Coding(Loinc, code, display)]);
    assert CodingsOf(comp) == Ok(cc);
    assert ComponentValue(comp) == Ok(v);
    SingleCoding(Loinc, code, display, Loinc, SystolicCode);
    SingleCoding(Loinc, code, display, Loinc, DiastolicCode);
    CodesDistinct();
    if code == SystolicCode {
      assert CodingFound(cc, Loinc, SystolicCode) == Ok(true);
    } else {
      assert CodingFound(cc, Loinc, SystolicCode) == Ok(false);
      assert CodingFound(cc, Loinc, DiastolicCode) == Ok(true);
    }
  }

  /** A component the backend wrote gives no heart rate. */
  lemma BpComponentHasNoHr(code: string, display: string, v: int)
    requires code == SystolicCode || code == DiastolicCode
    ensures HrOfComponent(BpComponent(code, display, v)) == Ok(None)
  {
    assert CodingsOf(BpComponent(code, display, v)) == Ok(JArray([Coding(Loinc, code, display)]));
    SingleCoding(Loinc, code, display, Loinc, HeartRateCode);
    CodesDistinct();
  }

  /** The systolic then the diastolic component, as the backend writes them. */
  lemma BpComponentsRead(systolic: int, diastolic: int)
    ensures ReadComponents([BpComponent(SystolicCode, "Systolic blood pressure", systolic),
                            BpComponent(DiastolicCode, "Diastolic blood pressure", diastolic)], NoReadings)
            == Ok(Readings(Some(systolic), Some(diastolic)))
  {
    var sys := BpComponent(SystolicCode, "Systolic blood pressure", systolic);
    var dia := BpComponent(DiastolicCode, "Diastolic blood pressure", diastolic);
    ReadBpComponent(SystolicCode, "Systolic blood pressure", systolic, NoReadings);
    ReadBpComponent(DiastolicCode, "Diastolic blood pressure", diastolic, Readings(Some(systolic), None));
    assert [sys, dia][1..] == [dia];
    assert [dia][1..] == [];
    var after := Readings(Some(systolic), Some(diastolic));
    assert ReadComponents([], after) == Ok(after);
    assert ReadComponents([dia], Readings(Some(systolic), None)) == Ok(after);
  }

  /** The fields of a panel the backend wrote that the parser looks up. */
  lemma BpPanelFields(m: Db.Measurement, userId: string, iso: int -> string)
    ensures var r := ObservationBp(m, userId, iso).fields;
            && Lookup(r, "resourceType") == JStr("Observation")
            && Lookup(r, "code")
               == JObject(map["coding" := JArray([Coding(Loinc, BpPanelCode, "Blood pressure panel with all children")]),
                              "text" := JStr("Blood pressure")])
            && Lookup(r, "component")
               == JArray([BpComponent(SystolicCode, "Systolic blood pressure", m.systolic),
                          BpComponent(DiastolicCode, "Diastolic blood pressure", m.diastolic)])
            && Lookup(r, "note") == JNull
  {
  }

  /** What the parser's steps see in a panel the backend wrote. */
  lemma BpPanelSteps(m: Db.Measurement, userId: string, iso: int -> string)
    ensures var r := ObservationBp(m, userId, iso).fields;
            && Lookup(r, "resourceType") == JStr("Observation")
            && CodingsOf(JObject(r)) == Ok(JArray([Coding(Loinc, BpPanelCode, "Blood pressure panel with all children")]))
            && GetField(r, "component", EmptyArray)
               == JArray([BpComponent(SystolicCode, "Systolic blood pressure", m.systolic),
                          BpComponent(DiastolicCode, "Diastolic blood pressure", m.diastolic)])
            && ComponentReadings(r) == Ok(Readings(Some(m.systolic), Some(m.diastolic)))
            && Notes(r) == None
  {
    BpPanelFields(m, userId, iso);
    BpComponentsRead(m.systolic, m.diastolic);
  }

  /** A panel the backend wrote reads back to its own readings and time;
      the writer emits no note, so no notes come back. */
  lemma BpRoundTrip(m: Db.Measurement, userId: string, iso: int -> string, now: int, parseIso: string -> Option<int>)
    requires iso(m.timestamp) != "" && parseIso(iso(m.timestamp)) == Some(m.timestamp)
    ensures ParsedBp(ObservationBp(m, userId, iso).fields, now, parseIso)
            == Ok(Some(BpData(m.systolic, m.diastolic, m.timestamp, None)))
  {
    BpPanelSteps(m, userId, iso);
    BpPanelTime(m, userId, iso, now, parseIso);
    SingleCoding(Loinc, BpPanelCode, "Blood pressure panel with all children", Loinc, BpPanelCode);
  }

  /** A panel the backend wrote gives back its time when the ISO text parses
      back to it. */
  lemma BpPanelTime(m: Db.Measurement, userId: string, iso: int -> string, now: int, parseIso: string -> Option<int>)
    requires iso(m.timestamp) != "" && parseIso(iso(m.timestamp)) == Some(m.timestamp)
    ensures EffectiveTime(ObservationBp(m, userId, iso).fields, now, parseIso) == Ok(m.timestamp)
  {
    assert Lookup(ObservationBp(m, userId, iso).fields, "effectiveDateTime") == JStr(iso(m.timestamp));
  }

  /** A heart-rate Observation the backend wrote reads back to its pulse. */
  lemma HrRoundTrip(m: Db.Measurement, userId: string, iso: int -> string)
    ensures ExtractedHr(ObservationHr(m, userId, iso).fields) == Ok(Some(m.pulse))
  {
    HrSteps(m, userId, iso);
    SingleCoding(Loinc, HeartRateCode, "Heart rate", Loinc, HeartRateCode);
  }

  /** What the extractor's steps see in a heart-rate Observation the
      backend wrote. */
  lemma HrSteps(m: Db.Measurement, userId: string, iso: int -> string)
    ensures var r := ObservationHr(m, userId, iso).fields;
            && Lookup(r, "resourceType") == JStr("Observation")
            && CodingsOf(JObject(r)) == Ok(JArray([Coding(Loinc, HeartRateCode, "Heart rate")]))
            && GetField(r, "valueQuantity", EmptyObject) == Quantity(m.pulse, "beats/min", PerMinute)
  {
    var r := ObservationHr(m, userId, iso).fields;
    assert Lookup(r, "code") == JObject(map["coding" := JArray([Coding(Loinc, HeartRateCode, "Heart rate")]),
                                            "text" := JStr("Heart rate")]);
  }

  /** The panel the backend writes carries no heart rate. */
  lemma BpCarriesNoHr(m: Db.Measurement, userId: string, iso: int -> string)
    ensures ExtractedHr(ObservationBp(m, userId, iso).fields) == Ok(None)
  {
    var r := ObservationBp(m, userId, iso).fields;
    BpPanelSteps(m, userId, iso);
    SingleCoding(Loinc, BpPanelCode, "Blood pressure panel with all children", Loinc, HeartRateCode);
    CodesDistinct();
    BpComponentsGiveNoHr(m.systolic, m.diastolic);
    assert CodingFound(CodingsOf(JObject(r)).value, Loinc, HeartRateCode) == Ok(false);
  }

  /** The two components the backend writes give no heart rate. */
  lemma BpComponentsGiveNoHr(systolic: int, diastolic: int)
    ensures ComponentHr([BpComponent(SystolicCode, "Systolic blood pressure", systolic),
                         BpComponent(DiastolicCode, "Diastolic blood pressure", diastolic)]) == Ok(None)
  {
    var sys := BpComponent(SystolicCode, "Systolic blood pressure", systolic);
    var dia := BpComponent(DiastolicCode, "Diastolic blood pressure", diastolic);
    BpComponentHasNoHr(SystolicCode, "Systolic blood pressure", systolic);
    BpComponentHasNoHr(DiastolicCode, "Diastolic blood pressure", diastolic);
    assert [dia][1..] == [];
    assert ComponentHr([dia]) == Ok(None);
    assert [sys, dia][1..] == [dia];
    assert ComponentHr([sys, dia]) == ComponentHr([dia]);
  }

  /** The heart-rate Observation the backend writes is not a panel. */
  lemma HrIsNotPanel(m: Db.Measurement, userId: string, iso: int -> string, now: int, parseIso: string -> Option<int>)
    ensures ParsedBp(ObservationHr(m, userId, iso).fields, now, parseIso) == Ok(None)
  {
    HrSteps(m, userId, iso);
    SingleCoding(Loinc, HeartRateCode, "Heart rate", Loinc, BpPanelCode);
    CodesDistinct();
  }

  /** A component whose codings include this LOINC code. */
  predicate CodedAs(comp: Json, code: string) {
    CodingsOf(comp).Ok? && CodingFound(CodingsOf(comp).value, Loinc, code) == Ok(true)
  }

  /** The component loop leaves a reading alone unless some component is
      coded for it: a missing component leaves its reading missing. */
  lemma {:induction false} UncodedReadingUnchanged(comps: seq<Json>, acc: Readings)
    requires ReadComponents(comps, acc).Ok?
    ensures (forall i :: 0 <= i < |comps| ==> !CodedAs(comps[i], SystolicCode))
            ==> ReadComponents(comps, acc).value.systolic == acc.systolic
    ensures (forall i :: 0 <= i < |comps| ==> !CodedAs(comps[i], DiastolicCode))
            ==> ReadComponents(comps, acc).value.diastolic == acc.diastolic
  {
    if comps != [] {
      var next := ReadComponent(comps[0], acc).value;
      UncodedReadingUnchanged(comps[1..], next);
      if forall i :: 0 <= i < |comps| ==> !CodedAs(comps[i], SystolicCode) {
        assert !CodedAs(comps[0], SystolicCode);
        assert next.systolic == acc.systolic;
        assert forall i :: 0 <= i < |comps[1..]| ==> !CodedAs(comps[1..][i], SystolicCode) by {
          forall i | 0 <= i < |comps[1..]| ensures !CodedAs(comps[1..][i], SystolicCode) {
            assert comps[1..][i] == comps[i + 1];
          }
        }
      }
      if forall i :: 0 <= i < |comps| ==> !CodedAs(comps[i], DiastolicCode) {
        assert !CodedAs(comps[0], DiastolicCode);
        assert next.diastolic == acc.diastolic;
        assert forall i :: 0 <= i < |comps[1..]| ==> !CodedAs(comps[1..][i], DiastolicCode) by {
          forall i | 0 <= i < |comps[1..]| ensures !CodedAs(comps[1..][i], DiastolicCode) {
            assert comps[1..][i] == comps[i + 1];
          }
        }
      }
    }
  }

  /** A panel Observation none of whose components is coded systolic, or
      none diastolic, is rejected with 400 unless reading it fails first. */
  lemma MissingComponentRejected(resource: map<string, Json>, now: int, parseIso: string -> Option<int>)
    requires Lookup(resource, "resourceType") == JStr("Observation")
    requires CodingsOf(JObject(resource)).Ok?
    requires CodingFound(CodingsOf(JObject(resource)).value, Loinc, BpPanelCode) == Ok(true)
    requires GetField(resource, "component", EmptyArray).JArray?
    requires ComponentReadings(resource).Ok?
    requires var comps := GetField(resource, "component", EmptyArray).items;
             (forall i :: 0 <= i < |comps| ==> !CodedAs(comps[i], SystolicCode))
             || (forall i :: 0 <= i < |comps| ==> !CodedAs(comps[i], DiastolicCode))
    ensures ParsedBp(resource, now, parseIso) == Raised(HTTPException(400, MissingComponent))
  {
    UncodedReadingUnchanged(GetField(resource, "component", EmptyArray).items, NoReadings);
  }
}
