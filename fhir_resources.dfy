/** The HL7 FHIR R4 resources the backend writes for a measurement, following
    the Vital Signs profile: a blood-pressure panel Observation (LOINC 85354-9
    with systolic 8480-6 and diastolic 8462-4 components in mm[Hg]) and a
    heart-rate Observation (LOINC 8867-4 in /min). */
module FhirResources {
  import opened Json
  import Db

  const Loinc := "http://loinc.org"
  const Ucum := "http://unitsofmeasure.org"
  const CategorySystem := "http://terminology.hl7.org/CodeSystem/observation-category"
  const BpPanelCode := "85354-9"
  const SystolicCode := "8480-6"
  const DiastolicCode := "8462-4"
  const HeartRateCode := "8867-4"
  const MmHg := "mm[Hg]"
  const PerMinute := "/min"

  /** A `Coding` element. */
  function Coding(system: string, code: string, display: string): Json {
    JObject(map["system" := JStr(system), "code" := JStr(code), "display" := JStr(display)])
  }

  /** A `CodeableConcept` holding one coding. */
  function Concept(c: Json): Json {
    JObject(map["coding" := JArray([c])])
  }

  /** `_vital_category`: the single vital-signs category. */
  function VitalCategory(): (r: Json)
    ensures r.JArray? && |r.items| == 1
    ensures r.items[0] == Concept(Coding(CategorySystem, "vital-signs", "Vital Signs"))
  {
    JArray([Concept(Coding(CategorySystem, "vital-signs", "Vital Signs"))])
  }

  /** A `Quantity` in UCUM. */
  function Quantity(value: int, unit: string, code: string): Json {
    JObject(map["value" := JInt(value), "unit" := JStr(unit), "system" := JStr(Ucum), "code" := JStr(code)])
  }

  /** One blood-pressure component. */
  function BpComponent(code: string, display: string, value: int): (r: Json)
    ensures r.JObject?
  {
    JObject(map["code" := Concept(Coding(Loinc, code, display)),
                "valueQuantity" := Quantity(value, "mmHg", MmHg)])
  }

  /** `_observation_bp`: the panel Observation, identified by the measurement
      id. `iso` renders a time as `isoformat()` does. */
  function ObservationBp(m: Db.Measurement, userId: string, iso: int -> string): (r: Json)
    ensures r.JObject?
  {
    JObject(map[
      "resourceType" := JStr("Observation"),
      "id" := JStr(m.id),
      "status" := JStr("final"),
      "category" := VitalCategory(),
      "code" := JObject(map["coding" := JArray([Coding(Loinc, BpPanelCode, "Blood pressure panel with all children")]),
                            "text" := JStr("Blood pressure")]),
      "subject" := JObject(map["reference" := JStr("Patient/" + userId)]),
      "effectiveDateTime" := JStr(iso(m.timestamp)),
      "component" := JArray([BpComponent(SystolicCode, "Systolic blood pressure", m.systolic),
                             BpComponent(DiastolicCode, "Diastolic blood pressure", m.diastolic)])
    ])
  }

  /** `_observation_hr`: the heart-rate Observation, whose id is the
      measurement id followed by "-hr". */
  function ObservationHr(m: Db.Measurement, userId: string, iso: int -> string): (r: Json)
    ensures r.JObject?
  {
    JObject(map[
      "resourceType" := JStr("Observation"),
      "id" := JStr(m.id + "-hr"),
      "status" := JStr("final"),
      "category" := VitalCategory(),
      "code" := JObject(map["coding" := JArray([Coding(Loinc, HeartRateCode, "Heart rate")]),
                            "text" := JStr("Heart rate")]),
      "subject" := JObject(map["reference" := JStr("Patient/" + userId)]),
      "effectiveDateTime" := JStr(iso(m.timestamp)),
      "valueQuantity" := Quantity(m.pulse, "beats/min", PerMinute)
    ])
  }

  /** What the panel Observation holds: its type, id, final status,
      vital-signs category, panel coding, the two components in order, subject
      and time, and no value or note of its own. */
  lemma ObservationBpShape(m: Db.Measurement, userId: string, iso: int -> string)
    ensures ObservationBp(m, userId, iso).JObject? && Lookup(ObservationBp(m, userId, iso).fields, "resourceType") == JStr("Observation")
    ensures Lookup(ObservationBp(m, userId, iso).fields, "id") == JStr(m.id)
    ensures Lookup(ObservationBp(m, userId, iso).fields, "code")
              == JObject(map["coding" := JArray([Coding(Loinc, BpPanelCode, "Blood pressure panel with all children")]),
                             "text" := JStr("Blood pressure")])
    ensures Lookup(ObservationBp(m, userId, iso).fields, "component")
              == JArray([BpComponent(SystolicCode, "Systolic blood pressure", m.systolic),
                         BpComponent(DiastolicCode, "Diastolic blood pressure", m.diastolic)])
    ensures Lookup(ObservationBp(m, userId, iso).fields, "effectiveDateTime") == JStr(iso(m.timestamp))
    ensures Lookup(ObservationBp(m, userId, iso).fields, "subject") == JObject(map["reference" := JStr("Patient/" + userId)])
    ensures Lookup(ObservationBp(m, userId, iso).fields, "status") == JStr("final")
    ensures Lookup(ObservationBp(m, userId, iso).fields, "category") == VitalCategory()
    ensures "valueQuantity" !in ObservationBp(m, userId, iso).fields && "note" !in ObservationBp(m, userId, iso).fields
  {
  }

  /** What the heart-rate Observation holds: its type, the "-hr" id, final
      status, vital-signs category, the heart-rate coding, the pulse in /min,
      subject and time, and no components or note. */
  lemma ObservationHrShape(m: Db.Measurement, userId: string, iso: int -> string)
    ensures ObservationHr(m, userId, iso).JObject? && Lookup(ObservationHr(m, userId, iso).fields, "resourceType") == JStr("Observation")
    ensures Lookup(ObservationHr(m, userId, iso).fields, "id") == JStr(m.id + "-hr")
    ensures Lookup(ObservationHr(m, userId, iso).fields, "code")
              == JObject(map["coding" := JArray([Coding(Loinc, HeartRateCode, "Heart rate")]), "text" := JStr("Heart rate")])
    ensures Lookup(ObservationHr(m, userId, iso).fields, "valueQuantity") == Quantity(m.pulse, "beats/min", PerMinute)
    ensures Lookup(ObservationHr(m, userId, iso).fields, "effectiveDateTime") == JStr(iso(m.timestamp))
    ensures Lookup(ObservationHr(m, userId, iso).fields, "subject") == JObject(map["reference" := JStr("Patient/" + userId)])
    ensures Lookup(ObservationHr(m, userId, iso).fields, "status") == JStr("final")
    ensures Lookup(ObservationHr(m, userId, iso).fields, "category") == VitalCategory()
    ensures "component" !in ObservationHr(m, userId, iso).fields && "note" !in ObservationHr(m, userId, iso).fields
  {
  }
}
