/** The health record as a value: every entry the record has created sits in an
    entry table under an id, so that the same entry can be listed by an
    encounter, be the active entry for its code in `present`, and have its
    `stop` changed later. Each operation of HealthRecord is a function from the
    old record to the new one; the class in `Records` is proved against them. */
module RecordSpec {
  import opened Util
  import opened Concepts
  import opened DeviceUdi
  import opened Imaging

  type EntryId = nat

  const MINUTE_MS: int := 60_000
  const LONG_MAX: int := 0x7fff_ffff_ffff_ffff
  const INT_MAX: int := 0x7fff_ffff

  /** The `Object` value of an observation. */
  datatype ObsValue = Number(number: real) | Text(text: string) | Coded(code: Code)

  /** A claim as far as the record drives it: the entries billed on it and how
      many times its costs were assigned. */
  datatype Claim = Claim(lineItems: seq<EntryId>, costAssignments: nat)

  /** The per-encounter entry lists. */
  datatype Slot =
    | Observations | Reports | Conditions | Allergies | Procedures
    | Immunizations | Medications | CarePlans | ImagingStudies | Devices

  /** The Java class of an entry. */
  datatype Kind =
    | BasicKind | ObservationKind | ReportKind | MedicationKind | ImmunizationKind
    | ProcedureKind | CarePlanKind | ImagingStudyKind | DeviceKind | EncounterKind

  /** The fields an entry has beyond those of `Entry`, by subclass. */
  datatype Detail =
    | Basic
    | Observation(value: Option<ObsValue>, observations: seq<EntryId>, report: Option<EntryId>)
    | Report(observations: seq<EntryId>)
    | Medication(chronic: bool, stopReason: Option<Code>, claim: Claim)
    | Immunization(seriesNumber: int)
    | Procedure
    | CarePlan(stopReason: Option<Code>)
    | ImagingStudy(dicomUid: string, series: seq<Series>)
    | Device(device: DeviceInfo)
    | Encounter(lists: map<Slot, seq<EntryId>>, claim: Claim, ended: bool)

  function KindOf(d: Detail): Kind {
    match d
    case Basic => BasicKind
    case Observation(_, _, _) => ObservationKind
    case Report(_) => ReportKind
    case Medication(_, _, _) => MedicationKind
    case Immunization(_) => ImmunizationKind
    case Procedure => ProcedureKind
    case CarePlan(_) => CarePlanKind
    case ImagingStudy(_, _) => ImagingStudyKind
    case Device(_) => DeviceKind
    case Encounter(_, _, _) => EncounterKind
  }

  /** The class of entry each encounter list holds. */
  function SlotKind(s: Slot): Kind {
    match s
    case Observations => ObservationKind
    case Reports => ReportKind
    case Conditions => BasicKind
    case Allergies => BasicKind
    case Procedures => ProcedureKind
    case Immunizations => ImmunizationKind
    case Medications => MedicationKind
    case CarePlans => CarePlanKind
    case ImagingStudies => ImagingStudyKind
    case Devices => DeviceKind
  }

  /** HealthRecord.Entry: name, start and stop times, type, codes, the memoised
      cost in cents, and the subclass fields. */
  datatype Entry = Entry(
    name: Option<string>,
    start: int,
    stop: int,
    entryType: string,
    codes: seq<Code>,
    cost: Option<int>,
    detail: Detail)
  {
    /** `Entry.containsCode`: some code of the entry has this code and system. */
    predicate ContainsCode(code: string, system: string) {
      exists c :: c in codes && c.code == code && c.system == system
    }
  }

  /** `containsCode` asks whether some code of the entry `equals` the code with
      that system and code value, whatever its display. */
  lemma ContainsCodeByEquals(e: Entry, code: string, system: string, display: string)
    ensures e.ContainsCode(code, system) <==> exists c :: c in e.codes && c.Equals(Code(system, code, display))
  {
  }

  /** A new entry: no name, stop 0, no codes, no cost yet. */
  function NewEntry(time: int, entryType: string, detail: Detail): Entry {
    Entry(None, time, 0, entryType, [], None, detail)
  }

  /** The subclass fields after a stop with a reason: Medication and CarePlan
      keep the reason. */
  function WithStopReason(d: Detail, reason: Option<Code>): Detail {
    match d
    case Medication(chronic, _, claim) => Medication(chronic, reason, claim)
    case CarePlan(_) => CarePlan(reason)
    case _ => d
  }

  /** The subclass fields after `claim.assignCosts()`. */
  function CostsAssigned(d: Detail): Detail {
    match d
    case Medication(chronic, reason, claim) =>
      Medication(chronic, reason, claim.(costAssignments := claim.costAssignments + 1))
    case Encounter(lists, claim, ended) =>
      Encounter(lists, claim.(costAssignments := claim.costAssignments + 1), ended)
    case _ => d
  }

  /** An observation's fields once it is linked to report `rid`. */
  function LinkedTo(d: Detail, rid: EntryId): Detail {
    match d
    case Observation(value, children, _) => Observation(value, children, Some(rid))
    case _ => d
  }

  /** The list an encounter keeps for slot `s`; a list never added to is empty. */
  function Get(lists: map<Slot, seq<EntryId>>, s: Slot): seq<EntryId> {
    if s in lists then lists[s] else []
  }

  /** The minimum length of a new encounter: an hour for an emergency, a day for
      an inpatient stay, and a quarter of an hour otherwise. */
  function EncounterFloor(entryType: string): int {
    if EqualsIgnoreCase(entryType, Emergency.ToString()) then 60 * MINUTE_MS
    else if EqualsIgnoreCase(entryType, Inpatient.ToString()) then 1440 * MINUTE_MS
    else 15 * MINUTE_MS
  }

  /** The Encounter constructor: not ended, empty lists, a fresh claim. */
  function NewEncounter(time: int, entryType: string): Entry {
    Entry(None, time, time + EncounterFloor(entryType), entryType, [], None, Encounter(map[], Claim([], 0), false))
  }

  /** The floor per encounter type, and its independence from letter case. */
  lemma NewEncounterStop(t: EncounterType, time: int, entryType: string)
    requires EqualsIgnoreCase(entryType, t.ToString())
    ensures var e := NewEncounter(time, entryType);
            && !e.detail.ended
            && e.stop == time + (match t
                                 case Emergency => 3_600_000
                                 case Inpatient => 86_400_000
                                 case _ => 900_000)
  {
    UpperOfLower(t.Name());
    UpperOfLower(Emergency.Name());
    UpperOfLower(Inpatient.Name());
  }

  /** `BigDecimal.setScale(2, RoundingMode.DOWN)` of a cost, in cents: rounded
      toward zero. */
  function TruncateCents(x: real): (c: int)
    ensures 0.0 <= x ==> 0 <= c && c as real <= x * 100.0 < c as real + 1.0
    ensures x < 0.0 ==> c <= 0 && c as real - 1.0 < x * 100.0 <= c as real
  {
    if x >= 0.0 then (x * 100.0).Floor else -((-x * 100.0).Floor)
  }

  /** The ids an entry refers to exist, and encounter lists hold entries of
      their list's class. */
  ghost predicate RefsOk(m: map<EntryId, Entry>, e: Entry) {
    match e.detail
    case Encounter(lists, _, _) =>
      forall s, k :: s in lists && 0 <= k < |lists[s]| ==>
        lists[s][k] in m && KindOf(m[lists[s][k]].detail) == SlotKind(s)
    case Observation(_, children, report) =>
      (forall k :: 0 <= k < |children| ==> children[k] in m)
      && (report.Some? ==> report.value in m)
    case Report(observations) =>
      forall k :: 0 <= k < |observations| ==> observations[k] in m
    case _ => true
  }

  ghost predicate Closed(m: map<EntryId, Entry>) {
    forall id {:trigger RefsOk(m, m[id])} :: id in m ==> RefsOk(m, m[id])
  }

  /** `m2` keeps every entry of `m1`, each with its class. */
  ghost predicate Extends(m1: map<EntryId, Entry>, m2: map<EntryId, Entry>) {
    forall id :: id in m1 ==> id in m2 && KindOf(m2[id].detail) == KindOf(m1[id].detail)
  }

  lemma RefsOkExtends(m1: map<EntryId, Entry>, m2: map<EntryId, Entry>, e: Entry)
    requires Extends(m1, m2) && RefsOk(m1, e)
    ensures RefsOk(m2, e)
  {
  }

  lemma ClosedAddFresh(m: map<EntryId, Entry>, id: EntryId, e: Entry)
    requires Closed(m) && id !in m && RefsOk(m, e)
    ensures Extends(m, m[id := e]) && Closed(m[id := e])
  {
    var m' := m[id := e];
    forall x | x in m' ensures RefsOk(m', m'[x]) {
      RefsOkExtends(m, m', m'[x]);
    }
  }

  lemma ClosedReplace(m: map<EntryId, Entry>, id: EntryId, e: Entry)
    requires Closed(m) && id in m && KindOf(e.detail) == KindOf(m[id].detail) && RefsOk(m[id := e], e)
    ensures Extends(m, m[id := e]) && Closed(m[id := e])
  {
    var m' := m[id := e];
    forall x | x in m' && x != id ensures RefsOk(m', m'[x]) {
      RefsOkExtends(m, m', m'[x]);
    }
  }

  /** A snapshot of HealthRecord: the entry table, the encounter list, the
      `present` map, the person's chronic medications, and the next free id. */
  datatype Rec = Rec(
    entries: map<EntryId, Entry>,
    encounters: seq<EntryId>,
    present: map<string, EntryId>,
    chronicMedications: map<string, EntryId>,
    nextId: nat)
  {
    /** What every operation preserves: ids below `nextId`, references closed,
        encounters are Encounter entries of a parseable type, and each present
        entry is filed under its own type. */
    ghost predicate Valid() {
      && (forall id :: id in entries ==> id < nextId)
      && Closed(entries)
      && (forall i :: 0 <= i < |encounters| ==> IsEncounter(entries, encounters[i]))
      && (forall code :: code in present ==> present[code] in entries && entries[present[code]].entryType == code)
      && (forall code :: code in chronicMedications ==> chronicMedications[code] in entries)
    }
  }

  /** The strings `EncounterType.toString()` gives. */
  const ENCOUNTER_TYPE_NAMES: set<string> :=
    {"wellness", "ambulatory", "outpatient", "inpatient", "emergency", "urgentcare"}

  lemma EncounterTypeName(t: EncounterType)
    ensures t.ToString() in ENCOUNTER_TYPE_NAMES
  {
    var name := t.ToString();
    match t
    case Wellness => assert name == "wellness";
    case Ambulatory => assert name == "ambulatory";
    case Outpatient => assert name == "outpatient";
    case Inpatient => assert name == "inpatient";
    case Emergency => assert name == "emergency";
    case UrgentCare => assert name == "urgentcare";
  }

  ghost predicate IsEncounter(m: map<EntryId, Entry>, id: EntryId) {
    id in m && m[id].detail.Encounter? && m[id].entryType in ENCOUNTER_TYPE_NAMES
  }

  /** The empty record of a new person. */
  function EmptyRecord(): (r: Rec)
    ensures r.Valid()
  {
    Rec(map[], [], map[], map[], 0)
  }

  /** Replacing an entry by one of the same class and type, whose references
      exist, keeps the record valid. */
  lemma ReplaceValid(r: Rec, id: EntryId, e: Entry)
    requires r.Valid() && id in r.entries
    requires KindOf(e.detail) == KindOf(r.entries[id].detail) && e.entryType == r.entries[id].entryType
    requires RefsOk(r.entries[id := e], e)
    ensures r.(entries := r.entries[id := e]).Valid()
  {
    ClosedReplace(r.entries, id, e);
    var m := r.entries[id := e];
    forall i | 0 <= i < |r.encounters| ensures IsEncounter(m, r.encounters[i]) {
      assert IsEncounter(r.entries, r.encounters[i]);
    }
  }

  /** Changing an entry's name, times or cost keeps the record valid. */
  lemma ReplaceFieldsValid(r: Rec, id: EntryId, e: Entry)
    requires r.Valid() && id in r.entries
    requires e.detail == r.entries[id].detail && e.entryType == r.entries[id].entryType
    ensures r.(entries := r.entries[id := e]).Valid()
  {
    assert RefsOk(r.entries, r.entries[id]);
    RefsOkExtends(r.entries, r.entries[id := e], e);
    ReplaceValid(r, id, e);
  }

  /** Adding an entry under the next id keeps the record valid. */
  lemma AddValid(r: Rec, e: Entry)
    requires r.Valid() && RefsOk(r.entries, e)
    ensures r.(entries := r.entries[r.nextId := e], nextId := r.nextId + 1).Valid()
  {
    ClosedAddFresh(r.entries, r.nextId, e);
    var m := r.entries[r.nextId := e];
    forall i | 0 <= i < |r.encounters| ensures IsEncounter(m, r.encounters[i]) {
      assert IsEncounter(r.entries, r.encounters[i]);
    }
  }

  /** The record with entry `id` present under its own type `code`. */
  function MakePresent(r: Rec, code: string, id: EntryId): (r': Rec)
    requires r.Valid() && id in r.entries && r.entries[id].entryType == code
    ensures r'.Valid() && r'.present == r.present[code := id]
    ensures r'.entries == r.entries && r'.encounters == r.encounters
    ensures r'.chronicMedications == r.chronicMedications && r'.nextId == r.nextId
  {
    r.(present := r.present[code := id])
  }

  /** `currentEncounter`: the last encounter, after first appending a wellness
      encounter named "First Wellness" starting at `time` when there is none. */
  function WithCurrent(r: Rec, time: int): (out: (Rec, EntryId))
    requires r.Valid()
    ensures out.0.Valid() && IsEncounter(out.0.entries, out.1)
    ensures |out.0.encounters| > 0 && out.1 == out.0.encounters[|out.0.encounters| - 1]
    ensures |r.encounters| > 0 ==> out.0 == r
    ensures |r.encounters| == 0 ==>
              && out.1 == r.nextId && out.0.encounters == [out.1]
              && out.0.entries == r.entries[out.1 := NewEncounter(time, Wellness.ToString()).(name := Some("First Wellness"))]
              && out.0.nextId == r.nextId + 1
              && out.0.present == r.present && out.0.chronicMedications == r.chronicMedications
  {
    if |r.encounters| > 0 then (r, r.encounters[|r.encounters| - 1])
    else
      var id := r.nextId;
      var e := NewEncounter(time, Wellness.ToString()).(name := Some("First Wellness"));
      EncounterTypeName(Wellness);
      AddValid(r, e);
      (r.(entries := r.entries[id := e], encounters := [id], nextId := id + 1), id)
  }

  /** An encounter entry with its list `s` replaced and its claim set. */
  function SetList(enc: Entry, s: Slot, list: seq<EntryId>, claim: Claim): (e: Entry)
    requires enc.detail.Encounter?
  {
    enc.(detail := Encounter(enc.detail.lists[s := list], claim, enc.detail.ended))
  }

  /** Replacing a list of an encounter by entries of the list's class keeps the
      record valid. */
  lemma SetListValid(r: Rec, enc: EntryId, s: Slot, list: seq<EntryId>, claim: Claim)
    requires r.Valid() && IsEncounter(r.entries, enc)
    requires forall k :: 0 <= k < |list| ==> list[k] in r.entries && KindOf(r.entries[list[k]].detail) == SlotKind(s)
    ensures r.(entries := r.entries[enc := SetList(r.entries[enc], s, list, claim)]).Valid()
  {
    var e := r.entries[enc];
    var e' := SetList(e, s, list, claim);
    var m' := r.entries[enc := e'];
    assert RefsOk(r.entries, e);
    assert Extends(r.entries, m');
    assert RefsOk(m', e') by {
      var lists := e'.detail.lists;
      forall s', k | s' in lists && 0 <= k < |lists[s']|
        ensures lists[s'][k] in m' && KindOf(m'[lists[s'][k]].detail) == SlotKind(s')
      {
        if s' != s {
          assert lists[s'][k] == e.detail.lists[s'][k];
        }
      }
    }
    ReplaceValid(r, enc, e');
  }

  /** An encounter entry with `id` appended to its list `s`, and billed on its
      claim when `billed`. */
  function AddToSlot(enc: Entry, s: Slot, id: EntryId, billed: bool): (e: Entry)
    requires enc.detail.Encounter?
    ensures e.detail.Encounter? && e.entryType == enc.entryType && e.start == enc.start && e.stop == enc.stop
    ensures Get(e.detail.lists, s) == Get(enc.detail.lists, s) + [id]
    ensures forall s' :: s' != s ==> Get(e.detail.lists, s') == Get(enc.detail.lists, s')
    ensures e.detail.claim.lineItems == enc.detail.claim.lineItems + (if billed then [id] else [])
    ensures e.detail.claim.costAssignments == enc.detail.claim.costAssignments && e.detail.ended == enc.detail.ended
  {
    var d := enc.detail;
    SetList(enc, s, Get(d.lists, s) + [id], if billed then d.claim.(lineItems := d.claim.lineItems + [id]) else d.claim)
  }

  /** Files the new entry `e` under the next id and appends it to list `s` of
      encounter `enc`. */
  function AddTo(r: Rec, enc: EntryId, e: Entry, s: Slot, billed: bool): (out: (Rec, EntryId))
    requires r.Valid() && IsEncounter(r.entries, enc) && KindOf(e.detail) == SlotKind(s) && RefsOk(r.entries, e)
    ensures out.0.Valid() && out.1 == r.nextId && out.1 !in r.entries
    ensures out.0.entries == r.entries[out.1 := e][enc := AddToSlot(r.entries[enc], s, out.1, billed)]
    ensures out.0.encounters == r.encounters && out.0.present == r.present
    ensures out.0.chronicMedications == r.chronicMedications && out.0.nextId == r.nextId + 1
  {
    var id := r.nextId;
    AddValid(r, e);
    var r1 := r.(entries := r.entries[id := e], nextId := id + 1);
    var encEntry := AddToSlot(r1.entries[enc], s, id, billed);
    assert r1.entries[enc] == r.entries[enc];
    assert RefsOk(r.entries, r.entries[enc]);
    var list := Get(r1.entries[enc].detail.lists, s) + [id];
    forall k | 0 <= k < |list| ensures list[k] in r1.entries && KindOf(r1.entries[list[k]].detail) == SlotKind(s) {
      if k < |list| - 1 {
        assert list[k] == r.entries[enc].detail.lists[s][k];
      }
    }
    SetListValid(r1, enc, s, list, encEntry.detail.claim);
    (r1.(entries := r1.entries[enc := encEntry]), id)
  }

  /** `r'` is `r`, after `currentEncounter`, with the new entry `id` appended to
      list `s` of the current encounter and, when `billed`, to the line items of
      that encounter's claim; no other entry and no encounter changes. */
  ghost predicate FiledOnCurrent(r: Rec, time: int, r': Rec, id: EntryId, s: Slot, billed: bool)
    requires r.Valid()
  {
    var r1 := WithCurrent(r, time).0;
    var enc := WithCurrent(r, time).1;
    && id !in r1.entries && r'.entries.Keys == r1.entries.Keys + {id}
    && r'.encounters == r1.encounters
    && r'.entries[enc] == AddToSlot(r1.entries[enc], s, id, billed)
    && (forall x :: x in r1.entries && x != enc ==> r'.entries[x] == r1.entries[x])
  }

  /** Files `e` under the current encounter's list `s`. */
  function Attach(r: Rec, time: int, e: Entry, s: Slot, billed: bool): (out: (Rec, EntryId))
    requires r.Valid() && KindOf(e.detail) == SlotKind(s) && RefsOk(r.entries, e)
    ensures out.0.Valid() && out.1 !in r.entries && out.1 in out.0.entries && out.0.entries[out.1] == e
    ensures out.0.present == r.present && out.0.chronicMedications == r.chronicMedications
    ensures out.0.encounters == WithCurrent(r, time).0.encounters
    ensures FiledOnCurrent(r, time, out.0, out.1, s, billed)
  {
    var (r1, enc) := WithCurrent(r, time);
    AddTo(r1, enc, e, s, billed)
  }

  /** The common shape of the `*Start` methods for conditions and allergies: a
      code already present is left alone, otherwise a new entry is filed and
      becomes present. */
  function StartEntry(r: Rec, time: int, code: string, s: Slot, billed: bool): (out: (Rec, EntryId))
    requires r.Valid() && SlotKind(s) == BasicKind
    ensures out.0.Valid() && code in out.0.present && out.0.present[code] == out.1
    ensures code !in r.present ==>
              && FiledOnCurrent(r, time, out.0, out.1, s, billed) && out.0.entries[out.1] == NewEntry(time, code, Basic)
              && out.0.present == r.present[code := out.1]
  {
    if code in r.present then (r, r.present[code])
    else
      var (r1, id) := Attach(r, time, NewEntry(time, code, Basic), s, billed);
      (MakePresent(r1, code, id), id)
  }

  /** `conditionStart`: the condition is also billed on the encounter's claim. */
  function ConditionStart(r: Rec, time: int, code: string): (out: (Rec, EntryId))
    requires r.Valid()
    ensures out.0.Valid() && code in out.0.present && out.0.present[code] == out.1
    ensures code !in r.present ==>
              && FiledOnCurrent(r, time, out.0, out.1, Conditions, true) && out.0.entries[out.1] == NewEntry(time, code, Basic)
              && out.0.present == r.present[code := out.1]
  {
    StartEntry(r, time, code, Conditions, true)
  }

  /** `allergyStart`. */
  function AllergyStart(r: Rec, time: int, code: string): (out: (Rec, EntryId))
    requires r.Valid()
    ensures out.0.Valid() && code in out.0.present && out.0.present[code] == out.1
    ensures code !in r.present ==>
              && FiledOnCurrent(r, time, out.0, out.1, Allergies, false) && out.0.entries[out.1] == NewEntry(time, code, Basic)
              && out.0.present == r.present[code := out.1]
  {
    StartEntry(r, time, code, Allergies, false)
  }

  /** `conditionEnd`, `allergyEnd` and `deviceRemove`: the present entry of the
      code stops at `time` and the code stops being present. */
  function EndEntry(r: Rec, time: int, code: string): (r': Rec)
    requires r.Valid()
    ensures r'.Valid()
  {
    if code in r.present then
      var id := r.present[code];
      ReplaceFieldsValid(r, id, r.entries[id].(stop := time));
      r.(entries := r.entries[id := r.entries[id].(stop := time)], present := r.present - {code})
    else r
  }

  /** The entry present under `code`, if any, has name `stateName`. */
  predicate NamedKey(r: Rec, stateName: string, code: string) {
    code in r.present && r.present[code] in r.entries && r.entries[r.present[code]].name == Some(stateName)
  }

  /** A legal outcome of the scan over `present.values()` for `stateName`: no
      key when no present entry has that name, else some key whose entry has it.
      The scan order of the hash map is not modelled. */
  ghost predicate ByStateChoice(r: Rec, stateName: string, choice: Option<string>) {
    match choice
    case None => forall code :: code in r.present ==> !NamedKey(r, stateName, code)
    case Some(code) => NamedKey(r, stateName, code)
  }

  /** `conditionEndByState` and `allergyEndByState` once the scan has chosen:
      the chosen entry stops, and its type stops being present. */
  function EndByState(r: Rec, time: int, choice: Option<string>): (r': Rec)
    requires r.Valid() && (choice.Some? ==> choice.value in r.present)
    ensures r'.Valid()
  {
    match choice
    case None => r
    case Some(code) =>
      var id := r.present[code];
      var e := r.entries[id];
      ReplaceFieldsValid(r, id, e.(stop := time));
      r.(entries := r.entries[id := e.(stop := time)], present := r.present - {e.entryType})
  }

  /** Ending by state ends the chosen key just as ending it by code does. */
  lemma EndByStateIsEnd(r: Rec, time: int, code: string)
    requires r.Valid() && code in r.present
    ensures EndByState(r, time, Some(code)) == EndEntry(r, time, code)
  {
  }

  /** `conditionActive`. */
  function ConditionActive(r: Rec, entryType: string): bool
    requires r.Valid()
  {
    entryType in r.present && r.entries[r.present[entryType]].stop == 0
  }

  function UpdateChronic(r: Rec, entryType: string, id: EntryId, chronic: bool): Rec {
    if chronic then r.(chronicMedications := r.chronicMedications[entryType := id]) else r
  }

  /** `medicationStart`: a present entry that is not a Medication fails the cast;
      a present Medication is returned unchanged; otherwise a new one is filed.
      A chronic start records the medication in the person's chronic map. */
  function MedicationStart(r: Rec, time: int, entryType: string, chronic: bool): (out: (Rec, Result<EntryId>))
    requires r.Valid()
    ensures out.0.Valid()
    ensures out.1.Ok? ==> entryType in out.0.present && out.0.present[entryType] == out.1.value
                          && out.0.entries[out.1.value].detail.Medication?
    ensures out.1.Err? <==> entryType in r.present && !r.entries[r.present[entryType]].detail.Medication?
    ensures out.1.Err? ==> out.0 == r && out.1.error == ClassCastException
    ensures entryType !in r.present ==>
              && out.1.Ok? && FiledOnCurrent(r, time, out.0, out.1.value, Medications, false)
              && out.0.entries[out.1.value] == NewEntry(time, entryType, Medication(chronic, None, Claim([], 0)))
              && out.0.present == r.present[entryType := out.1.value]
  {
    if entryType in r.present then
      var id := r.present[entryType];
      if !r.entries[id].detail.Medication? then (r, Err(ClassCastException))
      else (UpdateChronic(r, entryType, id, chronic), Ok(id))
    else
      var (r1, id) := Attach(r, time, NewEntry(time, entryType, Medication(chronic, None, Claim([], 0))), Medications, false);
      var r2 := MakePresent(r1, entryType, id);
      (UpdateChronic(r2, entryType, id, chronic), Ok(id))
  }

  /** `medicationEnd`: the present Medication stops with `reason`, leaves the
      chronic map, has its cost determined and its claim's costs assigned, and
      stops being present. `cost` stands for the cost engine. */
  function MedicationEnd(r: Rec, time: int, entryType: string, reason: Option<Code>, cost: Entry -> real): (out: (Rec, Result<()>))
    requires r.Valid()
    ensures out.0.Valid()
    ensures out.1.Err? <==> entryType in r.present && !r.entries[r.present[entryType]].detail.Medication?
    ensures out.1.Err? ==> out.0 == r && out.1.error == ClassCastException
  {
    if entryType !in r.present then (r, Ok(()))
    else
      var id := r.present[entryType];
      var e := r.entries[id];
      if !e.detail.Medication? then (r, Err(ClassCastException))
      else
        var stopped := e.(stop := time, detail := WithStopReason(e.detail, reason));
        var costed := stopped.(cost := Some(TruncateCents(cost(stopped))), detail := CostsAssigned(stopped.detail));
        ReplaceValid(r, id, costed);
        (r.(entries := r.entries[id := costed],
            chronicMedications := r.chronicMedications - {entryType},
            present := r.present - {entryType}), Ok(()))
  }

  /** `medicationEndByState` once the scan has chosen: the chosen entry must be a
      Medication; it stops with `reason` and leaves the chronic map and
      `present`. Unlike `medicationEnd`, no cost is determined. */
  function MedicationEndByState(r: Rec, time: int, choice: Option<string>, reason: Option<Code>): (out: (Rec, Result<()>))
    requires r.Valid() && (choice.Some? ==> choice.value in r.present)
    ensures out.0.Valid()
    ensures out.1.Err? <==> choice.Some? && !r.entries[r.present[choice.value]].detail.Medication?
    ensures out.1.Err? ==> out.0 == r && out.1.error == ClassCastException
  {
    match choice
    case None => (r, Ok(()))
    case Some(code) =>
      var id := r.present[code];
      var e := r.entries[id];
      if !e.detail.Medication? then (r, Err(ClassCastException))
      else
        var stopped := e.(stop := time, detail := WithStopReason(e.detail, reason));
        ReplaceValid(r, id, stopped);
        (r.(entries := r.entries[id := stopped],
            chronicMedications := r.chronicMedications - {e.entryType},
            present := r.present - {e.entryType}), Ok(()))
  }

  /** `medicationActive`: a present entry that is not a Medication fails the cast. */
  function MedicationActive(r: Rec, entryType: string): (a: Result<bool>)
    requires r.Valid()
    ensures a.Err? <==> entryType in r.present && !r.entries[r.present[entryType]].detail.Medication?
    ensures a.Ok? ==> a.value == ConditionActive(r, entryType)
  {
    if entryType !in r.present then Ok(false)
    else if !r.entries[r.present[entryType]].detail.Medication? then Err(ClassCastException)
    else Ok(r.entries[r.present[entryType]].stop == 0)
  }

  /** `careplanStart`: as `medicationStart`, without the chronic map. */
  function CarePlanStart(r: Rec, time: int, entryType: string): (out: (Rec, Result<EntryId>))
    requires r.Valid()
    ensures out.0.Valid()
    ensures out.1.Ok? ==> entryType in out.0.present && out.0.present[entryType] == out.1.value
                          && out.0.entries[out.1.value].detail.CarePlan?
    ensures out.1.Err? <==> entryType in r.present && !r.entries[r.present[entryType]].detail.CarePlan?
    ensures out.1.Err? ==> out.0 == r && out.1.error == ClassCastException
    ensures entryType !in r.present ==>
              && out.1.Ok? && FiledOnCurrent(r, time, out.0, out.1.value, CarePlans, false)
              && out.0.entries[out.1.value] == NewEntry(time, entryType, CarePlan(None))
              && out.0.present == r.present[entryType := out.1.value]
  {
    if entryType in r.present then
      var id := r.present[entryType];
      if !r.entries[id].detail.CarePlan? then (r, Err(ClassCastException))
      else (r, Ok(id))
    else
      var (r1, id) := Attach(r, time, NewEntry(time, entryType, CarePlan(None)), CarePlans, false);
      (MakePresent(r1, entryType, id), Ok(id))
  }

  /** `careplanEnd`: the present CarePlan stops with `reason` and stops being present. */
  function CarePlanEnd(r: Rec, time: int, entryType: string, reason: Option<Code>): (out: (Rec, Result<()>))
    requires r.Valid()
    ensures out.0.Valid()
    ensures out.1.Err? <==> entryType in r.present && !r.entries[r.present[entryType]].detail.CarePlan?
    ensures out.1.Err? ==> out.0 == r && out.1.error == ClassCastException
  {
    if entryType !in r.present then (r, Ok(()))
    else CarePlanStop(r, time, entryType, reason)
  }

  /** `careplanEndByState` once the scan has chosen. */
  function CarePlanEndByState(r: Rec, time: int, choice: Option<string>, reason: Option<Code>): (out: (Rec, Result<()>))
    requires r.Valid() && (choice.Some? ==> choice.value in r.present)
    ensures out.0.Valid()
    ensures out.1.Err? <==> choice.Some? && !r.entries[r.present[choice.value]].detail.CarePlan?
  {
    match choice
    case None => (r, Ok(()))
    case Some(code) => CarePlanStop(r, time, r.entries[r.present[code]].entryType, reason)
  }

  /** Stops the CarePlan present under `type`, after the cast. */
  function CarePlanStop(r: Rec, time: int, entryType: string, reason: Option<Code>): (out: (Rec, Result<()>))
    requires r.Valid() && entryType in r.present
    ensures out.0.Valid()
    ensures out.1.Err? <==> !r.entries[r.present[entryType]].detail.CarePlan?
    ensures out.1.Err? ==> out.0 == r && out.1.error == ClassCastException
  {
    var id := r.present[entryType];
    var e := r.entries[id];
    if !e.detail.CarePlan? then (r, Err(ClassCastException))
    else
      var stopped := e.(stop := time, detail := WithStopReason(e.detail, reason));
      ReplaceValid(r, id, stopped);
      (r.(entries := r.entries[id := stopped], present := r.present - {entryType}), Ok(()))
  }

  /** `careplanActive`. */
  function CarePlanActive(r: Rec, entryType: string): (a: Result<bool>)
    requires r.Valid()
    ensures a.Err? <==> entryType in r.present && !r.entries[r.present[entryType]].detail.CarePlan?
    ensures a.Ok? ==> a.value == ConditionActive(r, entryType)
  {
    if entryType !in r.present then Ok(false)
    else if !r.entries[r.present[entryType]].detail.CarePlan? then Err(ClassCastException)
    else Ok(r.entries[r.present[entryType]].stop == 0)
  }

  /** `procedure`: a new Procedure lasting 15 minutes, billed, and present under
      its type whatever was present before. */
  function ProcedureAt(r: Rec, time: int, entryType: string): (out: (Rec, EntryId))
    requires r.Valid()
    ensures out.0.Valid() && out.1 !in r.entries
    ensures entryType in out.0.present && out.0.present[entryType] == out.1
    ensures out.0.entries[out.1] == Entry(None, time, time + 15 * MINUTE_MS, entryType, [], None, Procedure)
    ensures FiledOnCurrent(r, time, out.0, out.1, Procedures, true)
  {
    var (r1, id) := Attach(r, time, Entry(None, time, time + 15 * MINUTE_MS, entryType, [], None, Procedure), Procedures, true);
    (MakePresent(r1, entryType, id), id)
  }

  /** `deviceImplant`: a new Device with a generated UDI, present under its type. */
  function DeviceImplant(r: Rec, time: int, entryType: string, draw: DeviceDraw, udiDate: int -> string): (out: (Rec, EntryId))
    requires r.Valid() && draw.Valid()
    ensures out.0.Valid() && out.1 !in r.entries
    ensures entryType in out.0.present && out.0.present[entryType] == out.1
    ensures out.0.entries[out.1] == NewEntry(time, entryType, Device(GenerateUdi(time, draw, udiDate)))
    ensures FiledOnCurrent(r, time, out.0, out.1, Devices, false)
  {
    var device := NewEntry(time, entryType, Device(GenerateUdi(time, draw, udiDate)));
    var (r1, id) := Attach(r, time, device, Devices, false);
    (MakePresent(r1, entryType, id), id)
  }

  /** `immunization`: a new, billed Immunization with series -1; `present` is untouched. */
  function ImmunizationAt(r: Rec, time: int, entryType: string): (out: (Rec, EntryId))
    requires r.Valid()
    ensures out.0.Valid() && out.1 !in r.entries && out.1 in out.0.entries && out.0.present == r.present
    ensures out.0.entries[out.1] == NewEntry(time, entryType, Immunization(-1))
    ensures FiledOnCurrent(r, time, out.0, out.1, Immunizations, true)
  {
    Attach(r, time, NewEntry(time, entryType, Immunization(-1)), Immunizations, true)
  }

  /** `imagingStudy`: a new study with UID `uid(0, 0)` whose series are numbered
      by `assignImagingStudyDicomUids`. */
  function ImagingStudyAt(r: Rec, time: int, entryType: string, series: seq<Series>, uid: (int, int) -> string): (out: (Rec, EntryId))
    requires r.Valid()
    ensures out.0.Valid() && out.1 !in r.entries && out.1 in out.0.entries && out.0.present == r.present
    ensures out.0.entries[out.1] == NewEntry(time, entryType, ImagingStudy(uid(0, 0), WithDicomUids(series, uid)))
    ensures FiledOnCurrent(r, time, out.0, out.1, ImagingStudies, false)
  {
    Attach(r, time, NewEntry(time, entryType, ImagingStudy(uid(0, 0), WithDicomUids(series, uid))), ImagingStudies, false)
  }

  /** `Encounter.addObservation` on encounter `enc`: `None` is the
      three-argument form, which adds no code; with a display, the
      observation's first code is the LOINC code of its type. */
  function AddObservation(r: Rec, enc: EntryId, time: int, entryType: string, value: Option<ObsValue>, display: Option<string>): (out: (Rec, EntryId))
    requires r.Valid() && IsEncounter(r.entries, enc)
    ensures out.0.Valid() && out.1 !in r.entries && out.0.present == r.present && out.0.encounters == r.encounters
    ensures IsEncounter(out.0.entries, enc) && out.1 in out.0.entries
    ensures Get(out.0.entries[enc].detail.lists, Observations) == Get(r.entries[enc].detail.lists, Observations) + [out.1]
    ensures var o := out.0.entries[out.1];
            && o.entryType == entryType && o.start == time && o.detail == Observation(value, [], None)
            && o.codes == (if display.Some? then [Code("LOINC", entryType, display.value)] else [])
  {
    var codes := if display.Some? then [Code("LOINC", entryType, display.value)] else [];
    AddTo(r, enc, Entry(None, time, 0, entryType, codes, None, Observation(value, [], None)), Observations, false)
  }

  /** `observation`: an observation without codes on the current encounter. */
  function ObservationAt(r: Rec, time: int, entryType: string, value: Option<ObsValue>): (out: (Rec, EntryId))
    requires r.Valid()
    ensures out.0.Valid() && out.1 !in r.entries && out.0.present == r.present
  {
    var (r1, enc) := WithCurrent(r, time);
    AddObservation(r1, enc, time, entryType, value, None)
  }

  function Reversed(s: seq<EntryId>): (t: seq<EntryId>)
    ensures |t| == |s| && forall k :: 0 <= k < |s| ==> t[k] == s[|s| - 1 - k]
  {
    if s == [] then [] else [s[|s| - 1]] + Reversed(s[..|s| - 1])
  }

  /** How many observations `multiObservation` moves: `n` when there are at least
      that many, otherwise none. */
  function Moved(size: nat, n: int): nat {
    if size >= n && n > 0 then n else 0
  }

  /** `multiObservation` on encounter `enc`: when it has at least `n > 0`
      observations, the last `n` are removed from its list and become, newest
      first, the children of a new observation of the type; the new observation
      is then appended to the list. Nothing but the encounter and the new entry
      changes. */
  function MoveObservations(r: Rec, enc: EntryId, time: int, entryType: string, n: int): (out: (Rec, EntryId))
    requires r.Valid() && IsEncounter(r.entries, enc)
    ensures out.0.Valid() && out.1 == r.nextId && out.1 !in r.entries && out.1 in out.0.entries && IsEncounter(out.0.entries, enc)
    ensures out.0.present == r.present && out.0.encounters == r.encounters
    ensures out.0.chronicMedications == r.chronicMedications && out.0.nextId == r.nextId + 1
  {
    var obs := Get(r.entries[enc].detail.lists, Observations);
    var cut := |obs| - Moved(|obs|, n);
    var parent := Entry(None, time, 0, entryType, [], None, Observation(None, Reversed(obs[cut..]), None));
    assert RefsOk(r.entries, r.entries[enc]);
    assert forall k :: 0 <= k < |obs| ==> obs[k] in r.entries;
    var id := r.nextId;
    assert enc < id;
    AddValid(r, parent);
    var r2 := r.(entries := r.entries[id := parent], nextId := id + 1);
    assert r2.entries[enc] == r.entries[enc];
    var list := obs[..cut] + [id];
    forall k | 0 <= k < |list| ensures list[k] in r2.entries && KindOf(r2.entries[list[k]].detail) == SlotKind(Observations) {
      if k < cut {
        assert list[k] == r.entries[enc].detail.lists[Observations][k];
      }
    }
    var encE' := SetList(r2.entries[enc], Observations, list, r2.entries[enc].detail.claim);
    SetListValid(r2, enc, Observations, list, r2.entries[enc].detail.claim);
    (r2.(entries := r2.entries[enc := encE']), id)
  }

  /** What `multiObservation` does to the encounter's list and what the new
      observation holds; no other entry changes. */
  lemma MoveObservationsShape(r: Rec, enc: EntryId, time: int, entryType: string, n: int)
    requires r.Valid() && IsEncounter(r.entries, enc)
    ensures var (r', id) := MoveObservations(r, enc, time, entryType, n);
            var obs := Get(r.entries[enc].detail.lists, Observations);
            var cut := |obs| - Moved(|obs|, n);
            && Get(r'.entries[enc].detail.lists, Observations) == obs[..cut] + [id]
            && r'.entries[id] == Entry(None, time, 0, entryType, [], None, Observation(None, Reversed(obs[cut..]), None))
            && forall x :: x in r.entries && x != enc ==> x in r'.entries && r'.entries[x] == r.entries[x]
  {
  }

  /** The whole record after `multiObservation` on encounter `enc`. */
  lemma MoveObservationsState(r: Rec, enc: EntryId, time: int, entryType: string, n: int)
    requires r.Valid() && IsEncounter(r.entries, enc)
    ensures var obs := Get(r.entries[enc].detail.lists, Observations);
            var cut := |obs| - Moved(|obs|, n);
            var id := r.nextId;
            var parent := Entry(None, time, 0, entryType, [], None, Observation(None, Reversed(obs[cut..]), None));
            MoveObservations(r, enc, time, entryType, n)
              == (r.(entries := r.entries[id := parent][enc := SetList(r.entries[enc], Observations, obs[..cut] + [id], r.entries[enc].detail.claim)],
                     nextId := id + 1), id)
  {
  }

  /** `multiObservation` on the current encounter. */
  function MultiObservation(r: Rec, time: int, entryType: string, n: int): (out: (Rec, EntryId))
    requires r.Valid()
    ensures out.0.Valid() && out.1 !in r.entries && out.0.present == r.present
  {
    var (r1, enc) := WithCurrent(r, time);
    MoveObservations(r1, enc, time, entryType, n)
  }

  /** With at least `n > 0` observations the list shrinks by `n - 1`, and child
      `k` of the new observation is the observation that was `k`-th from the
      end; with fewer, no observation moves. */
  lemma MoveObservationsCount(r: Rec, enc: EntryId, time: int, entryType: string, n: int)
    requires r.Valid() && IsEncounter(r.entries, enc)
    ensures var obs := Get(r.entries[enc].detail.lists, Observations);
            var (r', id) := MoveObservations(r, enc, time, entryType, n);
            var now := Get(r'.entries[enc].detail.lists, Observations);
            var children := r'.entries[id].detail.observations;
            && (n > 0 && |obs| >= n ==>
                  |now| == |obs| - n + 1 && |children| == n
                  && forall k :: 0 <= k < n ==> children[k] == obs[|obs| - 1 - k])
            && (n <= 0 || |obs| < n ==> now == obs + [id] && children == [])
  {
    MoveObservationsShape(r, enc, time, entryType, n);
    var obs := Get(r.entries[enc].detail.lists, Observations);
    if !(n > 0 && |obs| >= n) {
      assert obs[..|obs|] == obs;
    }
  }

  /** The back-link `o.report = report` of each captured observation. */
  function LinkReport(m: map<EntryId, Entry>, ids: seq<EntryId>, rid: EntryId): (m': map<EntryId, Entry>)
    requires forall k :: 0 <= k < |ids| ==> ids[k] in m && m[ids[k]].detail.Observation?
    ensures m'.Keys == m.Keys
    ensures forall id :: id in m && id in ids ==> m'[id] == m[id].(detail := LinkedTo(m[id].detail, rid))
    ensures forall id :: id in m && id !in ids ==> m'[id] == m[id]
  {
    if ids == [] then m
    else
      var last := ids[|ids| - 1];
      var m1 := LinkReport(m, ids[..|ids| - 1], rid);
      assert forall id :: id in ids ==> id in ids[..|ids| - 1] || id == last;
      m1[last := m1[last].(detail := LinkedTo(m1[last].detail, rid))]
  }

  /** `report` on encounter `enc` for a count `n >= 0`: the last `n`
      observations, or all of them when there are not more than `n`, are copied
      into a new report, which is appended to the encounter's reports; each
      copied observation links back to it. */
  function CaptureReport(r: Rec, enc: EntryId, time: int, entryType: string, n: nat): (out: (Rec, EntryId))
    requires r.Valid() && IsEncounter(r.entries, enc)
    ensures out.0.Valid() && out.1 !in r.entries && out.1 in out.0.entries && IsEncounter(out.0.entries, enc)
    ensures out.0.encounters == r.encounters && out.0.present == r.present
    ensures forall x :: x in r.entries ==> x in out.0.entries
    ensures out.0.entries[out.1] == NewEntry(time, entryType, Report(Captured(r, enc, n)))
    ensures out.0.entries[enc] == AddToSlot(r.entries[enc], Reports, out.1, false)
    ensures forall x :: x in Captured(r, enc, n) ==> out.0.entries[x] == r.entries[x].(detail := LinkedTo(r.entries[x].detail, out.1))
    ensures forall x :: x in r.entries && x != enc && x !in Captured(r, enc, n) ==> out.0.entries[x] == r.entries[x]
  {
    var captured := Captured(r, enc, n);
    var added := AddTo(r, enc, NewEntry(time, entryType, Report(captured)), Reports, false);
    assert added.1 !in captured && enc !in captured;
    LinkValid(added.0, captured, added.1);
    (added.0.(entries := LinkReport(added.0.entries, captured, added.1)), added.1)
  }

  /** The whole record after `report` on encounter `enc`: the report filed on
      the encounter, then the back-links. */
  lemma CaptureReportState(r: Rec, enc: EntryId, time: int, entryType: string, n: nat)
    requires r.Valid() && IsEncounter(r.entries, enc)
    ensures var added := AddTo(r, enc, NewEntry(time, entryType, Report(Captured(r, enc, n))), Reports, false);
            CaptureReport(r, enc, time, entryType, n)
              == (added.0.(entries := LinkReport(added.0.entries, Captured(r, enc, n), added.1)), added.1)
  {
  }

  /** The observations `report` copies: the last `n` of the encounter's, or all
      of them when there are not more than `n`. They are observations other than
      the encounter. */
  function Captured(r: Rec, enc: EntryId, n: nat): (captured: seq<EntryId>)
    requires r.Valid() && IsEncounter(r.entries, enc)
    ensures var obs := Get(r.entries[enc].detail.lists, Observations);
            captured == if |obs| > n then obs[|obs| - n..] else obs
    ensures forall k :: 0 <= k < |captured| ==>
              captured[k] in r.entries && captured[k] != enc && r.entries[captured[k]].detail.Observation?
  {
    var obs := Get(r.entries[enc].detail.lists, Observations);
    var captured := if |obs| > n then obs[|obs| - n..] else obs;
    assert RefsOk(r.entries, r.entries[enc]);
    assert forall k :: 0 <= k < |captured| ==> captured[k] in obs;
    assert forall k :: 0 <= k < |captured| ==> KindOf(r.entries[captured[k]].detail) == ObservationKind;
    captured
  }

  /** `report`: a negative count makes `subList` throw, after the current
      encounter was made; otherwise the report is captured on the current
      encounter. */
  function ReportAt(r: Rec, time: int, entryType: string, n: int): (out: (Rec, Result<EntryId>))
    requires r.Valid() && -INT_MAX - 1 <= n <= INT_MAX
    ensures out.0.Valid()
    ensures out.1.Err? <==> n < 0
    ensures out.1.Err? ==> out.0 == WithCurrent(r, time).0
  {
    var current := WithCurrent(r, time);
    var obs := Get(current.0.entries[current.1].detail.lists, Observations);
    if n < 0 then
      (current.0, Err(if |obs| - n > INT_MAX then IndexOutOfBoundsException else IllegalArgumentException))
    else
      var captured := CaptureReport(current.0, current.1, time, entryType, n);
      (captured.0, Ok(captured.1))
  }

  lemma LinkValid(r: Rec, ids: seq<EntryId>, rid: EntryId)
    requires r.Valid() && rid in r.entries
    requires forall k :: 0 <= k < |ids| ==> ids[k] in r.entries && r.entries[ids[k]].detail.Observation?
    ensures r.(entries := LinkReport(r.entries, ids, rid)).Valid()
  {
    var m := LinkReport(r.entries, ids, rid);
    assert Extends(r.entries, m);
    forall id | id in m ensures RefsOk(m, m[id]) {
      RefsOkExtends(r.entries, m, r.entries[id]);
    }
    forall i | 0 <= i < |r.encounters| ensures IsEncounter(m, r.encounters[i]) {
      assert IsEncounter(r.entries, r.encounters[i]);
    }
    forall code | code in r.present ensures m[r.present[code]].entryType == code {
      var x := r.present[code];
      assert m[x].entryType == r.entries[x].entryType;
    }
  }

  /** `encounterStart`: a new encounter of the type, appended. */
  function EncounterStart(r: Rec, time: int, entryType: EncounterType): (out: (Rec, EntryId))
    requires r.Valid()
    ensures out.0.Valid() && out.1 !in r.entries
    ensures out.0.encounters == r.encounters + [out.1]
    ensures out.0.entries == r.entries[out.1 := NewEncounter(time, entryType.ToString())]
    ensures out.0.present == r.present && out.0.chronicMedications == r.chronicMedications
  {
    var id := r.nextId;
    EncounterTypeName(entryType);
    AddValid(r, NewEncounter(time, entryType.ToString()));
    (r.(entries := r.entries[id := NewEncounter(time, entryType.ToString())], encounters := r.encounters + [id], nextId := id + 1), id)
  }

  /** Encounter `i` of the list is not ended and its type parses to `type`. */
  predicate OpenOfType(r: Rec, i: nat, entryType: EncounterType)
    requires i < |r.encounters| && r.encounters[i] in r.entries
  {
    var e := r.entries[r.encounters[i]];
    e.detail.Encounter? && !e.detail.ended && FromString(Some(e.entryType)) == Ok(entryType)
  }

  /** The last index below `n` whose encounter is open and of `type`. */
  function LastOpen(r: Rec, entryType: EncounterType, n: nat): (i: Option<nat>)
    requires n <= |r.encounters| && forall j :: 0 <= j < n ==> r.encounters[j] in r.entries
    ensures i.Some? ==> i.value < n && OpenOfType(r, i.value, entryType)
    ensures i.Some? ==> forall j :: i.value < j < n ==> !OpenOfType(r, j, entryType)
    ensures i.None? ==> forall j :: 0 <= j < n ==> !OpenOfType(r, j, entryType)
  {
    if n == 0 then None
    else if OpenOfType(r, n - 1, entryType) then Some(n - 1)
    else LastOpen(r, entryType, n - 1)
  }

  /** The summed positive durations of the procedures `ps`. */
  function ProcedureTime(m: map<EntryId, Entry>, ps: seq<EntryId>): (t: int)
    requires forall k :: 0 <= k < |ps| ==> ps[k] in m
    ensures t >= 0
  {
    if ps == [] then 0
    else
      var p := m[ps[|ps| - 1]];
      ProcedureTime(m, ps[..|ps| - 1]) + (if p.stop - p.start > 0 then p.stop - p.start else 0)
  }

  /** Encounter entry `e` once `encounterEnd` has run on it: ended, its stop
      the later of its stop and `time` plus its procedures' positive durations,
      its cost determined and its claim's costs assigned. */
  function EndedEncounter(m: map<EntryId, Entry>, e: Entry, time: int, cost: Entry -> real): (e': Entry)
    requires e.detail.Encounter? && forall k :: 0 <= k < |Get(e.detail.lists, Procedures)| ==> Get(e.detail.lists, Procedures)[k] in m
    ensures e'.detail.Encounter? && e'.detail.ended && e'.detail.lists == e.detail.lists
    ensures e'.stop == (if time > e.stop then time else e.stop) + ProcedureTime(m, Get(e.detail.lists, Procedures))
    ensures e'.stop >= e.stop && e'.stop >= time
    ensures e'.detail.claim.costAssignments == e.detail.claim.costAssignments + 1
    ensures e'.detail.claim.lineItems == e.detail.claim.lineItems
    ensures e'.cost == Some(TruncateCents(cost(e.(stop := e'.stop, detail := Encounter(e.detail.lists, e.detail.claim, true)))))
    ensures e' == e.(stop := e'.stop, cost := e'.cost, detail := e'.detail)
  {
    var ended := e.(stop := (if time > e.stop then time else e.stop) + ProcedureTime(m, Get(e.detail.lists, Procedures)),
                    detail := Encounter(e.detail.lists, e.detail.claim, true));
    ended.(cost := Some(TruncateCents(cost(ended))), detail := CostsAssigned(ended.detail))
  }

  /** Ends encounter `id`; only that entry changes. */
  function EndEncounter(r: Rec, id: EntryId, time: int, cost: Entry -> real): (r': Rec)
    requires r.Valid() && IsEncounter(r.entries, id)
    ensures r'.Valid()
  {
    var e := r.entries[id];
    assert RefsOk(r.entries, e);
    var costed := EndedEncounter(r.entries, e, time, cost);
    assert RefsOk(r.entries[id := costed], costed) by {
      ClosedReplace(r.entries, id, e.(detail := e.detail));
      assert Extends(r.entries, r.entries[id := costed]);
    }
    ReplaceValid(r, id, costed);
    r.(entries := r.entries[id := costed])
  }

  /** `encounterEnd`: the newest open encounter of the type ends; with no such
      encounter nothing changes. */
  function EncounterEnd(r: Rec, time: int, entryType: EncounterType, cost: Entry -> real): (r': Rec)
    requires r.Valid()
    ensures r'.Valid()
  {
    match LastOpen(r, entryType, |r.encounters|)
    case None => r
    case Some(i) =>
      assert IsEncounter(r.entries, r.encounters[i]);
      EndEncounter(r, r.encounters[i], time, cost)
  }

  /** `Entry.getCost`: the cost is determined on first use and kept. */
  function GetCost(r: Rec, id: EntryId, cost: Entry -> real): (out: (Rec, int))
    requires r.Valid() && id in r.entries
    ensures out.0.Valid() && id in out.0.entries && out.0.entries[id].cost == Some(out.1)
    ensures out.0 == r.(entries := r.entries[id := r.entries[id].(cost := Some(out.1))])
    ensures r.entries[id].cost.Some? ==> out.0 == r
    ensures r.entries[id].cost.None? ==> out.1 == TruncateCents(cost(r.entries[id]))
  {
    var e := r.entries[id];
    match e.cost
    case Some(c) => (r, c)
    case None =>
      var c := TruncateCents(cost(e));
      ReplaceFieldsValid(r, id, e.(cost := Some(c)));
      (r.(entries := r.entries[id := e.(cost := Some(c))]), c)
  }

  /** A caller naming an entry: the public `name` field is written. */
  function NameEntry(r: Rec, id: EntryId, name: string): (r': Rec)
    requires r.Valid() && id in r.entries
    ensures r'.Valid() && r'.entries.Keys == r.entries.Keys && r'.entries[id].name == Some(name)
    ensures forall x :: x in r.entries && x != id ==> r'.entries[x] == r.entries[x]
    ensures r'.present == r.present && r'.encounters == r.encounters
    ensures r'.chronicMedications == r.chronicMedications && r'.nextId == r.nextId
  {
    ReplaceFieldsValid(r, id, r.entries[id].(name := Some(name)));
    r.(entries := r.entries[id := r.entries[id].(name := Some(name))])
  }

  /** The last index below `n` whose encounter's type is exactly "wellness". */
  function LastWellness(r: Rec, n: nat): (i: Option<nat>)
    requires r.Valid() && n <= |r.encounters|
    ensures i.Some? ==> i.value < n && r.entries[r.encounters[i.value]].entryType == Wellness.ToString()
    ensures i.Some? ==> forall j :: i.value < j < n ==> r.entries[r.encounters[j]].entryType != Wellness.ToString()
    ensures i.None? ==> forall j :: 0 <= j < n ==> r.entries[r.encounters[j]].entryType != Wellness.ToString()
  {
    if n == 0 then None
    else if r.entries[r.encounters[n - 1]].entryType == Wellness.ToString() then Some(n - 1)
    else LastWellness(r, n - 1)
  }

  /** `timeSinceLastWellnessEncounter`. */
  function TimeSinceLastWellness(r: Rec, time: int): int
    requires r.Valid()
  {
    match LastWellness(r, |r.encounters|)
    case None => LONG_MAX
    case Some(i) => time - r.entries[r.encounters[i]].start
  }

  /** The first of the observations `obs` whose type is `code`. */
  function FirstOfType(m: map<EntryId, Entry>, obs: seq<EntryId>, code: string): (o: Option<EntryId>)
    requires forall k :: 0 <= k < |obs| ==> obs[k] in m
    ensures o.Some? ==> exists k :: 0 <= k < |obs| && obs[k] == o.value && m[o.value].entryType == code
                                    && forall j :: 0 <= j < k ==> m[obs[j]].entryType != code
    ensures o.None? ==> forall k :: 0 <= k < |obs| ==> m[obs[k]].entryType != code
  {
    if obs == [] then None
    else if m[obs[0]].entryType == code then Some(obs[0])
    else
      var o := FirstOfType(m, obs[1..], code);
      assert forall k :: 1 <= k < |obs| ==> obs[k] == obs[1..][k - 1];
      o
  }

  /** `Encounter.findObservation`. */
  function FindObservation(r: Rec, enc: EntryId, code: string): Option<EntryId>
    requires r.Valid() && IsEncounter(r.entries, enc)
  {
    assert RefsOk(r.entries, r.entries[enc]);
    FirstOfType(r.entries, Get(r.entries[enc].detail.lists, Observations), code)
  }

  /** The observation of `type` in the newest encounter below `n` that has one. */
  function LatestObservation(r: Rec, entryType: string, n: nat): (o: Option<EntryId>)
    requires r.Valid() && n <= |r.encounters|
    ensures o.Some? ==> exists i :: 0 <= i < n && FindObservation(r, r.encounters[i], entryType) == o
                                    && forall j :: i < j < n ==> FindObservation(r, r.encounters[j], entryType).None?
    ensures o.None? ==> forall j :: 0 <= j < n ==> FindObservation(r, r.encounters[j], entryType).None?
  {
    if n == 0 then None
    else
      match FindObservation(r, r.encounters[n - 1], entryType)
      case Some(o) => Some(o)
      case None => LatestObservation(r, entryType, n - 1)
  }

  /** First index of `x` in `s`, or -1. */
  function IndexOf(s: seq<EntryId>, x: EntryId): (i: int)
    ensures -1 <= i < |s|
    ensures i >= 0 ==> s[i] == x && forall j :: 0 <= j < i ==> s[j] != x
    ensures i == -1 ==> x !in s
  {
    if s == [] then -1
    else if s[0] == x then 0
    else
      var i := IndexOf(s[1..], x);
      if i == -1 then -1 else i + 1
  }

  /** `Encounter.previousEncounter`: none for a record of fewer than two
      encounters or for the first one; an encounter not in the record makes
      `get(-2)` throw. */
  function PreviousEncounter(r: Rec, enc: EntryId): (p: Result<Option<EntryId>>)
    ensures p.Err? <==> |r.encounters| >= 2 && enc !in r.encounters
    ensures p.Ok? && p.value.Some? ==>
              exists i :: 1 <= i < |r.encounters| && r.encounters[i] == enc && p.value.value == r.encounters[i - 1]
    ensures forall i :: 1 <= i < |r.encounters| && r.encounters[i] == enc && enc !in r.encounters[..i] ==>
              p == Ok(Some(r.encounters[i - 1]))
    ensures |r.encounters| < 2 || r.encounters[0] == enc ==> p == Ok(None)
  {
    if |r.encounters| < 2 then Ok(None)
    else
      var i := IndexOf(r.encounters, enc);
      if i == -1 then Err(IndexOutOfBoundsException)
      else if i == 0 then Ok(None)
      else Ok(Some(r.encounters[i - 1]))
  }
}
