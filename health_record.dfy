/** HealthRecord as the object it is: its fields are updated in place by each
    mutator, and each mutator is proved to leave the record in the state the
    matching function of `RecordSpec` computes from the old one. */
module Records {
  import opened Util
  import opened Concepts
  import opened DeviceUdi
  import opened Imaging
  import opened RecordSpec

  class HealthRecord {
    /** Every entry the record created, by id. */
    var entries: map<EntryId, Entry>
    /** `encounters`, oldest first. */
    var encounters: seq<EntryId>
    /** `present`: the active entry of each code. */
    var present: map<string, EntryId>
    /** The person's `chronicMedications`, kept here because only the record writes them. */
    var chronicMedications: map<string, EntryId>
    /** The id the next new entry gets. */
    var nextId: nat

    function State(): Rec
      reads this
    {
      Rec(entries, encounters, present, chronicMedications, nextId)
    }

    ghost predicate Valid()
      reads this
    {
      State().Valid()
    }

    constructor ()
      ensures State() == RecordSpec.EmptyRecord() && Valid()
    {
      entries := map[];
      encounters := [];
      present := map[];
      chronicMedications := map[];
      nextId := 0;
    }

    /** `currentEncounter`: the last encounter; with none yet, a wellness
        encounter named "First Wellness" is appended first. */
    method CurrentEncounter(time: int) returns (enc: EntryId)
      requires Valid()
      modifies this
      ensures (State(), enc) == WithCurrent(old(State()), time)
      ensures Valid()
    {
      if |encounters| >= 1 {
        enc := encounters[|encounters| - 1];
      } else {
        assert encounters == [];
        var encounter := NewEncounter(time, Wellness.ToString()).(name := Some("First Wellness"));
        enc := nextId;
        nextId := nextId + 1;
        entries := entries[enc := encounter];
        encounters := encounters + [enc];
        assert State().encounters == WithCurrent(old(State()), time).0.encounters;
      }
    }

    /** Files the new entry `e` and adds it to list `s` of encounter `enc` (and
        to its claim when `billed`). */
    method Add(enc: EntryId, e: Entry, s: Slot, billed: bool) returns (id: EntryId)
      requires Valid() && IsEncounter(entries, enc) && KindOf(e.detail) == SlotKind(s) && RefsOk(entries, e)
      modifies this
      ensures (State(), id) == AddTo(old(State()), enc, e, s, billed)
      ensures Valid()
    {
      id := nextId;
      nextId := nextId + 1;
      entries := entries[id := e];
      entries := entries[enc := AddToSlot(entries[enc], s, id, billed)];
    }

    /** Adds the new entry `e` to list `s` of the current encounter. */
    method AttachToCurrent(time: int, e: Entry, s: Slot, billed: bool) returns (id: EntryId)
      requires Valid() && KindOf(e.detail) == SlotKind(s) && RefsOk(entries, e)
      modifies this
      ensures (State(), id) == Attach(old(State()), time, e, s, billed)
      ensures Valid()
    {
      ghost var r := State();
      var enc := CurrentEncounter(time);
      RefsOkExtends(r.entries, entries, e);
      id := Add(enc, e, s, billed);
    }

    /** `conditionStart`. */
    method ConditionStart(time: int, primaryCode: string) returns (id: EntryId)
      requires Valid()
      modifies this
      ensures (State(), id) == RecordSpec.ConditionStart(old(State()), time, primaryCode)
      ensures Valid()
    {
      if primaryCode !in present {
        var condition := AttachToCurrent(time, NewEntry(time, primaryCode, Basic), Conditions, true);
        present := present[primaryCode := condition];
      }
      id := present[primaryCode];
    }

    /** `allergyStart`. */
    method AllergyStart(time: int, primaryCode: string) returns (id: EntryId)
      requires Valid()
      modifies this
      ensures (State(), id) == RecordSpec.AllergyStart(old(State()), time, primaryCode)
      ensures Valid()
    {
      if primaryCode !in present {
        var allergy := AttachToCurrent(time, NewEntry(time, primaryCode, Basic), Allergies, false);
        present := present[primaryCode := allergy];
      }
      id := present[primaryCode];
    }

    /** `conditionEnd`, `allergyEnd` and `deviceRemove`. */
    method End(time: int, primaryCode: string)
      requires Valid()
      modifies this
      ensures State() == EndEntry(old(State()), time, primaryCode)
      ensures Valid()
    {
      if primaryCode in present {
        var id := present[primaryCode];
        entries := entries[id := entries[id].(stop := time)];
        present := present - {primaryCode};
      }
    }

    /** The scan of `present.values()` for an entry named `stateName`: the
        key of some such entry, or none. */
    method ScanByState(stateName: string) returns (choice: Option<string>)
      requires Valid()
      ensures ByStateChoice(State(), stateName, choice)
    {
      if code :| code in present && NamedKey(State(), stateName, code) {
        choice := Some(code);
      } else {
        choice := None;
      }
    }

    /** `conditionEndByState` and `allergyEndByState`. */
    method EndByState(time: int, stateName: string) returns (ghost choice: Option<string>)
      requires Valid()
      modifies this
      ensures ByStateChoice(old(State()), stateName, choice)
      ensures State() == RecordSpec.EndByState(old(State()), time, choice)
      ensures Valid()
    {
      var found := ScanByState(stateName);
      choice := found;
      if found.Some? {
        var id := present[found.value];
        var e := entries[id];
        entries := entries[id := e.(stop := time)];
        present := present - {e.entryType};
      }
    }

    /** `medicationStart`: the present entry of the type is cast to Medication. */
    method MedicationStart(time: int, entryType: string, chronic: bool) returns (r: Result<EntryId>)
      requires Valid()
      modifies this
      ensures (State(), r) == RecordSpec.MedicationStart(old(State()), time, entryType, chronic)
      ensures Valid()
    {
      var medication: EntryId;
      if entryType !in present {
        medication := AttachToCurrent(time, NewEntry(time, entryType, Medication(chronic, None, Claim([], 0))), Medications, false);
        present := present[entryType := medication];
      } else {
        medication := present[entryType];
        if !entries[medication].detail.Medication? {
          return Err(ClassCastException);
        }
      }
      if chronic {
        chronicMedications := chronicMedications[entryType := medication];
      }
      r := Ok(medication);
    }

    /** `medicationEnd`: `cost` stands for the cost engine. */
    method MedicationEnd(time: int, entryType: string, reason: Option<Code>, cost: Entry -> real) returns (r: Result<()>)
      requires Valid()
      modifies this
      ensures (State(), r) == RecordSpec.MedicationEnd(old(State()), time, entryType, reason, cost)
      ensures Valid()
    {
      if entryType in present {
        var id := present[entryType];
        if !entries[id].detail.Medication? {
          return Err(ClassCastException);
        }
        var medication := entries[id];
        medication := medication.(stop := time, detail := WithStopReason(medication.detail, reason));
        chronicMedications := chronicMedications - {entryType};
        medication := medication.(cost := Some(TruncateCents(cost(medication))), detail := CostsAssigned(medication.detail));
        entries := entries[id := medication];
        present := present - {entryType};
      }
      r := Ok(());
    }

    /** `medicationEndByState`: the entry the scan finds is cast to Medication. */
    method MedicationEndByState(time: int, stateName: string, reason: Option<Code>) returns (r: Result<()>, ghost choice: Option<string>)
      requires Valid()
      modifies this
      ensures ByStateChoice(old(State()), stateName, choice)
      ensures (State(), r) == RecordSpec.MedicationEndByState(old(State()), time, choice, reason)
      ensures Valid()
    {
      var found := ScanByState(stateName);
      choice := found;
      if found.Some? {
        var id := present[found.value];
        if !entries[id].detail.Medication? {
          return Err(ClassCastException), choice;
        }
        var medication := entries[id];
        entries := entries[id := medication.(stop := time, detail := WithStopReason(medication.detail, reason))];
        chronicMedications := chronicMedications - {medication.entryType};
        present := present - {medication.entryType};
      }
      r := Ok(());
    }

    /** `careplanStart`: the present entry of the type is cast to CarePlan. */
    method CarePlanStart(time: int, entryType: string) returns (r: Result<EntryId>)
      requires Valid()
      modifies this
      ensures (State(), r) == RecordSpec.CarePlanStart(old(State()), time, entryType)
      ensures Valid()
    {
      var careplan: EntryId;
      if entryType !in present {
        careplan := AttachToCurrent(time, NewEntry(time, entryType, CarePlan(None)), CarePlans, false);
        present := present[entryType := careplan];
      } else {
        careplan := present[entryType];
        if !entries[careplan].detail.CarePlan? {
          return Err(ClassCastException);
        }
      }
      r := Ok(careplan);
    }

    /** Stops the CarePlan present under `entryType`, after the cast. */
    method StopCarePlan(time: int, entryType: string, reason: Option<Code>) returns (r: Result<()>)
      requires Valid() && entryType in present
      modifies this
      ensures (State(), r) == CarePlanStop(old(State()), time, entryType, reason)
      ensures Valid()
    {
      var id := present[entryType];
      if !entries[id].detail.CarePlan? {
        return Err(ClassCastException);
      }
      var careplan := entries[id];
      entries := entries[id := careplan.(stop := time, detail := WithStopReason(careplan.detail, reason))];
      present := present - {entryType};
      r := Ok(());
    }

    /** `careplanEnd`. */
    method CarePlanEnd(time: int, entryType: string, reason: Option<Code>) returns (r: Result<()>)
      requires Valid()
      modifies this
      ensures (State(), r) == RecordSpec.CarePlanEnd(old(State()), time, entryType, reason)
      ensures Valid()
    {
      r := Ok(());
      if entryType in present {
        r := StopCarePlan(time, entryType, reason);
      }
    }

    /** `careplanEndByState`. */
    method CarePlanEndByState(time: int, stateName: string, reason: Option<Code>) returns (r: Result<()>, ghost choice: Option<string>)
      requires Valid()
      modifies this
      ensures ByStateChoice(old(State()), stateName, choice)
      ensures (State(), r) == RecordSpec.CarePlanEndByState(old(State()), time, choice, reason)
      ensures Valid()
    {
      var found := ScanByState(stateName);
      choice := found;
      r := Ok(());
      if found.Some? {
        r := StopCarePlan(time, entries[present[found.value]].entryType, reason);
      }
    }

    /** `procedure`. */
    method Procedure(time: int, entryType: string) returns (id: EntryId)
      requires Valid()
      modifies this
      ensures (State(), id) == ProcedureAt(old(State()), time, entryType)
      ensures Valid()
    {
      var procedure := Entry(None, time, time + 15 * MINUTE_MS, entryType, [], None, RecordSpec.Procedure);
      id := AttachToCurrent(time, procedure, Procedures, true);
      present := present[entryType := id];
    }

    /** `deviceImplant`: `draw` is the person's random draw and `udiDate` the
        date format. */
    method DeviceImplant(time: int, entryType: string, draw: DeviceDraw, udiDate: int -> string) returns (id: EntryId)
      requires Valid() && draw.Valid()
      modifies this
      ensures (State(), id) == RecordSpec.DeviceImplant(old(State()), time, entryType, draw, udiDate)
      ensures Valid()
    {
      var device := NewEntry(time, entryType, Device(GenerateUdi(time, draw, udiDate)));
      id := AttachToCurrent(time, device, Devices, false);
      present := present[entryType := id];
    }

    /** `immunization`. */
    method Immunization(time: int, entryType: string) returns (id: EntryId)
      requires Valid()
      modifies this
      ensures (State(), id) == ImmunizationAt(old(State()), time, entryType)
      ensures Valid()
    {
      id := AttachToCurrent(time, NewEntry(time, entryType, RecordSpec.Immunization(-1)), Immunizations, true);
    }

    /** `imagingStudy`: `uid` stands for `Utilities.randomDicomUid`. */
    method ImagingStudy(time: int, entryType: string, series: seq<Series>, uid: (int, int) -> string) returns (id: EntryId)
      requires Valid()
      modifies this
      ensures (State(), id) == ImagingStudyAt(old(State()), time, entryType, series, uid)
      ensures Valid()
    {
      var numbered := AssignDicomUids(series, uid);
      id := AttachToCurrent(time, NewEntry(time, entryType, RecordSpec.ImagingStudy(uid(0, 0), numbered)), ImagingStudies, false);
    }

    /** `observation`. */
    method Observation(time: int, entryType: string, value: Option<ObsValue>) returns (id: EntryId)
      requires Valid()
      modifies this
      ensures (State(), id) == ObservationAt(old(State()), time, entryType, value)
      ensures Valid()
    {
      var enc := CurrentEncounter(time);
      id := Add(enc, Entry(None, time, 0, entryType, [], None, RecordSpec.Observation(value, [], None)), Observations, false);
    }

    /** `encounterStart`. */
    method EncounterStart(time: int, entryType: EncounterType) returns (id: EntryId)
      requires Valid()
      modifies this
      ensures (State(), id) == RecordSpec.EncounterStart(old(State()), time, entryType)
      ensures Valid()
    {
      var encounter := NewEncounter(time, entryType.ToString());
      id := nextId;
      nextId := nextId + 1;
      entries := entries[id := encounter];
      encounters := encounters + [id];
    }

    /** `Entry.getCost`: `cost` stands for the cost engine. */
    method GetCost(id: EntryId, cost: Entry -> real) returns (c: int)
      requires Valid() && id in entries
      modifies this
      ensures (State(), c) == RecordSpec.GetCost(old(State()), id, cost)
      ensures Valid()
    {
      if entries[id].cost.None? {
        entries := entries[id := entries[id].(cost := Some(TruncateCents(cost(entries[id]))))];
      }
      c := entries[id].cost.value;
    }

    /** `multiObservation`: with at least `n` observations on the current
        encounter, the last `n` are popped one by one into the new observation;
        the new observation is then added to the encounter. */
    method MultiObservation(time: int, entryType: string, n: int) returns (id: EntryId)
      requires Valid()
      modifies this
      ensures (State(), id) == RecordSpec.MultiObservation(old(State()), time, entryType, n)
      ensures Valid()
    {
      var enc := CurrentEncounter(time);
      ghost var r1 := State();
      var list, children := PopObservations(Get(entries[enc].detail.lists, Observations), n);
      id := AddParent(enc, Entry(None, time, 0, entryType, [], None, RecordSpec.Observation(None, children, None)), list);
      ghost var obs := Get(r1.entries[enc].detail.lists, Observations);
      ghost var cut := |obs| - Moved(|obs|, n);
      assert id == r1.nextId;
      assert children == Reversed(obs[cut..]);
      assert list == obs[..cut];
      assert State().entries == r1.entries[id := Entry(None, time, 0, entryType, [], None, RecordSpec.Observation(None, Reversed(obs[cut..]), None))][enc := SetList(r1.entries[enc], Observations, obs[..cut] + [id], r1.entries[enc].detail.claim)];
      assert State() == r1.(entries := State().entries, nextId := id + 1);
      MoveObservationsState(r1, enc, time, entryType, n);
      assert (State(), id) == MoveObservations(r1, enc, time, entryType, n);
    }

    /** `encounterEnd`: the newest open encounter whose type parses to
        `entryType` ends; `cost` stands for the cost engine. */
    method EncounterEnd(time: int, entryType: EncounterType, cost: Entry -> real)
      requires Valid()
      modifies this
      ensures State() == RecordSpec.EncounterEnd(old(State()), time, entryType, cost)
      ensures Valid()
    {
      var found := FindOpenEncounter(entryType);
      if found.Some? {
        assert IsEncounter(entries, encounters[found.value]);
        EndOpenEncounter(encounters[found.value], time, cost);
      }
    }

    /** The backward scan of `encounterEnd`: the index of the newest encounter
        that is not ended and whose type parses to `entryType`. */
    method FindOpenEncounter(entryType: EncounterType) returns (found: Option<nat>)
      requires Valid()
      ensures found == LastOpen(State(), entryType, |encounters|)
    {
      var i := |encounters|;
      while i > 0
        invariant 0 <= i <= |encounters|
        invariant LastOpen(State(), entryType, |encounters|) == LastOpen(State(), entryType, i)
      {
        i := i - 1;
        var encounter := entries[encounters[i]];
        var encounterType := FromString(Some(encounter.entryType));
        if encounterType == Ok(entryType) && !encounter.detail.ended {
          return Some(i);
        }
      }
      return None;
    }

    /** What `encounterEnd` does to the encounter `id` it found: it ends, its stop becomes the later of its stop and `time`, then grows
        by each procedure's positive duration; its cost is determined and its
        claim's costs assigned. */
    method EndOpenEncounter(id: EntryId, time: int, cost: Entry -> real)
      requires Valid() && IsEncounter(entries, id)
      modifies this
      ensures State() == EndEncounter(old(State()), id, time, cost)
      ensures Valid()
    {
      var encounter := entries[id];
      assert RefsOk(entries, encounter);
      var stop := encounter.stop;
      if time > stop {
        stop := time;
      }
      var procedures := Get(encounter.detail.lists, Procedures);
      var j := 0;
      while j < |procedures|
        invariant 0 <= j <= |procedures|
        invariant stop == (if time > encounter.stop then time else encounter.stop) + ProcedureTime(entries, procedures[..j])
      {
        var p := entries[procedures[j]];
        var procedureTime := p.stop - p.start;
        if procedureTime > 0 {
          stop := stop + procedureTime;
        }
        assert procedures[..j + 1][..j] == procedures[..j];
        j := j + 1;
      }
      assert procedures[..j] == procedures;
      var ended := encounter.(stop := stop, detail := Encounter(encounter.detail.lists, encounter.detail.claim, true));
      entries := entries[id := ended.(cost := Some(TruncateCents(cost(ended))), detail := CostsAssigned(ended.detail))];
    }

    /** `timeSinceLastWellnessEncounter`: the time since the start of the newest
        encounter of type "wellness", or Long.MAX_VALUE when there is none. */
    method TimeSinceLastWellnessEncounter(time: int) returns (t: int)
      requires Valid()
      ensures t == TimeSinceLastWellness(State(), time)
    {
      var i := |encounters|;
      while i > 0
        invariant 0 <= i <= |encounters|
        invariant LastWellness(State(), |encounters|) == LastWellness(State(), i)
      {
        i := i - 1;
        var encounter := entries[encounters[i]];
        if encounter.entryType == Wellness.ToString() {
          return time - encounter.start;
        }
      }
      return LONG_MAX;
    }

    /** `getLatestObservation`: `findObservation` on each encounter from the
        newest, until one has an observation of the type. */
    method GetLatestObservation(entryType: string) returns (o: Option<EntryId>)
      requires Valid()
      ensures o == LatestObservation(State(), entryType, |encounters|)
    {
      ghost var st := State();
      var i := |encounters|;
      while i > 0
        invariant 0 <= i <= |st.encounters|
        invariant LatestObservation(st, entryType, |st.encounters|) == LatestObservation(st, entryType, i)
      {
        i := i - 1;
        assert IsEncounter(st.entries, st.encounters[i]);
        var obs := FindObservation(State(), encounters[i], entryType);
        if obs.Some? {
          return obs;
        }
      }
      return None;
    }

    /** `report`: the last `n` observations of the current encounter (all of
        them when there are not more) go into a new report on the encounter, and
        each links back to it. A negative `n` makes `subList` throw: its
        `fromIndex`, computed in 32-bit arithmetic, is either past `toIndex` or,
        once it wraps around, negative. */
    method Report(time: int, entryType: string, n: int) returns (r: Result<EntryId>)
      requires Valid() && -INT_MAX - 1 <= n <= INT_MAX
      modifies this
      ensures (State(), r) == ReportAt(old(State()), time, entryType, n)
      ensures Valid()
    {
      var enc := CurrentEncounter(time);
      ghost var r1 := State();
      var all := Get(entries[enc].detail.lists, Observations);
      var observations: seq<EntryId>;
      if |all| > n {
        var fromIndex := |all| - n;
        if fromIndex > |all| {
          // a 32-bit `fromIndex` past INT_MAX has wrapped around to a negative index
          return Err(if fromIndex > INT_MAX then IndexOutOfBoundsException else IllegalArgumentException);
        }
        observations := all[fromIndex..];
      } else {
        observations := all;
      }
      assert observations == Captured(r1, enc, n);
      var report := Add(enc, NewEntry(time, entryType, RecordSpec.Report(observations)), Reports, false);
      ghost var added := State();
      LinkObservations(observations, report);
      assert State() == added.(entries := LinkReport(added.entries, observations, report));
      CaptureReportState(r1, enc, time, entryType, n);
      assert (State(), report) == CaptureReport(r1, enc, time, entryType, n);
      r := Ok(report);
    }

    /** `observations.forEach(o -> o.report = report)`. */
    method LinkObservations(observations: seq<EntryId>, report: EntryId)
      requires forall k :: 0 <= k < |observations| ==> observations[k] in entries && entries[observations[k]].detail.Observation?
      modifies this
      ensures State() == old(State()).(entries := LinkReport(old(entries), observations, report))
    {
      var i := 0;
      while i < |observations|
        invariant 0 <= i <= |observations|
        invariant entries == LinkReport(old(entries), observations[..i], report)
        invariant encounters == old(encounters) && present == old(present)
        invariant chronicMedications == old(chronicMedications) && nextId == old(nextId)
      {
        var o := observations[i];
        entries := entries[o := entries[o].(detail := LinkedTo(entries[o].detail, report))];
        assert observations[..i + 1][..i] == observations[..i];
        i := i + 1;
      }
      assert observations[..i] == observations;
    }

    /** The end of `multiObservation`: the new observation `parent` is filed and
        the encounter's observations become `list` followed by it. */
    method AddParent(enc: EntryId, parent: Entry, list: seq<EntryId>) returns (id: EntryId)
      requires enc in entries && enc < nextId && entries[enc].detail.Encounter?
      modifies this
      ensures id == old(nextId)
      ensures State() == old(State()).(entries := old(entries)[id := parent][enc := SetList(old(entries)[enc], Observations, list + [id], old(entries)[enc].detail.claim)],
                                        nextId := id + 1)
    {
      id := nextId;
      nextId := nextId + 1;
      entries := entries[id := parent];
      entries := entries[enc := SetList(entries[enc], Observations, list + [id], entries[enc].detail.claim)];
    }
  }

  /** The `while (count > 0)` loop of `multiObservation`: when the list has at
      least `n` observations, `n` times the last one is removed and appended to
      the children; otherwise nothing moves. */
  method PopObservations(list: seq<EntryId>, n: int) returns (rest: seq<EntryId>, children: seq<EntryId>)
    ensures rest == list[..|list| - Moved(|list|, n)]
    ensures children == Reversed(list[|list| - Moved(|list|, n)..])
  {
    rest := list;
    children := [];
    var count := n;
    if |rest| >= n {
      while count > 0
        invariant 0 <= n - count <= (if n > 0 then n else 0) <= |list|
        invariant rest == list[..|list| - (n - count)]
        invariant children == Reversed(list[|list| - (n - count)..])
      {
        ghost var cut := |list| - (n - count);
        children := children + [rest[|rest| - 1]];
        rest := rest[..|rest| - 1];
        count := count - 1;
        assert list[cut - 1..][1..] == list[cut..];
      }
    }
  }
}
