/** What the health record operations promise across calls: starting is
    idempotent while a code is present, ending is a no-op once it is not, only
    the named entries change, and the encounter bookkeeping. */
module RecordLemmas {
  import opened Util
  import opened Concepts
  import opened RecordSpec

  /** Starting a condition or an allergy whose code is present changes nothing
      and returns the present entry, its start time untouched. */
  lemma StartWhenPresent(r: Rec, time: int, code: string)
    requires r.Valid() && code in r.present
    ensures ConditionStart(r, time, code) == (r, r.present[code])
    ensures AllergyStart(r, time, code) == (r, r.present[code])
  {
  }

  /** Starting a present medication or care plan returns the present entry and
      adds no entry and no list item; a medication start can only (re)record the
      chronic map. */
  lemma StartTypedWhenPresent(r: Rec, time: int, code: string, chronic: bool)
    requires r.Valid() && code in r.present
    ensures var (r', m) := MedicationStart(r, time, code, chronic);
            && r'.entries == r.entries && r'.encounters == r.encounters && r'.present == r.present
            && (m.Ok? ==> m.value == r.present[code])
    ensures var (r', c) := CarePlanStart(r, time, code);
            && r' == r && (c.Ok? ==> c.value == r.present[code])
  {
  }

  /** A condition started for an absent code is active until it is ended, and
      ending it twice is ending it once. */
  lemma ConditionLifecycle(r: Rec, time: int, code: string, later: int, again: int)
    requires r.Valid() && code !in r.present
    ensures var (r1, id) := ConditionStart(r, time, code);
            && id !in r.entries && r1.entries[id].start == time
            && ConditionActive(r1, code)
            && !ConditionActive(EndEntry(r1, later, code), code)
            && EndEntry(EndEntry(r1, later, code), again, code) == EndEntry(r1, later, code)
            && EndEntry(r1, later, code).entries[id].stop == later
  {
  }

  /** Ending a code stops its present entry and removes that key alone; every
      other present key and every other entry is left as it was. */
  lemma EndEntryFrame(r: Rec, time: int, code: string)
    requires r.Valid()
    ensures var r' := EndEntry(r, time, code);
            && r'.encounters == r.encounters && r'.chronicMedications == r.chronicMedications
            && r'.present == r.present - {code}
            && (code in r.present ==> r'.entries == r.entries[r.present[code] := r.entries[r.present[code]].(stop := time)])
            && (code !in r.present ==> r' == r)
  {
  }

  /** A new procedure is present under its type with a stop 15 minutes after its
      start, so its code reads as not active (unless the stop lands on 0). */
  lemma ProcedureNotActive(r: Rec, time: int, code: string)
    requires r.Valid()
    ensures var (r', id) := ProcedureAt(r, time, code);
            && r'.present == r.present[code := id]
            && (ConditionActive(r', code) <==> time == -900_000)
  {
  }

  /** A medication started for an absent code is a new, active Medication
      starting at `time`, and is chronic exactly when started so (or already
      recorded as such). */
  lemma MedicationStartFresh(r: Rec, time: int, code: string, chronic: bool)
    requires r.Valid() && code !in r.present
    ensures var (r1, m) := MedicationStart(r, time, code, chronic);
            && m.Ok? && m.value !in r.entries && r1.entries[m.value].start == time
            && MedicationActive(r1, code) == Ok(true)
            && (code in r1.chronicMedications <==> chronic || code in r.chronicMedications)
  {
  }

  /** `medicationEnd` on a present Medication stops it with the reason and
      leaves it neither active, chronic nor present. */
  lemma MedicationEndEffect(r: Rec, time: int, code: string, reason: Option<Code>, cost: Entry -> real)
    requires r.Valid() && code in r.present && r.entries[r.present[code]].detail.Medication?
    ensures var (r', e) := MedicationEnd(r, time, code, reason, cost);
            var id := r.present[code];
            && e == Ok(()) && MedicationActive(r', code) == Ok(false)
            && code !in r'.chronicMedications && code !in r'.present
            && r'.entries[id].stop == time && r'.entries[id].detail.stopReason == reason
            && r'.entries[id].detail.claim.costAssignments == r.entries[id].detail.claim.costAssignments + 1
            && r'.present == r.present - {code} && r'.encounters == r.encounters
            && r'.entries.Keys == r.entries.Keys
            && (forall x :: x in r.entries && x != id ==> r'.entries[x] == r.entries[x])
  {
  }

  /** `medicationEndByState` on a chosen Medication stops it with the reason and
      leaves it neither active, chronic nor present; unlike `medicationEnd` its
      cost and claim are untouched, and no other entry changes. */
  lemma MedicationEndByStateEffect(r: Rec, time: int, code: string, reason: Option<Code>)
    requires r.Valid() && code in r.present && r.entries[r.present[code]].detail.Medication?
    ensures var (r', e) := MedicationEndByState(r, time, Some(code), reason);
            var id := r.present[code];
            && e == Ok(()) && MedicationActive(r', code) == Ok(false)
            && r'.entries == r.entries[id := r.entries[id].(stop := time, detail := r.entries[id].detail.(stopReason := reason))]
            && r'.present == r.present - {code} && r'.chronicMedications == r.chronicMedications - {code}
            && r'.encounters == r.encounters && r'.nextId == r.nextId
  {
  }

  /** A care plan started for an absent code is a new, active CarePlan. */
  lemma CarePlanStartFresh(r: Rec, time: int, code: string)
    requires r.Valid() && code !in r.present
    ensures var (r1, c) := CarePlanStart(r, time, code);
            && c.Ok? && c.value !in r.entries && r1.entries[c.value].start == time
            && CarePlanActive(r1, code) == Ok(true)
  {
  }

  /** `careplanEnd` on a present CarePlan stops it with the reason. */
  lemma CarePlanEndEffect(r: Rec, time: int, code: string, reason: Option<Code>)
    requires r.Valid() && code in r.present && r.entries[r.present[code]].detail.CarePlan?
    ensures var (r', e) := CarePlanEnd(r, time, code, reason);
            var id := r.present[code];
            && e == Ok(()) && CarePlanActive(r', code) == Ok(false) && code !in r'.present
            && r'.entries[id].stop == time && r'.entries[id].detail.stopReason == reason
            && r'.present == r.present - {code} && r'.encounters == r.encounters
            && r'.chronicMedications == r.chronicMedications
            && r'.entries == r.entries[id := r.entries[id].(stop := time, detail := CarePlan(reason))]
  {
  }

  /** Ending a code that is not present changes nothing and succeeds, and the
      code reads as not active. */
  lemma EndWhenAbsent(r: Rec, time: int, code: string, reason: Option<Code>, cost: Entry -> real)
    requires r.Valid() && code !in r.present
    ensures EndEntry(r, time, code) == r
    ensures MedicationEnd(r, time, code, reason, cost) == (r, Ok(()))
    ensures CarePlanEnd(r, time, code, reason) == (r, Ok(()))
    ensures !ConditionActive(r, code) && MedicationActive(r, code) == Ok(false) && CarePlanActive(r, code) == Ok(false)
  {
  }

  /** The by-state variants end the chosen entry as the by-code ones do; the
      medication one does so without determining a cost. */
  lemma ByStateMatchesByCode(r: Rec, time: int, code: string, reason: Option<Code>)
    requires r.Valid() && code in r.present
    ensures EndByState(r, time, Some(code)) == EndEntry(r, time, code)
    ensures CarePlanEndByState(r, time, Some(code), reason) == CarePlanEnd(r, time, code, reason)
    ensures var (r', e) := MedicationEndByState(r, time, Some(code), reason);
            e.Ok? ==> r'.entries[r.present[code]].cost == r.entries[r.present[code]].cost
                      && code !in r'.present && code !in r'.chronicMedications
  {
  }

  /** Naming a present entry makes it one the `*EndByState` scan may choose for
      that name, and ending it by state is then ending its code. */
  lemma NamedEntryChosen(r: Rec, time: int, code: string, name: string)
    requires r.Valid() && code in r.present
    ensures var r' := NameEntry(r, r.present[code], name);
            && ByStateChoice(r', name, Some(code))
            && EndByState(r', time, Some(code)) == EndEntry(r', time, code)
  {
    var r' := NameEntry(r, r.present[code], name);
    EndByStateIsEnd(r', time, code);
  }

  /** With no open encounter of the type, `encounterEnd` changes nothing. */
  lemma EncounterEndNoOp(r: Rec, time: int, t: EncounterType, cost: Entry -> real)
    requires r.Valid() && LastOpen(r, t, |r.encounters|).None?
    ensures EncounterEnd(r, time, t, cost) == r
  {
  }

  /** `encounterEnd` ends the newest open encounter of the type and no other
      entry; its stop never moves earlier and reaches at least `time`. */
  lemma EncounterEndEffect(r: Rec, time: int, t: EncounterType, cost: Entry -> real)
    requires r.Valid() && LastOpen(r, t, |r.encounters|).Some?
    ensures var id := r.encounters[LastOpen(r, t, |r.encounters|).value];
            && IsEncounter(r.entries, id)
            && EncounterEnd(r, time, t, cost) == EndEncounter(r, id, time, cost)
  {
    assert IsEncounter(r.entries, r.encounters[LastOpen(r, t, |r.encounters|).value]);
  }

  /** Ending encounter `id` changes that entry alone, as `EndedEncounter` says. */
  lemma EndEncounterFrame(r: Rec, id: EntryId, time: int, cost: Entry -> real)
    requires r.Valid() && IsEncounter(r.entries, id)
    ensures var r' := EndEncounter(r, id, time, cost);
            && r'.encounters == r.encounters && r'.present == r.present
            && r'.entries.Keys == r.entries.Keys
            && (forall x :: x in r.entries && x != id ==> r'.entries[x] == r.entries[x])
            && r'.entries[id].detail.ended
            && r'.entries[id].stop >= r.entries[id].stop && r'.entries[id].stop >= time
  {
  }

  /** An ended encounter stays as it is when its type is ended again and no
      other encounter of that type is open. */
  lemma EncounterEndOnce(r: Rec, time: int, later: int, t: EncounterType, cost: Entry -> real)
    requires r.Valid() && LastOpen(r, t, |r.encounters|).Some?
    requires forall j :: 0 <= j < |r.encounters| && OpenOfType(r, j, t) ==> j == LastOpen(r, t, |r.encounters|).value
    ensures var r' := EncounterEnd(r, time, t, cost);
            EncounterEnd(r', later, t, cost) == r'
  {
    var i := LastOpen(r, t, |r.encounters|).value;
    var r' := EncounterEnd(r, time, t, cost);
    EncounterEndEffect(r, time, t, cost);
    EndEncounterFrame(r, r.encounters[i], time, cost);
    forall j | 0 <= j < |r'.encounters| ensures !OpenOfType(r', j, t) {
      if r'.encounters[j] != r.encounters[i] {
        assert r'.entries[r'.encounters[j]] == r.entries[r.encounters[j]];
        assert !OpenOfType(r, j, t);
      }
    }
    EncounterEndNoOp(r', later, t, cost);
  }

  /** Every encounter of a valid record has a type that `EncounterType.fromString`
      parses back to a constant printing as that type, whose act code is IMP for
      inpatient, EMER for emergency and AMB for every other encounter. */
  lemma {:induction false} EncounterTypesParse(r: Rec, i: int)
    requires r.Valid() && 0 <= i < |r.encounters|
    ensures var name := r.entries[r.encounters[i]].entryType;
            var t := FromString(Some(name));
            && t.Ok? && t.value.ToString() == name
            && (t.value.ActCode() == "IMP" <==> name == "inpatient")
            && (t.value.ActCode() == "EMER" <==> name == "emergency")
            && (t.value.ActCode() == "AMB" <==> name != "inpatient" && name != "emergency")
  {
    assert IsEncounter(r.entries, r.encounters[i]);
    var name := r.entries[r.encounters[i]].entryType;
    var t :=
      if name == "wellness" then Wellness
      else if name == "ambulatory" then Ambulatory
      else if name == "outpatient" then Outpatient
      else if name == "inpatient" then Inpatient
      else if name == "emergency" then Emergency
      else UrgentCare;
    assert t.ToString() == name;
    FromStringToString(t);
  }

  /** An emergency encounter started at 0 with a procedure at 0 and ended at 10
      lasts its one-hour floor plus the procedure's quarter hour. */
  lemma EmergencyWithProcedure(cost: Entry -> real)
    ensures var (r1, enc) := EncounterStart(EmptyRecord(), 0, Emergency);
            var (r2, _) := ProcedureAt(r1, 0, "procedure");
            EncounterEnd(r2, 10, Emergency, cost).entries[enc].stop == 4_500_000
  {
    var (r1, enc) := EncounterStart(EmptyRecord(), 0, Emergency);
    NewEncounterStop(Emergency, 0, Emergency.ToString());
    FromStringToString(Emergency);
    var (r2, p) := ProcedureAt(r1, 0, "procedure");
    assert r2.encounters == [enc];
    assert OpenOfType(r2, 0, Emergency);
    EncounterEndEffect(r2, 10, Emergency, cost);
    var procedures := Get(r2.entries[enc].detail.lists, Procedures);
    assert procedures == [p];
    assert ProcedureTime(r2.entries, procedures) == 900_000 by {
      assert procedures[..0] == [];
    }
  }

  /** After a wellness encounter starts at `t`, the time since the last one is
      measured from `t`; with none, it is the largest long. */
  lemma WellnessSince(r: Rec, t: int, now: int)
    requires r.Valid()
    ensures TimeSinceLastWellness(EncounterStart(r, t, Wellness).0, now) == now - t
    ensures EmptyRecord().Valid() && TimeSinceLastWellness(EmptyRecord(), now) == LONG_MAX
  {
    var (r', id) := EncounterStart(r, t, Wellness);
    assert r'.encounters[|r'.encounters| - 1] == id;
  }

  /** The encounter started after others has the one before it as its previous
      encounter. */
  lemma PreviousOfStarted(r: Rec, t: int, et: EncounterType)
    requires r.Valid() && |r.encounters| >= 1
    ensures var (r', id) := EncounterStart(r, t, et);
            PreviousEncounter(r', id) == Ok(Some(r.encounters[|r.encounters| - 1]))
  {
    var (r', id) := EncounterStart(r, t, et);
    assert id !in r.encounters by {
      forall i | 0 <= i < |r.encounters| ensures r.encounters[i] != id {
        assert IsEncounter(r.entries, r.encounters[i]);
      }
    }
    var i := IndexOf(r'.encounters, id);
    assert r'.encounters[|r.encounters|] == id;
    assert i == |r.encounters|;
  }

  /** The cost is determined once: asking again, with any cost engine, returns
      the same value and changes nothing. */
  lemma GetCostMemoised(r: Rec, id: EntryId, cost: Entry -> real, cost': Entry -> real)
    requires r.Valid() && id in r.entries
    ensures var (r1, c) := GetCost(r, id, cost);
            GetCost(r1, id, cost') == (r1, c)
  {
  }

  /** A report over `n >= 0` holds the last `n` observations of the encounter
      (all of them when there are not more), and each of them links back to it. */
  lemma CaptureReportLinks(r: Rec, enc: EntryId, time: int, entryType: string, n: nat)
    requires r.Valid() && IsEncounter(r.entries, enc)
    ensures var obs := Get(r.entries[enc].detail.lists, Observations);
            var (r', id) := CaptureReport(r, enc, time, entryType, n);
            && r'.entries[id].detail == Report(Captured(r, enc, n))
            && |Captured(r, enc, n)| == (if |obs| > n then n else |obs|)
            && (forall x :: x in Captured(r, enc, n) ==> x in r'.entries && r'.entries[x].detail.report == Some(id))
  {
  }

  /** The report is appended to the encounter's reports; its observations stay
      listed on the encounter. */
  lemma CaptureReportLists(r: Rec, enc: EntryId, time: int, entryType: string, n: nat)
    requires r.Valid() && IsEncounter(r.entries, enc)
    ensures var (r', id) := CaptureReport(r, enc, time, entryType, n);
            && Get(r'.entries[enc].detail.lists, Reports) == Get(r.entries[enc].detail.lists, Reports) + [id]
            && Get(r'.entries[enc].detail.lists, Observations) == Get(r.entries[enc].detail.lists, Observations)
  {
  }

  /** `report` with a count `n >= 0` captures on the current encounter and
      succeeds. */
  lemma ReportCaptures(r: Rec, time: int, entryType: string, n: int)
    requires r.Valid() && 0 <= n <= INT_MAX
    ensures var (r1, enc) := WithCurrent(r, time);
            ReportAt(r, time, entryType, n) == (CaptureReport(r1, enc, time, entryType, n).0, Ok(CaptureReport(r1, enc, time, entryType, n).1))
  {
  }

  /** An observation added to an encounter with none of its type before is the
      one `findObservation` finds there. */
  lemma ObservationFound(r: Rec, enc: EntryId, time: int, entryType: string, value: Option<ObsValue>, display: Option<string>)
    requires r.Valid() && IsEncounter(r.entries, enc)
    requires FindObservation(r, enc, entryType).None?
    ensures var (r', id) := AddObservation(r, enc, time, entryType, value, display);
            FindObservation(r', enc, entryType) == Some(id)
  {
    var (r', id) := AddObservation(r, enc, time, entryType, value, display);
    var before := Get(r.entries[enc].detail.lists, Observations);
    var after := Get(r'.entries[enc].detail.lists, Observations);
    assert RefsOk(r.entries, r.entries[enc]);
    assert forall k :: 0 <= k < |before| ==> before[k] != id && before[k] in r.entries;
    assert forall k :: 0 <= k < |before| ==> r'.entries[before[k]].entryType == r.entries[before[k]].entryType by {
      forall k | 0 <= k < |before| ensures r'.entries[before[k]].entryType == r.entries[before[k]].entryType {
        if before[k] == enc {
          assert false;
        }
      }
    }
    FirstOfTypeAppend(r'.entries, before, id, entryType);
  }

  lemma {:induction false} FirstOfTypeAppend(m: map<EntryId, Entry>, obs: seq<EntryId>, id: EntryId, code: string)
    requires forall k :: 0 <= k < |obs| ==> obs[k] in m && m[obs[k]].entryType != code
    requires id in m && m[id].entryType == code
    ensures FirstOfType(m, obs + [id], code) == Some(id)
  {
    if obs != [] {
      assert (obs + [id])[1..] == obs[1..] + [id];
      FirstOfTypeAppend(m, obs[1..], id, code);
    }
  }
}
