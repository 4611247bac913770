# Synthea health record, ValueSet resolver and terminology cache in Dafny

This project models three parts of Synthea, the synthetic patient generator.

- **The per-person `HealthRecord`.** It holds an append-only list of
  encounters and a `present` map from a code to the entry that is active for
  it. Entries (conditions, allergies, medications, care plans, procedures,
  devices, immunizations, imaging studies, observations and reports) are
  filed on the current encounter. The record's start/end mutators, its
  queries, the `Code`/`ValueSet`/`EncounterType` value types, the device UDI
  and the DICOM UID numbering are all modelled.
- **`ValueSetResolver`.** It extracts the OID embedded in a string (the
  leftmost, greedy match of `([0-9]+\.)+[0-9]+`) and looks a FHIR ValueSet up
  by the OID of its first identifier.
- **`Terminology`.** This is the process-wide cache of resolved ValueSets and
  of the codes each one lists, plus the random draw of a code from it.

Files and modules:

| file | module | contents |
|---|---|---|
| util.dfy | `Util` | `Option`, `Result` carrying the Java exception, and ASCII case functions |
| concepts.dfy | `Concepts` | `Code`, `ValueSet`, `EncounterType` and `String.compareTo` |
| device_udi.dfy | `DeviceUdi` | `trimLong`, the UDI template with a parser that inverts it, and `generateUDI` |
| imaging.dfy | `Imaging` | image series and `assignImagingStudyDicomUids` |
| resolver.dfy | `ValueSetResolver` | `matchOid` and `getValueSet` |
| terminology.dfy | `Terminologies` | class `Terminology` with its two caches, and the flattening of include blocks |
| record_spec.dfy | `RecordSpec` | the record as a value (`Rec`) and each record operation as a function of it |
| record_lemmas.dfy | `RecordLemmas` | properties that relate several record operations |
| health_record.dfy | `Records` | class `HealthRecord` |

How the record is represented:

- An entry can be listed by an encounter and also be `present`, and its
  `stop` is changed later through either reference. So every entry lives in
  an entry table `map<EntryId, Entry>`.
- `present`, the encounter list and each encounter's lists hold ids into that
  table.
- The class `Records.HealthRecord` keeps these as fields and updates them in
  place. Each of its methods is proved to produce the state that the
  matching `RecordSpec` function computes from the old state. Each method
  also keeps the invariant `Rec.Valid`:
  - every id refers to an entry;
  - encounter lists hold entries of their list's class;
  - encounters have one of the six encounter type names;
  - each present entry is filed under its own type.

Two behaviours of the code are kept exactly as written:

- `getRandomCode` on a url that was never loaded fails with a null
  dereference; there is no separate "not loaded" error.
- `multiObservation` nests the popped observations newest first.

## Model

| member | source | states |
|---|---|---|
| Concepts.CodeCompareConsistent | src/main/java/org/mitre/synthea/world/concepts/HealthRecord.java:73-96 | `compareTo` is 0 exactly when `equals` holds, i.e. when system and code agree |
| Concepts.CodeOrderingIgnoresDisplay | src/main/java/org/mitre/synthea/world/concepts/HealthRecord.java:73-96 | neither `equals` nor `compareTo` depends on the display text |
| Concepts.CodeCompareAntisymmetric | src/main/java/org/mitre/synthea/world/concepts/HealthRecord.java:89-96 | comparing b with a gives the negation of comparing a with b |
| Concepts.CodeCompareTransitive | src/main/java/org/mitre/synthea/world/concepts/HealthRecord.java:89-96 | the system-then-code order is transitive, so it is a strict order on (system, code) |
| Concepts.ValueSetCompareConsistent | src/main/java/org/mitre/synthea/world/concepts/HealthRecord.java:130-147 | ValueSet `compareTo` is 0 exactly when the urls are equal, and it is antisymmetric |
| Concepts.ValueOfName | src/main/java/org/mitre/synthea/world/concepts/HealthRecord.java:448-456 | `valueOf` yields a constant exactly for that constant's name |
| Concepts.FromStringToString | src/main/java/org/mitre/synthea/world/concepts/HealthRecord.java:448-468 | `fromString(t.toString())` gives `t` back for every encounter type |
| Concepts.FromStringIgnoresCase | src/main/java/org/mitre/synthea/world/concepts/HealthRecord.java:448-456 | two strings equal up to letter case parse to the same result, unless one is "super" |
| DeviceUdi.TrimLongDigits | src/main/java/org/mitre/synthea/world/concepts/HealthRecord.java:420-429 | the trimmed value is the leading `min(length, digits)` digits of the magnitude, all decimal digits |
| DeviceUdi.UdiTemplate | src/main/java/org/mitre/synthea/world/concepts/HealthRecord.java:408-412 | the UDI is the five fields behind the identifiers (01), (11), (17), (10), (21), in that order |
| DeviceUdi.ParseUdiRoundTrip | src/main/java/org/mitre/synthea/world/concepts/HealthRecord.java:408-412 | splitting a UDI made of digit fields gives back exactly those fields |
| DeviceUdi.GenerateUdiFields | src/main/java/org/mitre/synthea/world/concepts/HealthRecord.java:401-413 | the device identifier has 1 to 14 digits; manufacture is 3 weeks before the start and expiry 25 years after; the UDI reads back as the device's own fields |
| Imaging.AssignDicomUids | src/main/java/org/mitre/synthea/world/concepts/HealthRecord.java:980-993 | series i gets uid(i+1, 0) and its instance j gets uid(i+1, j+1); nothing else about a series or an instance changes |
| ValueSetResolver.ChainEnd | src/main/java/org/mitre/synthea/helpers/ValueSetResolver.java:35 | the greedy regex stops at the end of a digit group and cannot be extended by another `.digits` group |
| ValueSetResolver.FindFrom | src/main/java/org/mitre/synthea/helpers/ValueSetResolver.java:91-93 | `find()` gives the first start position with a match, and there is none when no position matches |
| ValueSetResolver.MatchOid | src/main/java/org/mitre/synthea/helpers/ValueSetResolver.java:86-98 | null gives null; a non-null result is a string of digits and single dots with a digit at each end and at least one dot |
| ValueSetResolver.MatchOidLeftmostLongest | src/main/java/org/mitre/synthea/helpers/ValueSetResolver.java:91-95 | null exactly when no substring is an OID; otherwise the result is the leftmost and, from there, the longest OID substring |
| ValueSetResolver.LeftmostLongestUnique | src/main/java/org/mitre/synthea/helpers/ValueSetResolver.java:91-95 | the leftmost-longest OID occurrence is unique, so the result is fully determined |
| ValueSetResolver.MatchOidIdempotent | src/main/java/org/mitre/synthea/helpers/ValueSetResolver.java:86-98 | applying `matchOid` to its own result returns that result |
| ValueSetResolver.FirstMatch | src/main/java/org/mitre/synthea/helpers/ValueSetResolver.java:107-114 | the index found is the first, in bundle order, whose identifier's OID is non-null and equals the query's |
| ValueSetResolver.GetValueSet | src/main/java/org/mitre/synthea/helpers/ValueSetResolver.java:105-116 | the result is the first bundle entry whose OID matches the query's; null exactly when no entry matches |
| ValueSetResolver.GetValueSetWithoutOid | src/main/java/org/mitre/synthea/helpers/ValueSetResolver.java:106-115 | a query with no OID in it, null included, finds nothing |
| ValueSetResolver.GetValueSetSameOid | src/main/java/org/mitre/synthea/helpers/ValueSetResolver.java:109-111 | a found ValueSet carries the same OID as the query |
| ValueSetResolver.FixtureLookup | src/test/java/org/mitre/synthea/TestHelper.java:154-156 | a ValueSet stored with identifier `matchOid(url)`, and no earlier entry for that OID, is found by `url` |
| Terminologies.ConceptCodes | src/main/java/org/mitre/synthea/world/concepts/Terminology.java:48-52 | one code per concept reference of an include block |
| Terminologies.FlattenAppend | src/main/java/org/mitre/synthea/world/concepts/Terminology.java:45-53 | the codes are collected block by block: those of `a + b` are those of `a` followed by those of `b` |
| Terminologies.FlattenCodes | src/main/java/org/mitre/synthea/world/concepts/Terminology.java:45-53 | a code is cached exactly when it is (block system, concept code, concept display or "") for some concept of some block |
| Terminologies.SingleIncludeSystem | src/main/java/org/mitre/synthea/world/concepts/Terminology.java:46-51 | with a single include block, every cached code has that block's system and one of its concept codes |
| Terminologies.FirstUnresolved | src/main/java/org/mitre/synthea/world/concepts/Terminology.java:36-40 | every url before the index resolves, and the url at the index, if any, does not |
| Terminologies.LoadedStep | src/main/java/org/mitre/synthea/world/concepts/Terminology.java:41-53 | loading one more url puts its ValueSet and its flattened codes over what the earlier urls left |
| Terminologies.LoadedLookup | src/main/java/org/mitre/synthea/world/concepts/Terminology.java:37-53 | each loaded url maps to the ValueSet the resolver returns and to exactly its codes; loading a url again replaces its codes |
| Terminologies.LoadedFrame | src/main/java/org/mitre/synthea/world/concepts/Terminology.java:36-42 | urls not being loaded keep what both caches held for them |
| Terminologies.Terminology.constructor | src/main/java/org/mitre/synthea/world/concepts/Terminology.java:23-24 | both caches start empty |
| Terminologies.Terminology.LoadValueSets | src/main/java/org/mitre/synthea/world/concepts/Terminology.java:32-62 | succeeds exactly when every url resolves; else fails naming the first url that does not; the caches hold the load of every url before that one |
| Terminologies.Terminology.AddIncludeCodes | src/main/java/org/mitre/synthea/world/concepts/Terminology.java:45-53 | the nested loops append the flattened codes of the include blocks to the url's list and change nothing else |
| Terminologies.Terminology.GetRandomCode | src/main/java/org/mitre/synthea/world/concepts/Terminology.java:69-72 | an unloaded url is a null dereference; an empty list makes `nextInt(0)` throw; otherwise the code at the drawn index, an element of the list |
| Terminologies.RandomCodeOfLoaded | src/main/java/org/mitre/synthea/world/concepts/Terminology.java:69-72 | after a load, any code drawn for a loaded url is a concept of the ValueSet the resolver found for it |
| RecordSpec.ContainsCodeByEquals | src/main/java/org/mitre/synthea/world/concepts/HealthRecord.java:199-201 | `containsCode` holds exactly when some code of the entry `equals` a code with that system and code, whatever the display |
| RecordSpec.NewEncounterStop | src/main/java/org/mitre/synthea/world/concepts/HealthRecord.java:492-505 | a new encounter is not ended and lasts 1 hour (emergency), 1 day (inpatient) or 15 minutes, the type matched case-insensitively |
| RecordSpec.TruncateCents | src/main/java/org/mitre/synthea/world/concepts/HealthRecord.java:178-181 | the cost in cents is rounded toward zero: within one cent below (or above, for a negative cost) the exact value |
| RecordSpec.EmptyRecord | src/main/java/org/mitre/synthea/world/concepts/HealthRecord.java:587-590 | a new record satisfies the record invariant |
| RecordSpec.WithCurrent | src/main/java/org/mitre/synthea/world/concepts/HealthRecord.java:628-639 | returns the last encounter; only when there is none is a "First Wellness" wellness encounter starting at `time` appended first; afterwards the list is non-empty |
| RecordSpec.ConditionStart | src/main/java/org/mitre/synthea/world/concepts/HealthRecord.java:681-690 | the returned entry is the one present under the code and the record stays valid; for an absent code, the new entry starts at `time`, is appended to the current encounter's condition list and to the line items of its claim, and becomes present; no other entry changes |
| RecordSpec.AllergyStart | src/main/java/org/mitre/synthea/world/concepts/HealthRecord.java:719-726 | the returned entry is the one present under the code and the record stays valid; for an absent code, the new entry starts at `time`, is appended to the current encounter's allergy list (not billed), and becomes present; no other entry changes |
| RecordSpec.EndEntry | src/main/java/org/mitre/synthea/world/concepts/HealthRecord.java:692-697 | ending keeps the record valid (what it changes is in `RecordLemmas.EndEntryFrame`) |
| RecordSpec.EndByState | src/main/java/org/mitre/synthea/world/concepts/HealthRecord.java:699-713 | ending the chosen entry by state keeps the record valid |
| RecordSpec.EndByStateIsEnd | src/main/java/org/mitre/synthea/world/concepts/HealthRecord.java:699-713 | ending by state the entry present under `code` is ending `code` |
| RecordSpec.MedicationStart | src/main/java/org/mitre/synthea/world/concepts/HealthRecord.java:857-874 | fails with ClassCastException, changing nothing, exactly when a non-Medication is present under the type; otherwise returns the Medication present under it; for an absent type, a new Medication starting at `time` is appended to the current encounter's medication list (not billed) and becomes present |
| RecordSpec.MedicationEnd | src/main/java/org/mitre/synthea/world/concepts/HealthRecord.java:876-889 | fails with ClassCastException, changing nothing, exactly when a non-Medication is present under the type |
| RecordSpec.MedicationEndByState | src/main/java/org/mitre/synthea/world/concepts/HealthRecord.java:891-907 | fails with ClassCastException, changing nothing, exactly when the chosen entry is not a Medication; the effect of a success is stated by `RecordLemmas.MedicationEndByStateEffect` |
| RecordSpec.MedicationActive | src/main/java/org/mitre/synthea/world/concepts/HealthRecord.java:920-922 | the cast fails exactly for a present non-Medication; otherwise it agrees with `conditionActive` |
| RecordSpec.CarePlanStart | src/main/java/org/mitre/synthea/world/concepts/HealthRecord.java:924-934 | fails with ClassCastException, changing nothing, exactly when a non-CarePlan is present under the type; otherwise returns the CarePlan present under it; for an absent type, a new CarePlan starting at `time` is appended to the current encounter's care plan list (not billed) and becomes present |
| RecordSpec.CarePlanEnd | src/main/java/org/mitre/synthea/world/concepts/HealthRecord.java:936-943 | fails with ClassCastException, changing nothing, exactly when a non-CarePlan is present under the type |
| RecordSpec.CarePlanStop | src/main/java/org/mitre/synthea/world/concepts/HealthRecord.java:937-942 | the cast fails exactly when the present entry is not a CarePlan, and then nothing changes |
| RecordSpec.CarePlanEndByState | src/main/java/org/mitre/synthea/world/concepts/HealthRecord.java:945-960 | fails exactly when the chosen entry is not a CarePlan |
| RecordSpec.CarePlanActive | src/main/java/org/mitre/synthea/world/concepts/HealthRecord.java:962-964 | the cast fails exactly for a present non-CarePlan; otherwise it agrees with `conditionActive` |
| RecordSpec.ProcedureAt | src/main/java/org/mitre/synthea/world/concepts/HealthRecord.java:751-758 | always a new entry, present under its type, starting at `time` and stopping 15 minutes later, appended to the current encounter's procedure list and to the line items of its claim; no other entry changes |
| RecordSpec.DeviceImplant | src/main/java/org/mitre/synthea/world/concepts/HealthRecord.java:766-773 | always a new Device carrying the generated UDI, present under its type, appended to the current encounter's device list (not billed); no other entry changes |
| RecordSpec.ImmunizationAt | src/main/java/org/mitre/synthea/world/concepts/HealthRecord.java:849-855 | a new Immunization with series -1 starting at `time`, appended to the current encounter's immunization list and to the line items of its claim; `present` is unchanged |
| RecordSpec.ImagingStudyAt | src/main/java/org/mitre/synthea/world/concepts/HealthRecord.java:966-972 | a new study whose UID is uid(0, 0) and whose series are numbered, appended to the current encounter's imaging study list (not billed); `present` is unchanged |
| RecordSpec.AddToSlot | src/main/java/org/mitre/synthea/world/concepts/HealthRecord.java:685-686 | the encounter's list `s` gains the id at its end, its other lists are unchanged, and its claim's line items gain the id exactly when billed |
| RecordSpec.Attach | src/main/java/org/mitre/synthea/world/concepts/HealthRecord.java:628-639 | the new entry is filed under a fresh id and appended to list `s` of the current encounter (created first when there is none), and to that encounter's claim when billed; every other entry and the encounter list are otherwise unchanged |
| RecordSpec.AddObservation | src/main/java/org/mitre/synthea/world/concepts/HealthRecord.java:528-547 | the new observation is appended to the encounter's list; its first code is (LOINC, type, display) exactly when a non-null display is given |
| RecordSpec.ObservationAt | src/main/java/org/mitre/synthea/world/concepts/HealthRecord.java:651-653 | a new observation; `present` is unchanged |
| RecordSpec.MoveObservations | src/main/java/org/mitre/synthea/world/concepts/HealthRecord.java:655-668 | only the encounter and the new observation change; the new id is the next free one |
| RecordSpec.MoveObservationsShape | src/main/java/org/mitre/synthea/world/concepts/HealthRecord.java:655-668 | the list becomes its first `size - moved` items plus the new observation; the new observation's children are the moved ones, newest first |
| RecordSpec.MultiObservation | src/main/java/org/mitre/synthea/world/concepts/HealthRecord.java:655-668 | a new observation; `present` is unchanged |
| RecordSpec.MoveObservationsCount | src/main/java/org/mitre/synthea/world/concepts/HealthRecord.java:659-666 | with at least n > 0 observations the list length becomes old - n + 1 and child k is the k-th from the end; otherwise none move and the list length becomes old + 1 |
| RecordSpec.LinkReport | src/main/java/org/mitre/synthea/world/concepts/HealthRecord.java:799 | exactly the listed observations get the back-link to the report |
| RecordSpec.CaptureReport | src/main/java/org/mitre/synthea/world/concepts/HealthRecord.java:787-801 | the report holds the captured observations and is added to the encounter's reports; each captured observation links back to it; no other entry changes |
| RecordSpec.Captured | src/main/java/org/mitre/synthea/world/concepts/HealthRecord.java:790-796 | the last n observations, or all of them when there are not more than n |
| RecordSpec.ReportAt | src/main/java/org/mitre/synthea/world/concepts/HealthRecord.java:787-801 | fails exactly for a negative count, leaving only the effect of `currentEncounter` |
| RecordSpec.EncounterStart | src/main/java/org/mitre/synthea/world/concepts/HealthRecord.java:810-814 | a new encounter of the type is appended to the encounter list and nothing else changes |
| RecordSpec.LastOpen | src/main/java/org/mitre/synthea/world/concepts/HealthRecord.java:824-827 | the newest index whose encounter is not ended and whose type parses to the given type; none when no such index exists |
| RecordSpec.ProcedureTime | src/main/java/org/mitre/synthea/world/concepts/HealthRecord.java:834-840 | the summed positive procedure durations are never negative |
| RecordSpec.EndedEncounter | src/main/java/org/mitre/synthea/world/concepts/HealthRecord.java:828-843 | the encounter is ended; stop = max(stop, time) + procedure time; its cost is determined afresh from the ended entry, even when one was stored; costs are assigned once more; the lists and claim line items are unchanged; no other field changes |
| RecordSpec.EncounterEnd | src/main/java/org/mitre/synthea/world/concepts/HealthRecord.java:822-847 | ending an encounter type keeps the record valid (what changes is in `RecordLemmas.EncounterEndEffect`) |
| RecordSpec.GetCost | src/main/java/org/mitre/synthea/world/concepts/HealthRecord.java:186-191 | the returned cost is the one stored on the entry, and only that entry's cost field changes; an entry that had a cost is returned without change; one without gets the engine's cost truncated to cents |
| RecordSpec.NameEntry | src/main/java/org/mitre/synthea/world/concepts/HealthRecord.java:159 | the public `name` of the entry is set, no other entry and no map or list of the record changes, and the record stays valid |
| RecordSpec.LastWellness | src/main/java/org/mitre/synthea/world/concepts/HealthRecord.java:641-647 | the newest encounter whose type is exactly "wellness"; none when no encounter has that type |
| RecordSpec.LatestObservation | src/main/java/org/mitre/synthea/world/concepts/HealthRecord.java:670-679 | the result is `findObservation`'s hit in some encounter below n, and no later encounter has one; none when no encounter below n has an observation of the type |
| RecordSpec.FirstOfType | src/main/java/org/mitre/synthea/world/concepts/HealthRecord.java:554-560 | the first observation of the list with the type; none when there is no such observation |
| RecordSpec.IndexOf | src/main/java/org/mitre/synthea/world/concepts/HealthRecord.java:570 | `indexOf`: the first position of the encounter, or -1 when it is absent |
| RecordSpec.PreviousEncounter | src/main/java/org/mitre/synthea/world/concepts/HealthRecord.java:566-577 | throws exactly when there are 2 or more encounters and this one is not among them; an encounter at (first) position i >= 1 gets the one at i - 1; a record of fewer than two encounters, or the first encounter, gets none |
| RecordLemmas.StartWhenPresent | src/main/java/org/mitre/synthea/world/concepts/HealthRecord.java:681-726 | starting a condition or allergy whose code is present returns the present entry and changes nothing |
| RecordLemmas.StartTypedWhenPresent | src/main/java/org/mitre/synthea/world/concepts/HealthRecord.java:857-933 | starting a present medication or care plan returns the present entry and adds no entry or list item |
| RecordLemmas.ConditionLifecycle | src/main/java/org/mitre/synthea/world/concepts/HealthRecord.java:681-717 | a new condition is active until ended; ending sets its stop; ending twice is ending once |
| RecordLemmas.EndEntryFrame | src/main/java/org/mitre/synthea/world/concepts/HealthRecord.java:692-697 | the present entry's stop becomes `time` and only that key leaves `present`; with the code absent nothing changes |
| RecordLemmas.ProcedureNotActive | src/main/java/org/mitre/synthea/world/concepts/HealthRecord.java:751-758 | a procedure overwrites `present[type]`, and its code then reads as not active (unless its stop lands on 0) |
| RecordLemmas.MedicationStartFresh | src/main/java/org/mitre/synthea/world/concepts/HealthRecord.java:857-874 | a new medication starts at `time`, is active, and is chronic exactly when started so or already chronic |
| RecordLemmas.MedicationEndEffect | src/main/java/org/mitre/synthea/world/concepts/HealthRecord.java:876-889 | the medication stops with the reason, has its costs assigned, is no longer active, chronic or present; no other entry changes |
| RecordLemmas.MedicationEndByStateEffect | src/main/java/org/mitre/synthea/world/concepts/HealthRecord.java:900-905 | a chosen Medication stops at `time` with the reason and is no longer active, chronic or present; its cost and claim are untouched; no other entry and no encounter changes |
| RecordLemmas.CarePlanStartFresh | src/main/java/org/mitre/synthea/world/concepts/HealthRecord.java:924-934 | a new care plan starts at `time` and is active |
| RecordLemmas.EncounterTypesParse | src/main/java/org/mitre/synthea/world/concepts/HealthRecord.java:432-469 | every encounter of a valid record has a type that `fromString` parses to a constant printing as that type; its `code()` is IMP exactly for inpatient, EMER exactly for emergency and AMB otherwise |
| RecordLemmas.CarePlanEndEffect | src/main/java/org/mitre/synthea/world/concepts/HealthRecord.java:936-943 | the care plan stops with the reason, leaves `present`, and is the only entry that changes |
| RecordLemmas.EndWhenAbsent | src/main/java/org/mitre/synthea/world/concepts/HealthRecord.java:876-943 | ending an absent code (condition, medication or care plan) changes nothing, and the code is not active |
| RecordLemmas.ByStateMatchesByCode | src/main/java/org/mitre/synthea/world/concepts/HealthRecord.java:891-960 | ending a condition, allergy or care plan by state equals ending it by code on the chosen key; a medication ended by state keeps its cost and leaves `present` and the chronic map |
| RecordLemmas.NamedEntryChosen | src/main/java/org/mitre/synthea/world/concepts/HealthRecord.java:699-713 | a present entry given a name is one the by-state scan may choose for that name, and ending it by state is ending its code |
| RecordLemmas.EncounterEndNoOp | src/main/java/org/mitre/synthea/world/concepts/HealthRecord.java:822-847 | with no open encounter of the type, nothing changes |
| RecordLemmas.EncounterEndEffect | src/main/java/org/mitre/synthea/world/concepts/HealthRecord.java:822-847 | the encounter ended is the newest open one of the type |
| RecordLemmas.EndEncounterFrame | src/main/java/org/mitre/synthea/world/concepts/HealthRecord.java:827-845 | only that encounter changes: it is ended, and its stop never moves earlier and reaches at least `time` |
| RecordLemmas.EncounterEndOnce | src/main/java/org/mitre/synthea/world/concepts/HealthRecord.java:822-847 | with a single open encounter of the type, ending the type again afterwards changes nothing |
| RecordLemmas.EmergencyWithProcedure | src/main/java/org/mitre/synthea/world/concepts/HealthRecord.java:822-847 | an emergency at 0 with a procedure at 0, ended at 10, stops at 1 hour plus 15 minutes |
| RecordLemmas.WellnessSince | src/main/java/org/mitre/synthea/world/concepts/HealthRecord.java:641-649 | after a wellness encounter starts at t, the time since the last wellness encounter is now - t; for a new record it is Long.MAX_VALUE |
| RecordLemmas.PreviousOfStarted | src/main/java/org/mitre/synthea/world/concepts/HealthRecord.java:566-577 | a newly started encounter's previous encounter is the one that was last before it |
| RecordLemmas.GetCostMemoised | src/main/java/org/mitre/synthea/world/concepts/HealthRecord.java:186-191 | asking for the cost again, whatever the cost engine, gives the same value and changes nothing |
| RecordLemmas.CaptureReportLinks | src/main/java/org/mitre/synthea/world/concepts/HealthRecord.java:787-801 | the report holds min(n, count) observations, and each links back to it |
| RecordLemmas.CaptureReportLists | src/main/java/org/mitre/synthea/world/concepts/HealthRecord.java:797-799 | the report is appended to the encounter's reports, and its observations stay on the encounter |
| RecordLemmas.ReportCaptures | src/main/java/org/mitre/synthea/world/concepts/HealthRecord.java:787-801 | for a count n >= 0, `report` captures on the current encounter and succeeds |
| RecordLemmas.ObservationFound | src/main/java/org/mitre/synthea/world/concepts/HealthRecord.java:554-560 | an observation added to an encounter with none of its type before is the one `findObservation` finds |
| Records.HealthRecord.constructor | src/main/java/org/mitre/synthea/world/concepts/HealthRecord.java:587-590 | a new record is empty and valid |
| Records.HealthRecord.CurrentEncounter | src/main/java/org/mitre/synthea/world/concepts/HealthRecord.java:628-639 | the new state and result are those of `RecordSpec.WithCurrent`, and the record stays valid |
| Records.HealthRecord.ConditionStart | src/main/java/org/mitre/synthea/world/concepts/HealthRecord.java:681-690 | the new state and result are those of `RecordSpec.ConditionStart`: a new condition filed and billed on the current encounter, no other entry changing, and the record kept valid |
| Records.HealthRecord.AllergyStart | src/main/java/org/mitre/synthea/world/concepts/HealthRecord.java:719-726 | the new state and result are those of `RecordSpec.AllergyStart`: a new allergy filed on the current encounter, no other entry changing, and the record kept valid |
| Records.HealthRecord.End | src/main/java/org/mitre/synthea/world/concepts/HealthRecord.java:692-697 | `conditionEnd`, `allergyEnd` and `deviceRemove` leave the state of `RecordSpec.EndEntry` |
| Records.HealthRecord.ScanByState | src/main/java/org/mitre/synthea/world/concepts/HealthRecord.java:699-708 | the key found has a present entry named `stateName`; none is found only when no present entry has that name |
| Records.HealthRecord.EndByState | src/main/java/org/mitre/synthea/world/concepts/HealthRecord.java:699-713 | for a legal choice of the scan, the new state is that of `RecordSpec.EndByState` |
| Records.HealthRecord.MedicationStart | src/main/java/org/mitre/synthea/world/concepts/HealthRecord.java:857-874 | the new state and result are those of `RecordSpec.MedicationStart`: a new medication filed on the current encounter, no other entry changing, and the record kept valid |
| Records.HealthRecord.MedicationEnd | src/main/java/org/mitre/synthea/world/concepts/HealthRecord.java:876-889 | the new state and result are those of `RecordSpec.MedicationEnd` |
| Records.HealthRecord.MedicationEndByState | src/main/java/org/mitre/synthea/world/concepts/HealthRecord.java:891-907 | for a legal choice of the scan, the new state and result are those of `RecordSpec.MedicationEndByState`: the chosen Medication stops at `time` with the reason and leaves `present` and the chronic map, and no other entry changes |
| Records.HealthRecord.CarePlanStart | src/main/java/org/mitre/synthea/world/concepts/HealthRecord.java:924-934 | the new state and result are those of `RecordSpec.CarePlanStart`: a new care plan filed on the current encounter, no other entry changing, and the record kept valid |
| Records.HealthRecord.StopCarePlan | src/main/java/org/mitre/synthea/world/concepts/HealthRecord.java:937-942 | the new state and result are those of `RecordSpec.CarePlanStop` |
| Records.HealthRecord.CarePlanEnd | src/main/java/org/mitre/synthea/world/concepts/HealthRecord.java:936-943 | the new state and result are those of `RecordSpec.CarePlanEnd` |
| Records.HealthRecord.CarePlanEndByState | src/main/java/org/mitre/synthea/world/concepts/HealthRecord.java:945-960 | for a legal choice of the scan, the new state and result are those of `RecordSpec.CarePlanEndByState` |
| Records.HealthRecord.Procedure | src/main/java/org/mitre/synthea/world/concepts/HealthRecord.java:751-758 | the new state and result are those of `RecordSpec.ProcedureAt`: a new procedure filed and billed on the current encounter, no other entry changing, and the record kept valid |
| Records.HealthRecord.DeviceImplant | src/main/java/org/mitre/synthea/world/concepts/HealthRecord.java:766-773 | the new state and result are those of `RecordSpec.DeviceImplant`: a new device filed on the current encounter, no other entry changing, and the record kept valid |
| Records.HealthRecord.Immunization | src/main/java/org/mitre/synthea/world/concepts/HealthRecord.java:849-855 | the new state and result are those of `RecordSpec.ImmunizationAt`: a new immunization filed and billed on the current encounter, no other entry changing, and the record kept valid |
| Records.HealthRecord.ImagingStudy | src/main/java/org/mitre/synthea/world/concepts/HealthRecord.java:966-972 | the new state and result are those of `RecordSpec.ImagingStudyAt`: a new imaging study filed on the current encounter, no other entry changing, and the record kept valid |
| Records.HealthRecord.Observation | src/main/java/org/mitre/synthea/world/concepts/HealthRecord.java:651-653 | the new state and result are those of `RecordSpec.ObservationAt` |
| Records.HealthRecord.EncounterStart | src/main/java/org/mitre/synthea/world/concepts/HealthRecord.java:810-814 | the new state and result are those of `RecordSpec.EncounterStart` |
| Records.HealthRecord.GetCost | src/main/java/org/mitre/synthea/world/concepts/HealthRecord.java:186-191 | the new state and result are those of `RecordSpec.GetCost` |
| Records.HealthRecord.MultiObservation | src/main/java/org/mitre/synthea/world/concepts/HealthRecord.java:655-668 | the new state and result are those of `RecordSpec.MultiObservation` |
| Records.PopObservations | src/main/java/org/mitre/synthea/world/concepts/HealthRecord.java:658-665 | the pop loop leaves the list minus its last `moved` items, and children that are those items newest first |
| Records.HealthRecord.AddParent | src/main/java/org/mitre/synthea/world/concepts/HealthRecord.java:666 | the new observation is filed under the next id and becomes the last item of the encounter's observations |
| Records.HealthRecord.EncounterEnd | src/main/java/org/mitre/synthea/world/concepts/HealthRecord.java:822-847 | the new state is that of `RecordSpec.EncounterEnd` |
| Records.HealthRecord.FindOpenEncounter | src/main/java/org/mitre/synthea/world/concepts/HealthRecord.java:824-827 | the backward scan finds `RecordSpec.LastOpen`: the newest open encounter of the type |
| Records.HealthRecord.EndOpenEncounter | src/main/java/org/mitre/synthea/world/concepts/HealthRecord.java:828-843 | the procedure loop's accumulated stop, and the whole new state, are those of `RecordSpec.EndEncounter` |
| Records.HealthRecord.TimeSinceLastWellnessEncounter | src/main/java/org/mitre/synthea/world/concepts/HealthRecord.java:641-649 | the backward scan's answer is `time` minus the start of the newest wellness encounter, or Long.MAX_VALUE |
| Records.HealthRecord.GetLatestObservation | src/main/java/org/mitre/synthea/world/concepts/HealthRecord.java:670-679 | the backward scan finds the observation of the type in the newest encounter that has one |
| Records.HealthRecord.Report | src/main/java/org/mitre/synthea/world/concepts/HealthRecord.java:787-801 | the new state and result are those of `RecordSpec.ReportAt` |
| Records.HealthRecord.LinkObservations | src/main/java/org/mitre/synthea/world/concepts/HealthRecord.java:799 | the `forEach` leaves every listed observation linked to the report and nothing else changed |

## Left out

- Bundle loading: the `ValueSetResolver` constructor and `initBundle` walk a
  directory and parse JSON and FHIR. The loaded bundle is an input sequence of
  ValueSet documents, each reduced to its first identifier value and its
  include blocks.
- `matchOid` is private and per-instance in `ValueSetResolver.java`, but the
  test helper calls it as a public static. It is modelled as a plain function,
  and the difference in visibility is ignored.
- Terminologies.Terminology.LoadValueSets: the url `Set` is iterated in the
  order of the `urls` sequence. Java's hash-set order and the I/O exceptions
  that `loadValueSets` catches and prints are not modelled.
- Terminologies.Terminology.GetRandomCode: the shared `Random` is a parameter
  `nextInt` that is assumed to answer within `[0, n)`. Uniformity is not
  modelled.
- The Terminology caches are process-wide static state shared between
  simulated people. They are modelled as one object used sequentially.
- Records.HealthRecord.EndByState, Records.HealthRecord.MedicationEndByState
  and Records.HealthRecord.CarePlanEndByState: the scan over
  `present.values()` runs in `HashMap` order, which is not modelled. The
  method may choose any present entry named `stateName`. The contract ties
  the result to that (ghost) choice.
- The cost engine (`Costs.determineCostOfEntry`) is a parameter
  `Entry -> real`. Its value is truncated to cents with rounding toward zero.
- `Claim.addLineItem` is modelled as the claim's list of entry ids.
  `Claim.assignCosts` is modelled as a counter of assignments. Nothing else
  of the claim is modelled.
- The person is reduced to the `chronicMedications` map. It is kept on the
  record because only the record writes it here.
- The `long` time arithmetic is not bounded: `stop +=` in `encounterEnd`,
  `time - start` and the UDI dates do not wrap at 64 bits in this model.
  Times are unbounded integers.
- Records.HealthRecord.Report and RecordSpec.ReportAt take a count that fits
  in a Java `int`. Only for a negative count does the 32-bit `subList`
  arithmetic decide which exception is thrown. The model computes that
  exception, but the two exception types are not told apart by any lemma.
- `Utilities.convertTime` is not part of this model. The manufacture lead is
  taken as 21 days, and the shelf life as 25 years of 365 days.
- DeviceUdi.GenerateUdiFields: `udiDate` (a `SimpleDateFormat("YYMMdd")`
  with time zones and week-years) is a parameter. Only the concatenation shape
  and the read-back of the UDI are proved, and only when the formatted dates
  are digits.
- The lot and serial lengths from `person.rand(4, 20)` are arbitrary
  naturals. The `nextLong` draws are arbitrary 64-bit values.
- `Utilities.randomDicomUid` is a parameter `uid(series, instance)`.
- RecordSpec.ImagingStudyAt and Imaging.AssignDicomUids take the series as a
  value. In `imagingStudy` the study shares the caller's series list, so the
  caller's own `Series` and `Instance` objects receive the UIDs. That
  caller-visible aliasing is not modelled.
- Letter case: `toUpperCase`, `toLowerCase` and `equalsIgnoreCase` are
  modelled for ASCII letters only.
- The record invariant requires every encounter's type to be one of the six
  `EncounterType` names. This holds because encounters are created only by
  `encounterStart` (typed) and `currentEncounter` (wellness). An encounter
  built elsewhere with another type string is not modelled.
- Concepts.CompareStrings: compares Unicode scalar values (Dafny `char`).
  Java's `String.compareTo` compares UTF-16 code units. The two agree on
  whether the result is 0, and on its sign for text inside the Basic
  Multilingual Plane. The sign can differ when a supplementary character
  (a surrogate pair in Java) meets a character from U+E000 to U+FFFF, as in
  "\uFFFF" against U+1F600. The `Code` and `ValueSet` ordering rows inherit
  this.
- RecordSpec.AddObservation: `display` is an `Option`, and `None` stands for
  the three-argument `addObservation`, which adds no code. The four-argument
  form called with a null display adds (LOINC, type, null); that call is not
  modelled, because a `Code` display is a plain string here.
- Entry fields the core does not drive are not modelled: `fullUrl`, the
  reasons, provider and clinician, observation category and unit, care plan
  activities and goals, medication prescription details, and an encounter's
  reason, discharge and notes.
- Output and formatting are not modelled: `System.out.println` and
  `person.ageInYears` in `currentEncounter`, `textSummary`, the `toString`
  methods, the Gson constructors and `fromJson`, and the shallow `clone`
  methods.
- Entries are values in an id-keyed table rather than shared objects. Two
  references to one entry are two occurrences of its id. The copy of the
  observation list that `report` takes is a sequence value.
