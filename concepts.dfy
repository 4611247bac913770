/** The value types of the health record: `Code`, the `ValueSet` reference and
    `EncounterType`, with the ordering they are compared by. */
module Concepts {
  import opened Util

  /** `String.compareTo`: the difference of the first differing characters, or
      else the difference of the lengths; characters are compared as Unicode
      scalar values rather than UTF-16 code units. */
  function CompareStrings(a: string, b: string): int {
    if |a| == 0 || |b| == 0 then |a| - |b|
    else if a[0] != b[0] then a[0] as int - b[0] as int
    else CompareStrings(a[1..], b[1..])
  }

  lemma {:induction false} CompareStringsZero(a: string, b: string)
    ensures CompareStrings(a, b) == 0 <==> a == b
  {
    if |a| != 0 && |b| != 0 && a[0] == b[0] {
      CompareStringsZero(a[1..], b[1..]);
      if a[1..] == b[1..] {
        assert a == [a[0]] + a[1..] && b == [b[0]] + b[1..];
      }
    }
  }

  lemma {:induction false} CompareStringsAntisymmetric(a: string, b: string)
    ensures CompareStrings(a, b) == -CompareStrings(b, a)
  {
    if |a| != 0 && |b| != 0 && a[0] == b[0] {
      CompareStringsAntisymmetric(a[1..], b[1..]);
    }
  }

  lemma {:induction false} CompareStringsTransitive(a: string, b: string, c: string)
    requires CompareStrings(a, b) < 0 && CompareStrings(b, c) < 0
    ensures CompareStrings(a, c) < 0
  {
    if |a| != 0 && |b| != 0 && |c| != 0 && a[0] == b[0] && b[0] == c[0] {
      CompareStringsTransitive(a[1..], b[1..], c[1..]);
    }
  }

  /** HealthRecord.Code: a coding system, a code and a display text. */
  datatype Code = Code(system: string, code: string, display: string) {

    /** `Code.equals`: the display text does not take part. */
    predicate Equals(other: Code) {
      system == other.system && code == other.code
    }

    /** `Code.compareTo`: by system, then by code. */
    function CompareTo(other: Code): int {
      var c := CompareStrings(system, other.system);
      if c == 0 then CompareStrings(code, other.code) else c
    }
  }

  /** `compareTo` is consistent with `equals`, and neither looks at the display. */
  lemma CodeCompareConsistent(a: Code, b: Code)
    ensures a.CompareTo(b) == 0 <==> a.Equals(b)
  {
    CompareStringsZero(a.system, b.system);
    CompareStringsZero(a.code, b.code);
  }

  lemma CodeOrderingIgnoresDisplay(a: Code, b: Code, d: string, e: string)
    ensures a.(display := d).CompareTo(b.(display := e)) == a.CompareTo(b)
    ensures a.(display := d).Equals(b.(display := e)) == a.Equals(b)
  {
  }

  /** Ordering by system and then code is a strict total order on (system, code). */
  lemma CodeCompareAntisymmetric(a: Code, b: Code)
    ensures a.CompareTo(b) == -b.CompareTo(a)
  {
    CompareStringsAntisymmetric(a.system, b.system);
    CompareStringsAntisymmetric(a.code, b.code);
  }

  lemma CodeCompareTransitive(a: Code, b: Code, c: Code)
    requires a.CompareTo(b) < 0 && b.CompareTo(c) < 0
    ensures a.CompareTo(c) < 0
  {
    CompareStringsZero(a.system, b.system);
    CompareStringsZero(b.system, c.system);
    CompareStringsZero(a.system, c.system);
    if a.system == b.system && b.system == c.system {
      CompareStringsTransitive(a.code, b.code, c.code);
    } else if a.system == b.system {
    } else if b.system == c.system {
    } else {
      CompareStringsTransitive(a.system, b.system, c.system);
    }
  }

  /** HealthRecord.ValueSet: a ValueSet url with a display text. */
  datatype ValueSet = ValueSet(url: string, display: string) {

    predicate Equals(other: ValueSet) {
      url == other.url
    }

    function CompareTo(other: ValueSet): int {
      CompareStrings(url, other.url)
    }
  }

  lemma ValueSetCompareConsistent(a: ValueSet, b: ValueSet)
    ensures a.CompareTo(b) == 0 <==> a.Equals(b)
    ensures a.CompareTo(b) == -b.CompareTo(a)
  {
    CompareStringsZero(a.url, b.url);
    CompareStringsAntisymmetric(a.url, b.url);
  }

  datatype EncounterType = Wellness | Ambulatory | Outpatient | Inpatient | Emergency | UrgentCare {

    /** The HL7 ActEncounterCode of the type. */
    function ActCode(): string {
      match this
      case Inpatient => "IMP"
      case Emergency => "EMER"
      case _ => "AMB"
    }

    /** `Enum.name()`. */
    function Name(): string {
      match this
      case Wellness => "WELLNESS"
      case Ambulatory => "AMBULATORY"
      case Outpatient => "OUTPATIENT"
      case Inpatient => "INPATIENT"
      case Emergency => "EMERGENCY"
      case UrgentCare => "URGENTCARE"
    }

    /** `EncounterType.toString`: the lower-cased name. */
    function ToString(): string {
      ToLower(Name())
    }
  }

  /** `EncounterType.valueOf`: the constant with exactly this name. */
  function ValueOf(name: string): Result<EncounterType> {
    if name == "WELLNESS" then Ok(Wellness)
    else if name == "AMBULATORY" then Ok(Ambulatory)
    else if name == "OUTPATIENT" then Ok(Outpatient)
    else if name == "INPATIENT" then Ok(Inpatient)
    else if name == "EMERGENCY" then Ok(Emergency)
    else if name == "URGENTCARE" then Ok(UrgentCare)
    else Err(IllegalArgumentException)
  }

  /** `EncounterType.fromString`: null is ambulatory, "super" is inpatient, and
      anything else is looked up by its upper-cased name. */
  function FromString(value: Option<string>): Result<EncounterType> {
    match value
    case None => Ok(Ambulatory)
    case Some(s) => if s == "super" then Ok(Inpatient) else ValueOf(ToUpper(s))
  }

  lemma ValueOfName(name: string, t: EncounterType)
    ensures ValueOf(name) == Ok(t) <==> name == t.Name()
  {
  }

  /** Parsing the string an encounter type prints gives the type back. */
  lemma FromStringToString(t: EncounterType)
    ensures FromString(Some(t.ToString())) == Ok(t)
  {
    UpperOfLower(t.Name());
    assert |t.ToString()| != |"super"|;
  }

  /** The parse is case-insensitive apart from the literal "super". */
  lemma FromStringIgnoresCase(a: string, b: string)
    requires EqualsIgnoreCase(a, b) && a != "super" && b != "super"
    ensures FromString(Some(a)) == FromString(Some(b))
  {
  }
}
