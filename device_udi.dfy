/** HealthRecord.Device: the identifiers drawn for an implanted device and the
    human-readable UDI string built from them. */
module DeviceUdi {
  import opened Util

  const DAY_MS: int := 86_400_000
  /** `Utilities.convertTime("weeks", 3)`, taken as 21 days. */
  const MANUFACTURE_LEAD_MS: int := 21 * DAY_MS
  /** `Utilities.convertTime("years", 25)`, taken as 25 years of 365 days. */
  const SHELF_LIFE_MS: int := 25 * 365 * DAY_MS

  predicate IsLong(v: int) {
    -0x8000_0000_0000_0000 <= v <= 0x7fff_ffff_ffff_ffff
  }

  function Abs(v: int): nat {
    if v < 0 then -v else v
  }

  /** `Long.toString`. */
  function LongToString(v: int): string
    requires IsLong(v)
  {
    if v < 0 then "-" + DecimalString(-v) else DecimalString(v)
  }

  /** `Device.trimLong`: the decimal form without its minus sign, cut to at most
      `length` characters. */
  function TrimLong(v: int, length: nat): string
    requires IsLong(v)
  {
    var s := LongToString(v);
    var unsigned := if |s| > 0 && s[0] == '-' then s[1..] else s;
    if |unsigned| > length then unsigned[..length] else unsigned
  }

  /** The trimmed value is the leading `length` digits of the magnitude. */
  lemma TrimLongDigits(v: int, length: nat)
    requires IsLong(v)
    ensures var r := TrimLong(v, length);
            && AllDigits(r)
            && |r| == (if length < |DecimalString(Abs(v))| then length else |DecimalString(Abs(v))|)
            && r == DecimalString(Abs(v))[..|r|]
  {
    var d := DecimalString(Abs(v));
    if v < 0 {
      assert LongToString(v)[1..] == d;
    } else {
      assert LongToString(v)[0] != '-';
    }
  }

  /** The five fields of a UDI. */
  datatype UdiFields = UdiFields(
    deviceIdentifier: string,
    manufactureDate: string,
    expirationDate: string,
    lotNumber: string,
    serialNumber: string)

  /** The GS1 application identifiers of the UDI fields, in order. */
  const UDI_AIS: seq<string> := ["(01)", "(11)", "(17)", "(10)", "(21)"]

  function FieldList(f: UdiFields): seq<string> {
    [f.deviceIdentifier, f.manufactureDate, f.expirationDate, f.lotNumber, f.serialNumber]
  }

  /** Each field written behind its application identifier. */
  function Join(ais: seq<string>, fields: seq<string>): string
    requires |ais| == |fields|
  {
    if ais == [] then [] else ais[0] + (fields[0] + Join(ais[1..], fields[1..]))
  }

  /** The UDI template `(01)di(11)made(17)expires(10)lot(21)serial`. */
  function Udi(f: UdiFields): string {
    Join(UDI_AIS, FieldList(f))
  }

  lemma UdiTemplate(f: UdiFields)
    ensures Udi(f) == "(01)" + (f.deviceIdentifier + ("(11)" + (f.manufactureDate + ("(17)" + (f.expirationDate
                      + ("(10)" + (f.lotNumber + ("(21)" + f.serialNumber))))))))
  {
    var l := FieldList(f);
    assert UDI_AIS[1..] == ["(11)", "(17)", "(10)", "(21)"] && l[1..] == FieldList(f)[1..];
    assert UDI_AIS[2..] == UDI_AIS[1..][1..] && l[2..] == l[1..][1..];
    assert UDI_AIS[3..] == UDI_AIS[2..][1..] && l[3..] == l[2..][1..];
    assert UDI_AIS[4..] == UDI_AIS[3..][1..] && l[4..] == l[3..][1..];
    assert UDI_AIS[4..][1..] == [] && l[4..][1..] == [];
    assert Join(UDI_AIS[4..], l[4..]) == "(21)" + (f.serialNumber + []);
    assert f.serialNumber + [] == f.serialNumber;
    assert Join(UDI_AIS[3..], l[3..]) == "(10)" + (f.lotNumber + Join(UDI_AIS[4..], l[4..]));
    assert Join(UDI_AIS[2..], l[2..]) == "(17)" + (f.expirationDate + Join(UDI_AIS[3..], l[3..]));
    assert Join(UDI_AIS[1..], l[1..]) == "(11)" + (f.manufactureDate + Join(UDI_AIS[2..], l[2..]));
    assert Join(UDI_AIS, l) == "(01)" + (f.deviceIdentifier + Join(UDI_AIS[1..], l[1..]));
  }

  /** Length of the run of digits at the front of `s`. */
  function DigitPrefix(s: string): (n: nat)
    ensures n <= |s| && AllDigits(s[..n]) && (n == |s| || !IsDigit(s[n]))
  {
    if |s| > 0 && IsDigit(s[0]) then
      var n := 1 + DigitPrefix(s[1..]);
      assert s[..n] == [s[0]] + s[1..][..n - 1];
      n
    else 0
  }

  /** Reads one application identifier `ai` and the digits behind it. */
  function ReadField(s: string, ai: string): Option<(string, string)> {
    if |ai| <= |s| && s[..|ai|] == ai then
      var rest := s[|ai|..];
      var n := DigitPrefix(rest);
      Some((rest[..n], rest[n..]))
    else None
  }

  /** Reads the fields behind the identifiers `ais`, which must take up all of `s`. */
  function ReadFields(s: string, ais: seq<string>): (r: Option<seq<string>>)
    ensures r.Some? ==> |r.value| == |ais|
  {
    if ais == [] then (if s == [] then Some([]) else None)
    else match ReadField(s, ais[0])
      case None => None
      case Some((d, rest)) =>
        match ReadFields(rest, ais[1..])
        case None => None
        case Some(ds) => Some([d] + ds)
  }

  /** Splits a UDI string back into its fields. */
  function ParseUdi(s: string): Option<UdiFields> {
    match ReadFields(s, UDI_AIS)
    case None => None
    case Some(ds) => Some(UdiFields(ds[0], ds[1], ds[2], ds[3], ds[4]))
  }

  lemma {:induction false} DigitPrefixOf(d: string, rest: string)
    requires AllDigits(d) && (rest == [] || !IsDigit(rest[0]))
    ensures DigitPrefix(d + rest) == |d|
  {
    if |d| > 0 {
      assert (d + rest)[1..] == d[1..] + rest;
      DigitPrefixOf(d[1..], rest);
    } else {
      assert d + rest == rest;
    }
  }

  lemma ReadFieldOf(ai: string, d: string, rest: string)
    requires AllDigits(d) && (rest == [] || !IsDigit(rest[0]))
    ensures ReadField(ai + (d + rest), ai) == Some((d, rest))
  {
    var s := ai + (d + rest);
    assert s[..|ai|] == ai;
    assert s[|ai|..] == d + rest;
    DigitPrefixOf(d, rest);
    assert (d + rest)[..|d|] == d;
    assert (d + rest)[|d|..] == rest;
  }

  /** Fields of digits written behind identifiers that do not start with a digit
      are read back unchanged. */
  lemma {:induction false} ReadFieldsJoin(ais: seq<string>, fields: seq<string>)
    requires |ais| == |fields|
    requires forall k :: 0 <= k < |ais| ==> |ais[k]| > 0 && !IsDigit(ais[k][0]) && AllDigits(fields[k])
    ensures ReadFields(Join(ais, fields), ais) == Some(fields)
  {
    if ais != [] {
      var rest := Join(ais[1..], fields[1..]);
      ReadFieldsJoin(ais[1..], fields[1..]);
      if rest != [] {
        assert rest[0] == ais[1][0];
      }
      ReadFieldOf(ais[0], fields[0], rest);
      assert [fields[0]] + fields[1..] == fields;
    }
  }

  /** Parsing a UDI built from digit fields gives the fields back. */
  lemma ParseUdiRoundTrip(f: UdiFields)
    requires AllDigits(f.deviceIdentifier) && AllDigits(f.manufactureDate) && AllDigits(f.expirationDate)
    requires AllDigits(f.lotNumber) && AllDigits(f.serialNumber)
    ensures ParseUdi(Udi(f)) == Some(f)
  {
    ReadFieldsJoin(UDI_AIS, FieldList(f));
  }

  /** The random draws `generateUDI` makes: three `nextLong` values and the two
      lengths `(int) person.rand(4, 20)`. */
  datatype DeviceDraw = DeviceDraw(
    identifierLong: int, lotLong: int, lotLength: nat, serialLong: int, serialLength: nat)
  {
    predicate Valid() {
      IsLong(identifierLong) && IsLong(lotLong) && IsLong(serialLong)
    }
  }

  /** The fields `generateUDI` sets on a Device. */
  datatype DeviceInfo = DeviceInfo(
    udi: string,
    manufactureTime: int,
    expirationTime: int,
    deviceIdentifier: string,
    lotNumber: string,
    serialNumber: string)

  /** `Device.generateUDI` for a device starting at `start`; `udiDate` stands for
      the `YYMMdd` date formatter. */
  function GenerateUdi(start: int, draw: DeviceDraw, udiDate: int -> string): DeviceInfo
    requires draw.Valid()
  {
    var di := TrimLong(draw.identifierLong, 14);
    var made := start - MANUFACTURE_LEAD_MS;
    var expires := start + SHELF_LIFE_MS;
    var lot := TrimLong(draw.lotLong, draw.lotLength);
    var serial := TrimLong(draw.serialLong, draw.serialLength);
    DeviceInfo(Udi(UdiFields(di, udiDate(made), udiDate(expires), lot, serial)), made, expires, di, lot, serial)
  }

  /** The device identifier has at most 14 digits, the dates lie three weeks before
      and 25 years after the start, and the UDI string carries the device
      identifier, lot and serial numbers so that they can be read back from it. */
  lemma GenerateUdiFields(start: int, draw: DeviceDraw, udiDate: int -> string)
    requires draw.Valid()
    requires AllDigits(udiDate(start - MANUFACTURE_LEAD_MS)) && AllDigits(udiDate(start + SHELF_LIFE_MS))
    ensures var d := GenerateUdi(start, draw, udiDate);
            && 1 <= |d.deviceIdentifier| <= 14 && AllDigits(d.deviceIdentifier)
            && d.manufactureTime == start - 1_814_400_000
            && d.expirationTime == start + 788_400_000_000
            && ParseUdi(d.udi) == Some(UdiFields(d.deviceIdentifier, udiDate(d.manufactureTime),
                                                 udiDate(d.expirationTime), d.lotNumber, d.serialNumber))
  {
    TrimLongDigits(draw.identifierLong, 14);
    TrimLongDigits(draw.lotLong, draw.lotLength);
    TrimLongDigits(draw.serialLong, draw.serialLength);
    var d := GenerateUdi(start, draw, udiDate);
    ParseUdiRoundTrip(UdiFields(d.deviceIdentifier, udiDate(d.manufactureTime),
                                udiDate(d.expirationTime), d.lotNumber, d.serialNumber));
  }
}
