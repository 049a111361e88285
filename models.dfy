/** The records the toll-booth pipeline passes around: the persisted plate
    document, the payload/row record `LicensePlateData`, a .NET `DateTime`,
    and the "was a plate recognised" predicate built on .NET's
    `string.IsNullOrWhiteSpace`. */
module Models {

  /** A .NET string reference, which may be null. */
  datatype NullableString = Null | NonNull(value: string)

  /** A UTC `DateTime`, broken into its calendar fields; `fraction` is the
      sub-second part in 100-nanosecond ticks. */
  datatype DateTime = DateTime(year: int, month: int, day: int,
                               hour: int, minute: int, second: int, fraction: int)
  {
    /** The range .NET allows for a `DateTime` (years 1 to 9999). */
    predicate Valid() {
      && 1 <= year <= 9999
      && 1 <= month <= 12
      && 1 <= day <= DaysInMonth(year, month)
      && 0 <= hour < 24
      && 0 <= minute < 60
      && 0 <= second < 60
      && 0 <= fraction < 10_000_000
    }
  }

  predicate IsLeapYear(year: int) {
    year % 4 == 0 && (year % 100 != 0 || year % 400 == 0)
  }

  function DaysInMonth(year: int, month: int): (days: int)
    requires 1 <= month <= 12
    ensures 28 <= days <= 31
  {
    if month == 2 then (if IsLeapYear(year) then 29 else 28)
    else if month == 4 || month == 6 || month == 9 || month == 11 then 30
    else 31
  }

  /** `LicensePlateDataDocument`: one captured image's record in the
      document store, keyed by its file name. */
  datatype PlateDocument = PlateDocument(fileName: string, licensePlateText: NullableString,
                                         timestamp: DateTime, exported: bool)

  /** `LicensePlateData`: the event payload and the export row. */
  datatype LicensePlateData = LicensePlateData(fileName: string, licensePlateText: NullableString,
                                               timeStamp: DateTime)

  /** .NET `char.IsWhiteSpace`: the Unicode White_Space characters. */
  function IsWhiteSpace(c: char): (r: bool)
    ensures c < '\U{80}' ==> (r <==> c == ' ' || c == '\t' || c == '\n' || c == '\U{B}' || c == '\U{C}' || c == '\r')
    ensures r ==> !('0' <= c <= '9' || 'A' <= c <= 'Z' || 'a' <= c <= 'z' || c == '-')
  {
    || c == ' '
    || '\t' <= c <= '\r'
    || c == '\U{85}' || c == '\U{A0}' || c == '\U{1680}'
    || '\U{2000}' <= c <= '\U{200A}'
    || c == '\U{2028}' || c == '\U{2029}' || c == '\U{202F}' || c == '\U{205F}'
    || c == '\U{3000}'
  }

  /** True when every character of `s` is white space (so also when `s` is empty). */
  function AllWhiteSpace(s: string): (r: bool)
    ensures r <==> forall i :: 0 <= i < |s| ==> IsWhiteSpace(s[i])
  {
    if s == [] then true
    else IsWhiteSpace(s[0]) && AllWhiteSpace(s[1..])
  }

  /** .NET `string.IsNullOrWhiteSpace`. */
  function IsNullOrWhiteSpace(s: NullableString): (r: bool)
    ensures s.Null? ==> r
    ensures s == NonNull([]) ==> r
    ensures s.NonNull? ==> (r <==> forall i :: 0 <= i < |s.value| ==> IsWhiteSpace(s.value[i]))
  {
    match s
    case Null => true
    case NonNull(v) => AllWhiteSpace(v)
  }

  /** `LicensePlateData.LicensePlateFound`: the text holds at least one
      character that is not white space. */
  function LicensePlateFound(data: LicensePlateData): (found: bool)
    ensures found <==> data.licensePlateText.NonNull? &&
                       exists i :: 0 <= i < |data.licensePlateText.value| &&
                                   !IsWhiteSpace(data.licensePlateText.value[i])
  {
    !IsNullOrWhiteSpace(data.licensePlateText)
  }

  /** Surrounding a plate text with white space does not change whether a
      plate was found. */
  lemma {:induction false} FoundIgnoresSurroundingWhiteSpace(data: LicensePlateData, lead: string, trail: string)
    requires data.licensePlateText.NonNull?
    requires AllWhiteSpace(lead) && AllWhiteSpace(trail)
    ensures LicensePlateFound(data.(licensePlateText := NonNull(lead + data.licensePlateText.value + trail)))
            == LicensePlateFound(data)
  {
    var v := data.licensePlateText.value;
    var padded := lead + v + trail;
    if LicensePlateFound(data) {
      var i :| 0 <= i < |v| && !IsWhiteSpace(v[i]);
      assert padded[|lead| + i] == v[i];
    } else {
      forall j | 0 <= j < |padded| ensures IsWhiteSpace(padded[j]) {
        if j < |lead| {
          assert padded[j] == lead[j];
        } else if j < |lead| + |v| {
          assert padded[j] == v[j - |lead|];
        } else {
          assert padded[j] == trail[j - |lead| - |v|];
        }
      }
    }
  }

  /** Whether a plate was found depends on the text alone: the file name and
      the time stamp play no part. */
  lemma FoundDependsOnlyOnText(a: LicensePlateData, b: LicensePlateData)
    requires a.licensePlateText == b.licensePlateText
    ensures LicensePlateFound(a) == LicensePlateFound(b)
  {
  }
}
