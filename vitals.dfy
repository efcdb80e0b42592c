/** `check_health_alert`: classifies the blood pressure, heart rate and body
    temperature typed into the health-log form into an ordered list of alert
    labels, at most one per field. */
module Vitals {
  import opened Common
  import opened Text

  datatype Label =
    | BloodPressureHigh | BloodPressureLow | BloodPressureFormatError
    | HeartRateFast | HeartRateSlow | HeartRateFormatError
    | TemperatureHigh | TemperatureLow | TemperatureFormatError

  datatype Field = BloodPressure | HeartRate | Temperature

  function FieldOf(l: Label): Field {
    match l
    case BloodPressureHigh | BloodPressureLow | BloodPressureFormatError => BloodPressure
    case HeartRateFast | HeartRateSlow | HeartRateFormatError => HeartRate
    case TemperatureHigh | TemperatureLow | TemperatureFormatError => Temperature
  }

  /** Position of a field in the order the form is checked. */
  function Rank(f: Field): nat {
    match f
    case BloodPressure => 0
    case HeartRate => 1
    case Temperature => 2
  }

  /** The text the page shows for each label. */
  function Message(l: Label): string {
    match l
    case BloodPressureHigh => "⚠️ 血壓過高"
    case BloodPressureLow => "⚠️ 血壓過低"
    case BloodPressureFormatError => "⚠️ 血壓格式錯誤（請用 120/80 格式）"
    case HeartRateFast => "⚠️ 心率過快"
    case HeartRateSlow => "⚠️ 心率過慢"
    case HeartRateFormatError => "⚠️ 心率格式錯誤"
    case TemperatureHigh => "⚠️ 體溫過高"
    case TemperatureLow => "⚠️ 體溫過低"
    case TemperatureFormatError => "⚠️ 體溫格式錯誤"
  }

  /** Distinct labels are shown as distinct texts, so the label list determines
      the page's alert list and back. */
  lemma MessageInjective(a: Label, b: Label)
    ensures Message(a) == Message(b) ==> a == b
  {
  }

  // ------------------------------------------------------- blood pressure

  /** `systolic, diastolic = map(int, bp.split('/'))`: exactly two pieces, both
      integers; anything else raises and is caught. */
  function ParseBloodPressure(bp: string): Option<(int, int)> {
    var parts := Split(bp, '/');
    if |parts| != 2 then None
    else match (ParseInt(parts[0]), ParseInt(parts[1]))
      case (Some(s), Some(d)) => Some((s, d))
      case _ => None
  }

  /** A reading with more or fewer than one `/` never parses. */
  lemma BloodPressureSlashCount(bp: string)
    requires Count(bp, '/') != 1
    ensures ParseBloodPressure(bp) == None
  {
    SplitLength(bp, '/');
  }

  /** With exactly one `/`, the reading parses precisely when both sides are
      integers, and then to those two integers. */
  lemma BloodPressureOneSlash(a: string, b: string)
    requires '/' !in a && '/' !in b
    ensures ParseBloodPressure(a + "/" + b) ==
      if ParseInt(a).Some? && ParseInt(b).Some? then Some((ParseInt(a).value, ParseInt(b).value)) else None
  {
    SplitFreePrefix(a, '/', b);
    SplitFree(b, '/');
  }

  /** The blood-pressure contribution: high is tested before low, and a reading
      that does not parse gets only the format-error label. */
  function BloodPressureLabel(bp: string): (r: Option<Label>)
    ensures r.Some? ==> FieldOf(r.value) == BloodPressure
    ensures r == Some(BloodPressureFormatError) <==> ParseBloodPressure(bp).None?
    ensures ParseBloodPressure(bp).Some? ==>
      var (s, d) := ParseBloodPressure(bp).value;
      && (r == Some(BloodPressureHigh) <==> s > 140 || d > 90)
      && (r == Some(BloodPressureLow) <==> s <= 140 && d <= 90 && (s < 90 || d < 60))
      && (r == None <==> 90 <= s <= 140 && 60 <= d <= 90)
  {
    match ParseBloodPressure(bp)
    case None => Some(BloodPressureFormatError)
    case Some((s, d)) =>
      if s > 140 || d > 90 then Some(BloodPressureHigh)
      else if s < 90 || d < 60 then Some(BloodPressureLow)
      else None
  }

  // ----------------------------------------------------------- heart rate

  /** The heart-rate contribution: `int(hr)`, fast above 100, slow below 60. */
  function HeartRateLabel(hr: string): (r: Option<Label>)
    ensures r.Some? ==> FieldOf(r.value) == HeartRate
    ensures r == Some(HeartRateFormatError) <==> ParseInt(hr).None?
    ensures ParseInt(hr).Some? ==>
      var h := ParseInt(hr).value;
      && (r == Some(HeartRateFast) <==> h > 100)
      && (r == Some(HeartRateSlow) <==> h < 60)
      && (r == None <==> 60 <= h <= 100)
  {
    match ParseInt(hr)
    case None => Some(HeartRateFormatError)
    case Some(h) =>
      if h > 100 then Some(HeartRateFast)
      else if h < 60 then Some(HeartRateSlow)
      else None
  }

  // ---------------------------------------------------------- temperature

  /** The temperature contribution, given what `float(temp)` returned (None when
      it raised): high above 37.5, low below 35. */
  function TemperatureLabel(temp: Option<real>): (r: Option<Label>)
    ensures r.Some? ==> FieldOf(r.value) == Temperature
    ensures r == Some(TemperatureFormatError) <==> temp.None?
    ensures temp.Some? ==>
      && (r == Some(TemperatureHigh) <==> temp.value > 37.5)
      && (r == Some(TemperatureLow) <==> temp.value < 35.0)
      && (r == None <==> 35.0 <= temp.value <= 37.5)
  {
    match temp
    case None => Some(TemperatureFormatError)
    case Some(t) =>
      if t > 37.5 then Some(TemperatureHigh)
      else if t < 35.0 then Some(TemperatureLow)
      else None
  }

  // ------------------------------------------------------------ the list

  function AsSeq(l: Option<Label>): seq<Label> {
    if l.Some? then [l.value] else []
  }

  /** The alert list for one reading: each field's contribution, in field order. */
  function HealthAlerts(bp: string, hr: string, temp: Option<real>): seq<Label> {
    AsSeq(BloodPressureLabel(bp)) + AsSeq(HeartRateLabel(hr)) + AsSeq(TemperatureLabel(temp))
  }

  /** `check_health_alert(bp, hr, temp)`; `parseFloat` stands for Python's
      `float()` and returns None where it raises. */
  method CheckHealthAlert(bp: string, hr: string, temp: string, parseFloat: string -> Option<real>)
    returns (alerts: seq<Label>)
    ensures alerts == HealthAlerts(bp, hr, parseFloat(temp))
  {
    alerts := [];

    var pressure := ParseBloodPressure(bp);
    if pressure.None? {
      alerts := alerts + [BloodPressureFormatError];
    } else {
      var (systolic, diastolic) := pressure.value;
      if systolic > 140 || diastolic > 90 {
        alerts := alerts + [BloodPressureHigh];
      } else if systolic < 90 || diastolic < 60 {
        alerts := alerts + [BloodPressureLow];
      }
    }
    assert alerts == AsSeq(BloodPressureLabel(bp));

    var rate := ParseInt(hr);
    if rate.None? {
      alerts := alerts + [HeartRateFormatError];
    } else if rate.value > 100 {
      alerts := alerts + [HeartRateFast];
    } else if rate.value < 60 {
      alerts := alerts + [HeartRateSlow];
    }
    assert alerts == AsSeq(BloodPressureLabel(bp)) + AsSeq(HeartRateLabel(hr));

    var t := parseFloat(temp);
    if t.None? {
      alerts := alerts + [TemperatureFormatError];
    } else if t.value > 37.5 {
      alerts := alerts + [TemperatureHigh];
    } else if t.value < 35.0 {
      alerts := alerts + [TemperatureLow];
    }
  }

  /** The list has at most three labels, listed in strictly increasing field
      order (so at most one per field, blood pressure first, temperature last),
      and every label is the contribution of the field it belongs to. */
  lemma AlertsShape(bp: string, hr: string, temp: Option<real>)
    ensures var alerts := HealthAlerts(bp, hr, temp);
      && |alerts| <= 3
      && (forall i, j :: 0 <= i < j < |alerts| ==> Rank(FieldOf(alerts[i])) < Rank(FieldOf(alerts[j])))
      && (forall i :: 0 <= i < |alerts| && FieldOf(alerts[i]) == BloodPressure ==> Some(alerts[i]) == BloodPressureLabel(bp))
      && (forall i :: 0 <= i < |alerts| && FieldOf(alerts[i]) == HeartRate ==> Some(alerts[i]) == HeartRateLabel(hr))
      && (forall i :: 0 <= i < |alerts| && FieldOf(alerts[i]) == Temperature ==> Some(alerts[i]) == TemperatureLabel(temp))
  {
    ConcatShape(BloodPressureLabel(bp), HeartRateLabel(hr), TemperatureLabel(temp));
  }

  /** The shape argument for any three per-field contributions. */
  lemma ConcatShape(a: Option<Label>, b: Option<Label>, c: Option<Label>)
    requires a.Some? ==> FieldOf(a.value) == BloodPressure
    requires b.Some? ==> FieldOf(b.value) == HeartRate
    requires c.Some? ==> FieldOf(c.value) == Temperature
    ensures var alerts := AsSeq(a) + AsSeq(b) + AsSeq(c);
      && |alerts| <= 3
      && (forall i, j :: 0 <= i < j < |alerts| ==> Rank(FieldOf(alerts[i])) < Rank(FieldOf(alerts[j])))
      && (forall i :: 0 <= i < |alerts| && FieldOf(alerts[i]) == BloodPressure ==> Some(alerts[i]) == a)
      && (forall i :: 0 <= i < |alerts| && FieldOf(alerts[i]) == HeartRate ==> Some(alerts[i]) == b)
      && (forall i :: 0 <= i < |alerts| && FieldOf(alerts[i]) == Temperature ==> Some(alerts[i]) == c)
  {
  }

  /** The list is empty exactly when all three fields parse and are in range. */
  lemma AlertsEmptyIff(bp: string, hr: string, temp: Option<real>)
    ensures HealthAlerts(bp, hr, temp) == [] <==>
      && ParseBloodPressure(bp).Some?
      && 90 <= ParseBloodPressure(bp).value.0 <= 140 && 60 <= ParseBloodPressure(bp).value.1 <= 90
      && ParseInt(hr).Some? && 60 <= ParseInt(hr).value <= 100
      && temp.Some? && 35.0 <= temp.value <= 37.5
  {
  }

  /** A blood-pressure entry that does not parse contributes exactly the
      format-error label at the head of the list; what follows depends on the
      other two fields only. */
  lemma BloodPressureFormatErrorOnly(bp: string, hr: string, temp: Option<real>, other: string)
    requires ParseBloodPressure(bp).None?
    ensures HealthAlerts(bp, hr, temp) == [BloodPressureFormatError] + AsSeq(HeartRateLabel(hr)) + AsSeq(TemperatureLabel(temp))
    ensures HealthAlerts(bp, hr, temp)[1..] == HealthAlerts(other, hr, temp)[|AsSeq(BloodPressureLabel(other))|..]
  {
  }

  /** A reading with a third part is a format error. */
  lemma ThreePartReading()
    ensures BloodPressureLabel("120/80/70") == Some(BloodPressureFormatError)
  {
    BloodPressureSlashCount("120/80/70");
  }

  /** A reading with an empty second part is a format error. */
  lemma MissingDiastolic()
    ensures BloodPressureLabel("120/") == Some(BloodPressureFormatError)
  {
    BloodPressureOneSlash("120", "");
    assert "120" + "/" + "" == "120/";
  }

  /** A reading without a `/` is a format error. */
  lemma NoSlashReading()
    ensures BloodPressureLabel("abc") == Some(BloodPressureFormatError)
  {
    BloodPressureSlashCount("abc");
  }

  /** The reading the error message suggests, 120/80, raises no alert. */
  lemma NormalReading()
    ensures BloodPressureLabel("120/80") == None
  {
    NormalReadingParts();
    BloodPressureOneSlash("120", "80");
    assert "120" + "/" + "80" == "120/80";
  }

  lemma NormalReadingParts()
    ensures ParseInt("120") == Some(120) && ParseInt("80") == Some(80)
  {
    assert NatDigits(12) == "12";
    assert NatDigits(120) == "120";
    assert NatDigits(80) == "80";
    ParseIntToString(120);
    ParseIntToString(80);
  }

  /** A heart rate preceded by U+001C is a format error: `strip()` would drop
      that character, but `int()` does not. */
  lemma InfoSeparatorHeartRate()
    ensures HeartRateLabel("\U{1C}72") == Some(HeartRateFormatError)
  {
    ParseIntInfoSeparator("", '\U{1C}', "72");
    assert "" + ['\U{1C}'] + "72" == "\U{1C}72";
  }
}
