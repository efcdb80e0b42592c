/** The decision part of `drug_calc`: find the requested drug in the
    medication table, apply its minimum-age rule, and only then evaluate its
    dosage formula. Python's `float()` and `eval()` are parameters: the model
    says when they are called and what happens with their outcome, not how
    they compute it. */
module Dosage {
  import opened Common
  import opened Text

  /** "years and above", the marker the `適用年齡` column uses for a minimum age. */
  const AgeMarker: string := "歲以上"

  /** One row of the medication table. */
  datatype DrugRule = DrugRule(
    name: string,            // 藥物名稱
    ageLimit: string,        // 適用年齡
    formula: string,         // 運算公式
    doseInstruction: string, // 劑量說明
    symptoms: string,        // 適用症狀
    sideEffects: string)     // 常見副作用

  /** The error messages the page can show instead of a dose. */
  datatype DrugError =
    | InvalidNumber                                         // 請輸入正確的數值格式
    | NotFound(medName: string)                             // 找不到藥物：…
    | Ineligible(medName: string, minAge: real, age: real)  // … 僅適用於 … 歲以上 …
    | CalculationError                                      // 計算錯誤：…

  /** What the page shows on success; `dose` is the value before `round(dose, 2)`. */
  datatype Prescription = Prescription(medName: string, age: real, weight: real, dose: real, rule: DrugRule)

  /** `df[df['藥物名稱'] == med_name].iloc[0]`, where the name column has been
      stripped: the first row whose stripped name is `medName`. */
  function FindDrug(medName: string, rules: seq<DrugRule>): (r: Option<nat>)
    ensures r.Some? ==> r.value < |rules| && Strip(rules[r.value].name) == medName
    ensures r.Some? ==> forall j :: 0 <= j < r.value ==> Strip(rules[j].name) != medName
    ensures r.None? <==> forall j :: 0 <= j < |rules| ==> Strip(rules[j].name) != medName
  {
    FirstIndex(rules, (rule: DrugRule) => Strip(rule.name) == medName)
  }

  /** The minimum age a `適用年齡` text imposes: present only when the stripped
      text contains the marker and what is left after deleting every marker and
      stripping is a number for `parseFloat`. Anything else is no constraint. */
  function MinimumAge(ageLimit: string, parseFloat: string -> Option<real>): (r: Option<real>)
    ensures !Contains(Strip(ageLimit), AgeMarker) ==> r.None?
  {
    var text := Strip(ageLimit);
    if Contains(text, AgeMarker) then parseFloat(Strip(RemoveAll(text, AgeMarker))) else None
  }

  /** A `<number>歲以上` text is a minimum age of whatever `float()` makes of the
      number, stripped: for every `n` that does not itself hold the marker. */
  lemma MinimumAgeOfNumber(n: string, parseFloat: string -> Option<real>)
    requires !Contains(n, AgeMarker)
    ensures MinimumAge(n + AgeMarker, parseFloat) == parseFloat(Strip(n))
  {
    var m := AgeMarker;
    var l := TrimLeft(n);
    TrimLeftAppend(n, m);
    assert Strip(n + m) == l + m by {
      assert (l + m)[|l + m| - 1] == '上';
    }
    assert OccursAt(l + m, m, |l|);
    ContainsAt(l + m, m);
    TrimLeftSpec(n);
    SuffixLacksMarker(n, |n| - |l|);
    RemoveMarkerSuffix(l);
    StripLeftTrimmed(n);
  }

  /** `lstrip()` of a concatenation whose second part starts with a
      non-whitespace character only trims the first part. */
  lemma {:induction false} TrimLeftAppend(a: string, b: string)
    requires |b| > 0 && !IsSpace(b[0])
    ensures TrimLeft(a + b) == TrimLeft(a) + b
    decreases |a|
  {
    if |a| == 0 {
      assert a + b == b;
    } else {
      assert (a + b)[0] == a[0];
      assert (a + b)[1..] == a[1..] + b;
      TrimLeftAppend(a[1..], b);
    }
  }

  /** A suffix of a text without the marker has no marker either. */
  lemma SuffixLacksMarker(n: string, k: nat)
    requires k <= |n| && !Contains(n, AgeMarker)
    ensures !Contains(n[k..], AgeMarker)
  {
    ContainsAt(n, AgeMarker);
    ContainsAt(n[k..], AgeMarker);
    if Contains(n[k..], AgeMarker) {
      var i :| OccursAt(n[k..], AgeMarker, i);
      assert n[k..][i..i + |AgeMarker|] == n[k + i..k + i + |AgeMarker|];
      assert OccursAt(n, AgeMarker, k + i);
    }
  }

  /** Deleting the marker from `n + 歲以上` gives back `n` when `n` holds no
      marker: no occurrence can start inside `n`, since the marker's three
      characters are distinct. */
  lemma {:induction false} RemoveMarkerSuffix(n: string)
    requires !Contains(n, AgeMarker)
    ensures RemoveAll(n + AgeMarker, AgeMarker) == n
    decreases |n|
  {
    var m := AgeMarker;
    var s := n + m;
    if |n| == 0 {
      assert s == m && IsPrefix(m, s) && s[|m|..] == "";
    } else {
      assert !IsPrefix(m, s) by {
        if |n| >= 3 {
          assert s[..3] == n[..3];
          assert !IsPrefix(m, n);
        } else if |n| == 1 {
          assert s[1] == '歲';
        } else {
          assert s[2] == '歲';
        }
      }
      assert s[1..] == n[1..] + m;
      assert !Contains(n[1..], m);
      RemoveMarkerSuffix(n[1..]);
      assert [n[0]] + n[1..] == n;
    }
  }

  /** `strip()` after `lstrip()` is `strip()`. */
  lemma StripLeftTrimmed(n: string)
    ensures Strip(TrimLeft(n)) == Strip(n)
  {
    TrimLeftSpec(n);
    var l := TrimLeft(n);
    TrimLeftNoPadding(l);
  }

  /** The POST branch of `drug_calc`. `parseFloat` stands for `float()` (None
      where it raises) and `evaluate(formula, weight, age)` for
      `eval(formula, {}, {"體重": weight, "年齡": age})` (None where it raises). */
  function DrugCalc(
    ageField: string, weightField: string, medField: string, rules: seq<DrugRule>,
    parseFloat: string -> Option<real>, evaluate: (string, real, real) -> Option<real>)
    : (r: Result<Prescription, DrugError>)
    ensures r.Ok? ==> r.value.medName == Strip(medField) && Strip(r.value.rule.name) == Strip(medField)
    ensures r.Ok? ==> Some(r.value.dose) == evaluate(Strip(r.value.rule.formula), r.value.weight, r.value.age)
  {
    var ageValue, weightValue := parseFloat(ageField), parseFloat(weightField);
    if ageValue.None? || weightValue.None? then Err(InvalidNumber)
    else
      var age, weight := ageValue.value, weightValue.value;
      var medName := Strip(medField);
      match FindDrug(medName, rules)
      case None => Err(NotFound(medName))
      case Some(i) =>
        var rule := rules[i];
        var minAge := MinimumAge(rule.ageLimit, parseFloat);
        if minAge.Some? && age < minAge.value then Err(Ineligible(medName, minAge.value, age))
        else match evaluate(Strip(rule.formula), weight, age)
          case None => Err(CalculationError)
          case Some(dose) => Ok(Prescription(medName, age, weight, dose, rule))
  }

  /** An age or weight that `float()` rejects is reported before anything else. */
  lemma InvalidNumberFirst(
    ageField: string, weightField: string, medField: string, rules: seq<DrugRule>,
    parseFloat: string -> Option<real>, evaluate: (string, real, real) -> Option<real>)
    ensures DrugCalc(ageField, weightField, medField, rules, parseFloat, evaluate) == Err(InvalidNumber)
      <==> parseFloat(ageField).None? || parseFloat(weightField).None?
  {
  }

  /** With valid numbers, an unknown drug is reported exactly when no row's
      stripped name equals the stripped request. */
  lemma UnknownDrug(
    ageField: string, weightField: string, medField: string, rules: seq<DrugRule>,
    parseFloat: string -> Option<real>, evaluate: (string, real, real) -> Option<real>)
    requires parseFloat(ageField).Some? && parseFloat(weightField).Some?
    ensures DrugCalc(ageField, weightField, medField, rules, parseFloat, evaluate) == Err(NotFound(Strip(medField)))
      <==> forall j :: 0 <= j < |rules| ==> Strip(rules[j].name) != Strip(medField)
  {
  }

  /** With valid numbers and a known drug, the request is refused exactly when
      the first matching row's age text has the marker, its remainder parses
      to some `m` and the age is below `m`; the refusal carries `m` and the age. */
  lemma AgeRefusal(
    ageField: string, weightField: string, medField: string, rules: seq<DrugRule>,
    parseFloat: string -> Option<real>, evaluate: (string, real, real) -> Option<real>, i: nat)
    requires parseFloat(ageField).Some? && parseFloat(weightField).Some?
    requires i < |rules| && Strip(rules[i].name) == Strip(medField)
    requires forall j :: 0 <= j < i ==> Strip(rules[j].name) != Strip(medField)
    ensures var r := DrugCalc(ageField, weightField, medField, rules, parseFloat, evaluate);
      var age := parseFloat(ageField).value;
      var text := Strip(rules[i].ageLimit);
      && (r.Err? && r.error.Ineligible? <==>
            Contains(text, AgeMarker)
            && parseFloat(Strip(RemoveAll(text, AgeMarker))).Some?
            && age < parseFloat(Strip(RemoveAll(text, AgeMarker))).value)
      && (r.Err? && r.error.Ineligible? ==>
            r.error == Ineligible(Strip(medField), parseFloat(Strip(RemoveAll(text, AgeMarker))).value, age))
  {
    assert FindDrug(Strip(medField), rules) == Some(i);
  }

  /** Past the age gate, the outcome is the formula's: a dose when `eval`
      returns one, the calculation error when it raises. */
  lemma GateOpen(
    ageField: string, weightField: string, medField: string, rules: seq<DrugRule>,
    parseFloat: string -> Option<real>, evaluate: (string, real, real) -> Option<real>, i: nat)
    requires parseFloat(ageField).Some? && parseFloat(weightField).Some?
    requires i < |rules| && Strip(rules[i].name) == Strip(medField)
    requires forall j :: 0 <= j < i ==> Strip(rules[j].name) != Strip(medField)
    requires var m := MinimumAge(rules[i].ageLimit, parseFloat); m.None? || parseFloat(ageField).value >= m.value
    ensures var r := DrugCalc(ageField, weightField, medField, rules, parseFloat, evaluate);
      var age, weight := parseFloat(ageField).value, parseFloat(weightField).value;
      match evaluate(Strip(rules[i].formula), weight, age)
      case None => r == Err(CalculationError)
      case Some(dose) => r == Ok(Prescription(Strip(medField), age, weight, dose, rules[i]))
  {
    assert FindDrug(Strip(medField), rules) == Some(i);
  }

  /** The lookup and the age gate run before the formula: every outcome other
      than a dose or a calculation error is the same whatever `eval` does. */
  lemma GateBeforeFormula(
    ageField: string, weightField: string, medField: string, rules: seq<DrugRule>,
    parseFloat: string -> Option<real>, evaluate1: (string, real, real) -> Option<real>,
    evaluate2: (string, real, real) -> Option<real>)
    requires var r := DrugCalc(ageField, weightField, medField, rules, parseFloat, evaluate1);
      r.Err? && r.error != CalculationError
    ensures DrugCalc(ageField, weightField, medField, rules, parseFloat, evaluate1)
         == DrugCalc(ageField, weightField, medField, rules, parseFloat, evaluate2)
  {
  }

  /** "65歲以上" is a minimum age of whatever `float("65")` is. */
  lemma MinimumAgeMarked(parseFloat: string -> Option<real>)
    ensures MinimumAge("65歲以上", parseFloat) == parseFloat("65")
  {
    var s := "65歲以上";
    StripNoPadding(s);
    assert IsPrefix(AgeMarker, s[2..]);
    assert Contains(s, AgeMarker);
    assert RemoveAll(s[2..], AgeMarker) == "";
    assert RemoveAll(s, AgeMarker) == "65";
    StripNoPadding("65");
  }

  /** An empty age text and one without the marker impose no constraint. */
  lemma MinimumAgeUnmarked(parseFloat: string -> Option<real>)
    ensures MinimumAge("", parseFloat) == None
    ensures MinimumAge("成人", parseFloat) == None
  {
    StripNoPadding("成人");
    assert !Contains("成人", AgeMarker);
  }

  /** A three-year-old asking for a drug limited to "6歲以上" is refused with
      (6, 3), whatever the formula is or does. */
  lemma ChildRefused(
    parseFloat: string -> Option<real>, evaluate: (string, real, real) -> Option<real>,
    weightField: string, formula: string, rest: seq<DrugRule>)
    requires parseFloat("3") == Some(3.0) && parseFloat("6") == Some(6.0)
    requires parseFloat(weightField).Some?
    ensures DrugCalc("3", weightField, "退燒藥", [DrugRule("退燒藥", "6歲以上", formula, "", "", "")] + rest,
                     parseFloat, evaluate)
         == Err(Ineligible("退燒藥", 6.0, 3.0))
  {
    var rules := [DrugRule("退燒藥", "6歲以上", formula, "", "", "")] + rest;
    StripNoPadding("退燒藥");
    assert FindDrug("退燒藥", rules) == Some(0);
    var s := "6歲以上";
    StripNoPadding(s);
    assert IsPrefix(AgeMarker, s[1..]);
    assert Contains(s, AgeMarker);
    assert RemoveAll(s[1..], AgeMarker) == "";
    assert RemoveAll(s, AgeMarker) == "6";
    StripNoPadding("6");
    assert MinimumAge("6歲以上", parseFloat) == Some(6.0);
  }
}
