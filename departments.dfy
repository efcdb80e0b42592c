/** The symptom-to-department rule of `clinic_suggest`: the first keyword of an
    ordered table that occurs in the typed symptom picks the department. */
module Departments {
  import opened Common
  import opened Text

  /** `symptom_to_dept`, in the insertion order the loop visits it. */
  const SymptomToDept: seq<(string, string)> := [
    ("喉嚨痛", "耳鼻喉科"),
    ("鼻塞", "耳鼻喉科"),
    ("發燒", "內科"),
    ("拉肚子", "內科"),
    ("牙痛", "牙醫一般科"),
    ("跌倒", "外科"),
    ("感冒", "內科"),
    ("皮膚癢", "皮膚科"),
    ("月經問題", "婦產科"),
    ("中醫調理", "中醫一般科")
  ]

  /** The department of the first rule whose keyword occurs in `text`. */
  function DepartmentFor(text: string, rules: seq<(string, string)>): (r: Option<string>)
    ensures r.None? <==> forall j :: 0 <= j < |rules| ==> !Contains(text, rules[j].0)
    ensures r.Some? ==> exists i :: 0 <= i < |rules| && Contains(text, rules[i].0) && rules[i].1 == r.value
                                   && forall j :: 0 <= j < i ==> !Contains(text, rules[j].0)
  {
    match FirstIndex(rules, (rule: (string, string)) => Contains(text, rule.0))
    case None => None
    case Some(i) => Some(rules[i].1)
  }

  /** The `for key, dept in symptom_to_dept.items()` loop, run on the stripped
      symptom: stops at the first keyword found. */
  method MatchDepartment(symptom: string, rules: seq<(string, string)>) returns (matched: Option<string>)
    ensures matched == DepartmentFor(Strip(symptom), rules)
  {
    var text := Strip(symptom);
    matched := None;
    var i := 0;
    while i < |rules|
      invariant 0 <= i <= |rules|
      invariant forall j :: 0 <= j < i ==> !Contains(text, rules[j].0)
    {
      var (key, dept) := rules[i];
      if Contains(text, key) {
        matched := Some(dept);
        break;
      }
      i := i + 1;
    }
    if matched.None? {
      assert DepartmentFor(text, rules).None?;
    } else {
      assert FirstIndex(rules, (rule: (string, string)) => Contains(text, rule.0)) == Some(i) by {
        FirstIndexIsFirst(rules, (rule: (string, string)) => Contains(text, rule.0), i);
      }
    }
  }

  /** A symptom with both `喉嚨痛` and `發燒` goes to 耳鼻喉科, because `喉嚨痛`
      comes first in the table. */
  lemma SoreThroatBeforeFever()
    ensures DepartmentFor("喉嚨痛且發燒", SymptomToDept) == Some("耳鼻喉科")
  {
    assert IsPrefix("喉嚨痛", "喉嚨痛且發燒");
    FirstIndexIsFirst(SymptomToDept, (rule: (string, string)) => Contains("喉嚨痛且發燒", rule.0), 0);
  }

  /** Every department in the table is a non-empty name, so the page's
      `if not matched_dept` test fails exactly when no keyword matched. */
  lemma TableDepartmentsNonEmpty()
    ensures forall j :: 0 <= j < |SymptomToDept| ==> SymptomToDept[j].1 != ""
  {
  }
}
