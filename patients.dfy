/** The patient-record search of `search`: names lose every ideographic space
    and are stripped, identity numbers are stripped, and the first record whose
    name or identity number equals the cleaned query is shown. */
module Patients {
  import opened Common
  import opened Text

  /** One row of the patient-record table: the two columns the search reads,
      and the rest of the row as it is shown. */
  datatype Patient = Patient(name: string, nationalId: string, details: seq<string>)

  /** `str.replace('　', '').str.strip()` on the name column. */
  function CleanName(name: string): string {
    Strip(RemoveChar(name, IdeographicSpace))
  }

  /** The row after the two columns have been overwritten by their cleaned values. */
  function Cleaned(p: Patient): Patient {
    Patient(CleanName(p.name), Strip(p.nationalId), p.details)
  }

  /** `request.form['query'].strip()`, then `.replace('　', '').strip()`. */
  function CleanQuery(query: string): string {
    Strip(RemoveChar(Strip(query), IdeographicSpace))
  }

  predicate Matches(q: string, p: Patient) {
    CleanName(p.name) == q || Strip(p.nationalId) == q
  }

  /** `df[(df['姓名'] == query) | (df['身分證'] == query)]`, first row, as cleaned. */
  function FindPatient(query: string, patients: seq<Patient>): (r: Option<Patient>)
    ensures r.None? <==> forall j :: 0 <= j < |patients| ==> !Matches(CleanQuery(query), patients[j])
    ensures r.Some? ==> exists i :: 0 <= i < |patients| && r.value == Cleaned(patients[i])
                                   && Matches(CleanQuery(query), patients[i])
                                   && forall j :: 0 <= j < i ==> !Matches(CleanQuery(query), patients[j])
  {
    var q := CleanQuery(query);
    match FirstIndex(patients, (p: Patient) => Matches(q, p))
    case None => None
    case Some(i) => Some(Cleaned(patients[i]))
  }

  /** Cleaning the query is the same as deleting its ideographic spaces and
      stripping once: the first `strip()` removes nothing the second would keep. */
  lemma CleanQueryOnce(query: string)
    ensures CleanQuery(query) == Strip(RemoveChar(query, IdeographicSpace))
  {
    var c := IdeographicSpace;
    StripParts(query);
    var lead, mid, trail := Lead(query), Strip(query), Trail(query);
    RemoveCharAppend(lead + mid, trail, c);
    RemoveCharAppend(lead, mid, c);
    RemoveCharAllSpace(lead, c);
    RemoveCharAllSpace(trail, c);
    StripPadded(RemoveChar(lead, c), RemoveChar(mid, c), RemoveChar(trail, c));
  }

  /** Whitespace (U+3000 included) around the query does not change the result. */
  lemma QueryPadding(w1: string, query: string, w2: string, patients: seq<Patient>)
    requires AllSpace(w1) && AllSpace(w2)
    ensures FindPatient(w1 + query + w2, patients) == FindPatient(query, patients)
  {
    StripPadded(w1, query, w2);
  }

  /** An ideographic space anywhere in the query does not change the result. */
  lemma QueryIdeographicSpace(a: string, b: string, patients: seq<Patient>)
    ensures FindPatient(a + [IdeographicSpace] + b, patients) == FindPatient(a + b, patients)
  {
    CleanQueryDropsSpace(a, b);
  }

  lemma CleanQueryDropsSpace(a: string, b: string)
    ensures CleanQuery(a + [IdeographicSpace] + b) == CleanQuery(a + b)
  {
    var c := IdeographicSpace;
    CleanQueryOnce(a + [c] + b);
    CleanQueryOnce(a + b);
    RemoveCharAppend(a + [c], b, c);
    RemoveCharAppend(a, [c], c);
    RemoveCharAppend(a, b, c);
    assert [c][1..] == [];
    assert RemoveChar([c], c) == [];
    assert RemoveChar(a + [c], c) == RemoveChar(a, c);
    assert RemoveChar(a + [c] + b, c) == RemoveChar(a + b, c);
  }
}
