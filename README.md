# medical_app decision rules in Dafny

The Flask application `app.py` of medical_app is a clinical front end: vitals
logging, dosage calculation, a keyword chatbot, clinic recommendation and
patient lookup. This project models the decision rules inside those handlers
and proves what they promise:

- **Vitals alerts** (`check_health_alert`): blood pressure, heart rate and
  temperature are checked in that order, and each field gives at most one
  label: high, low or format error. This is an imperative method that appends
  labels, proved against a specification function.
- **Drug lookup and age gate** (`drug_calc`): the first row whose stripped
  name equals the stripped request is used. A `歲以上` ("years and above") age
  text can refuse the request, and this happens before the formula is
  evaluated. A pure function.
- **Department routing** (`clinic_suggest`): the first keyword of an ordered
  table found in the symptom picks the department. A `while` loop with
  `break`.
- **Disease chatbot** (`chatbot`): the input is split on `、`, and every row
  whose symptom text contains any piece gives one reply, in table order. A
  `for` loop that appends.
- **Patient search** (`search`): names and the query lose U+3000 and are
  stripped. The first record whose name or ID equals the query is returned.

Modules: `Common` (Option, Result, first-match search), `Text` (the Python
string operations used: `isspace`/`strip`, `in`, `split`, `join`, `replace`,
and a simplified `int()`), `Vitals`, `Dosage`, `Departments`, `Diseases`,
`Patients`.

Python's `float()` and the formula `eval` are parameters (`parseFloat`,
`evaluate`) that return `None` where Python raises. Tables are passed in as
sequences of records, in file order.

Behaviour of the code worth knowing:
- Empty pieces of the `、` split are kept. An empty input, or one ending in
  `、`, therefore matches every disease row.
- A row matching several pieces gives one reply, because the code uses `any`.
- The age text is not reduced to a leading number. Every marker is deleted,
  the rest is stripped and the whole rest goes to `float()`.
- The formula goes to Python's `eval`, so the model keeps it abstract.
- `strip()` and `int()` disagree on U+001C..U+001F: `str.isspace` counts them
  as whitespace, but `int()` rejects any text holding one.

## Model

| member | source | states |
|---|---|---|
| `Common.FirstIndex` | app.py:68-71 | the index found satisfies the test and no earlier index does; None exactly when no index satisfies it |
| `Text.TrimLeftSpec` | app.py:63-65 | `lstrip` removes a whitespace-only prefix and keeps a suffix that does not start with whitespace |
| `Text.TrimRightSpec` | app.py:63-65 | `rstrip` removes a whitespace-only suffix and keeps a prefix that does not end with whitespace |
| `Text.StripParts` | app.py:56 | a string is leading whitespace + its stripped form + trailing whitespace, and the stripped form has no whitespace at either end |
| `Text.StripPadded` | app.py:56 | whitespace added around a string does not change its `strip()` |
| `Text.StripIdempotent` | app.py:56-65 | stripping a second time changes nothing |
| `Text.ContainsAt` | app.py:184 | Python's substring `in` holds exactly when the keyword occurs at some position |
| `Text.ContainsEmpty` | app.py:184 | the empty string is a substring of every string |
| `Text.SplitLength` | app.py:15 | `split(c)` gives one more piece than there are `c`s |
| `Text.SplitPiecesFree` | app.py:15 | no piece of `split(c)` contains `c` |
| `Text.JoinSplit` | app.py:184 | joining the pieces of `split(c)` with `c` gives back the string |
| `Text.SplitJoin` | app.py:184 | splitting a join of `c`-free pieces gives back the pieces |
| `Text.SplitTrailingSeparator` | app.py:184 | a trailing separator adds exactly one empty piece at the end |
| `Text.RemoveChar` | app.py:63 | `replace(c, '')` leaves no `c`, keeps only characters of the input, is shorter by exactly the number of `c`s, and is the identity on a text without `c` |
| `Text.RemoveCharAppend` | app.py:65 | `replace(c, '')` acts on the two halves of a concatenation separately |
| `Text.RemoveAllAbsent` | app.py:143 | `replace(pat, '')` leaves a string without `pat` unchanged |
| `Text.ParseIntToString` | app.py:25 | `int(str(n)) == n` for every integer |
| `Text.ParseIntPadded` | app.py:25 | `int()` ignores surrounding whitespace of the kind it skips (`isspace` minus U+001C..U+001F) |
| `Text.ParseIntInfoSeparator` | app.py:25 | `int()` fails on any text holding one of U+001C..U+001F, wherever it stands |
| `Vitals.MessageInjective` | app.py:17-41 | different labels are shown as different texts |
| `Vitals.BloodPressureSlashCount` | app.py:15 | a reading with zero or several `/` never parses |
| `Vitals.BloodPressureOneSlash` | app.py:15 | `a/b` with `/`-free sides parses exactly when both sides are integers, and to those integers |
| `Vitals.BloodPressureLabel` | app.py:14-21 | format error exactly when parsing fails; once parsed: high iff s>140 or d>90; low iff not high and s<90 or d<60; none iff 90<=s<=140 and 60<=d<=90 |
| `Vitals.HeartRateLabel` | app.py:24-31 | format error exactly when `int()` fails; fast iff >100; slow iff <60; none iff 60..100 |
| `Vitals.TemperatureLabel` | app.py:34-41 | format error exactly when `float()` fails; high iff >37.5; low iff <35; none iff 35..37.5 |
| `Vitals.CheckHealthAlert` | app.py:10-43 | the appended list is the blood-pressure, heart-rate and temperature contributions, in that order |
| `Vitals.AlertsShape` | app.py:10-43 | at most 3 labels in strictly increasing field order (at most one per field), each equal to its own field's contribution |
| `Vitals.AlertsEmptyIff` | app.py:10-43 | no alert exactly when all three fields parse and lie in range |
| `Vitals.BloodPressureFormatErrorOnly` | app.py:14-21 | an unparseable reading contributes only the format-error label, placed first; the rest of the list is unchanged |
| `Vitals.ThreePartReading` | app.py:15-21 | "120/80/70" is a format error |
| `Vitals.MissingDiastolic` | app.py:15-21 | "120/" is a format error |
| `Vitals.NoSlashReading` | app.py:15-21 | "abc" is a format error |
| `Vitals.NormalReading` | app.py:15-19 | "120/80" raises no blood-pressure alert |
| `Vitals.InfoSeparatorHeartRate` | app.py:24-31 | "\x1c72" is a heart-rate format error, although `strip()` would remove the U+001C |
| `Dosage.FindDrug` | app.py:133-137 | the row found is the first whose stripped name equals the request; None exactly when no row's name does |
| `Dosage.MinimumAge` | app.py:140-148 | a stripped text without `歲以上` imposes no minimum age |
| `Dosage.MinimumAgeOfNumber` | app.py:140-143 | for every `n` without the marker, `n + 歲以上` is a minimum age of `float(n.strip())` |
| `Dosage.RemoveMarkerSuffix` | app.py:143 | deleting `歲以上` from `n + 歲以上` gives back `n` when `n` holds no marker |
| `Dosage.DrugCalc` | app.py:122-163 | a dose is always for the requested drug and is exactly what `eval` returned for that row's stripped formula |
| `Dosage.InvalidNumberFirst` | app.py:124-130 | the number-format error comes back exactly when age or weight does not parse |
| `Dosage.UnknownDrug` | app.py:133-136 | with valid numbers, not-found comes back exactly when no stripped row name equals the stripped request |
| `Dosage.AgeRefusal` | app.py:139-146 | for the first matching row: refused iff the marker is there, the rest parses to m and age < m; the refusal carries (name, m, age) |
| `Dosage.GateOpen` | app.py:147-156 | past the gate, the outcome is the dose `eval` returns, or the calculation error when it raises |
| `Dosage.GateBeforeFormula` | app.py:132-156 | number, lookup and age outcomes are the same for any formula evaluator |
| `Dosage.MinimumAgeMarked` | app.py:142-143 | "65歲以上" is a minimum age of `float("65")` |
| `Dosage.MinimumAgeUnmarked` | app.py:142 | "" and "成人" are no constraint |
| `Dosage.ChildRefused` | app.py:139-146 | age 3 for a "6歲以上" drug is refused with (6, 3), whatever the formula |
| `Departments.DepartmentFor` | app.py:208-225 | None exactly when no keyword occurs; otherwise the department of the first keyword that occurs |
| `Departments.MatchDepartment` | app.py:205-225 | the loop over the stripped symptom returns the first-match department |
| `Departments.SoreThroatBeforeFever` | app.py:208-225 | a symptom with both 喉嚨痛 and 發燒 goes to 耳鼻喉科 |
| `Departments.TableDepartmentsNonEmpty` | app.py:208-228 | every department of the table is non-empty, so `not matched_dept` means no keyword matched |
| `Diseases.Reply` | app.py:185 | every reply starts with 🦠, so a joined answer is never the fallback text |
| `Diseases.AnyInIff` | app.py:184 | `any(keyword in text ...)` holds exactly when some piece occurs in the text |
| `Diseases.MatchIndicesSpec` | app.py:182-185 | the matched positions are in range, strictly increasing and exactly the rows hit by some piece |
| `Diseases.MatchingSpec` | app.py:182-185 | the matched rows are the rows at those positions: table order kept, no row twice |
| `Diseases.MatchingAll` | app.py:182-185 | when every row is hit, every row is kept |
| `Diseases.MatchingNone` | app.py:182-188 | nothing is kept exactly when no row is hit |
| `Diseases.EmptyTokenMatchesAll` | app.py:184 | an empty piece makes every row match |
| `Diseases.EmptyInputMatchesAll` | app.py:179-184 | an empty or whitespace-only input matches every row |
| `Diseases.TrailingDelimiterMatchesAll` | app.py:179-184 | an input ending in `、` matches every row |
| `Diseases.Chatbot` | app.py:176-190 | the answer is the matching rows' replies in table order joined by blank lines, and is the fallback text exactly when no row matches |
| `Patients.FindPatient` | app.py:63-71 | the cleaned record of the first row whose cleaned name or stripped ID equals the cleaned query; None exactly when no row matches |
| `Patients.CleanQueryOnce` | app.py:56-65 | cleaning the query equals deleting U+3000 and stripping once |
| `Patients.QueryPadding` | app.py:56-68 | whitespace (U+3000 included) around the query does not change the result |
| `Patients.QueryIdeographicSpace` | app.py:56-68 | a U+3000 anywhere in the query does not change the result |

## Left out

- Flask routing, `render_template`, the GET branches, `app.run` and `print`: page plumbing. The models return structured results, not HTML.
- CSV reads and appends (`pd.read_csv`, `to_csv`, the health-log append) and `datetime.now()`: file and clock I/O. Tables are parameters.
- `eval(formula, {}, {"體重": weight, "年齡": age})`: Python's general evaluator cannot be modelled. It is the parameter `evaluate`, with None for any exception.
- `float()`: an abstract parser `parseFloat`. NaN and infinity, and what they do to the comparisons, are not modelled.
- `round(dose, 2)`: floating-point rounding. `Prescription.dose` is the unrounded value.
- The texts of the drug-page error messages, and the printing of `min_age` and `age` in them. `DrugError` carries the values the messages show.
- Clinic filtering (`str.contains(area)` on the clinic table): pandas regex matching on user input, a foreign library behaviour. The surrounding `try/except` is left out too.
- `dropna(subset=['藥物名稱'])`: a missing name never equals a stripped request, so dropping such rows changes no lookup. Rows are modelled with string names.
- `astype(str)` on missing cells, which turns them into "nan", and a missing `症狀` cell, which makes `in` raise: rows are modelled as strings.
- Text.ParseInt: a simplification of Python's `int()`. It accepts surrounding whitespace (Python's `isspace` set without U+001C..U+001F, which `int()` rejects), an optional sign and one or more ASCII digits. Underscores between digits and non-ASCII decimal digits, which Python also accepts, are rejected.
- The medication list shown on the drug page and the patient name passed through to it: display only.
