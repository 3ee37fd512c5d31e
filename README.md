# BMI calculator: a verified model of its decision logic and record table

`BMI.py` is a Tkinter desktop program. It reads a name, a weight and a height,
computes the Body Mass Index, classifies it, and saves each result as a row of
the SQLite table `bmi_records`. It can show all rows newest first, delete
selected rows, clear the table, and plot one person's BMI over time.

This project models the parts of that program that decide something:

- `Text`: Python's `str.strip()`. Every entry field is stripped before it is checked.
- `Classification`: `round(w / h**2, 2)` over exact reals, and the four-way threshold chain with its advice texts.
- `Validation`: the ordered checks `calculate_bmi` runs on the three entries. Number parsing is a parameter `parse: string -> Option<real>`, which returns `None` where `float()` raises `ValueError`.
- `Records`: the row type, and the row selections made by the program's SQL. These are delete by (name, date, bmi), select by name, and order by date.
- `Store`: class `BmiCalculator` holds the table in memory:
  - `rows`: the rows in rowid order;
  - `nextId`: the AUTOINCREMENT counter;
  - `issued`: a ghost set of every id ever given out.

  Its methods are the table operations (`Insert`, `Count`, `DeleteMatching`,
  `DeleteAll`, `ListAll`, `ListByName`) and the button handlers that use them
  (`CalculateBmi`, `ViewHistory`, `DeleteSelected`, `ShowGraph`, `ClearHistory`).
  Yes/no dialog answers are `bool` parameters. The current time is a `Date`
  parameter.

`Valid()` is the table invariant. Ids strictly increase along the rows, every
row's id has been issued, and every issued id is below `nextId`. Every method
that changes the table keeps it, including `ClearHistoryTwice` and
`SaveThenViewHistory`. `Consistent()` says that every row is one
`calculate_bmi` could write: a non-empty trimmed name, weight > 0,
0 < height <= 3, the rounded BMI, and the category `Classify` gives that BMI.
`CalculateBmi`, `DeleteMatching`, `DeleteSelected`, `DeleteAll`,
`ClearHistory`, `ClearHistoryTwice` and `SaveThenViewHistory` preserve it.
`Insert` preserves it exactly when the new row is well-formed, which
`CalculateBmi`, its only caller, guarantees.

Two outcomes worth noting:
- With zero rows for a name the program reports "No data" (BMI.py:334-336). "Insufficient data" is reported for exactly one row (BMI.py:338-340).
- The deletion at BMI.py:387 returns nothing. `ClearHistory` returns the count shown in the confirmation question (BMI.py:385).

## Model

| member | source | states |
|---|---|---|
| `Text.Strip` | BMI.py:158-160 | the stripped entry is no longer than the entry and has no whitespace at either end |
| `Text.StripPadding` | BMI.py:158-160 | a trimmed string surrounded by any whitespace strips back to exactly itself |
| `Text.StripIdempotent` | BMI.py:158-160 | stripping an already stripped entry changes nothing |
| `Text.StripEmptyIffBlank` | BMI.py:158-172 | an entry strips to empty exactly when it is all whitespace, so a blank entry counts as missing |
| `Classification.Classify` | BMI.py:198-213 | exactly one category for every BMI: below 18.5 Underweight, [18.5, 25) Normal, [25, 30) Overweight, 30 and above Obese |
| `Classification.ClassifyCountsThresholds` | BMI.py:198-213 | the category's position on the scale equals the number of thresholds (18.5, 25, 30) the BMI has reached |
| `Classification.ClassifyMonotone` | BMI.py:198-213 | a larger BMI never gets a lighter category |
| `Classification.ClassifyBoundaries` | BMI.py:198-213 | each boundary value falls into the heavier category: 18.5 Normal, 25 Overweight, 30 Obese; 24.999 and 29.999 stay below |
| `Classification.Round2` | BMI.py:196 | the rounded value is a whole number of hundredths within 0.005 of the input and is non-negative for non-negative input |
| `Classification.Round2Nearest` | BMI.py:196 | no whole number of hundredths is closer to the input than the rounded value |
| `Classification.Round2TiesToEven` | BMI.py:196 | when the input lies exactly halfway between two hundredths, the result is the even one |
| `Classification.Round2Idempotent` | BMI.py:196 | rounding a rounded value changes nothing |
| `Classification.Bmi` | BMI.py:195-196 | for positive weight and height the BMI is non-negative and within 0.005 of weight / height squared |
| `Classification.ScenarioAnn` | BMI.py:195-213 | 70 kg at 1.75 m gives BMI 22.86, Normal |
| `Classification.ScenarioBob` | BMI.py:195-213 | 100 kg at 1.6 m gives BMI 39.06, Obese |
| `Validation.Validate` | BMI.py:158-193 | an accepted entry has the stripped non-empty name, and the parsed weight > 0 and height in (0, 3] |
| `Validation.ValidateReportsFirstBrokenRule` | BMI.py:162-193 | accepted exactly when none of the seven rules is broken; a rejection names a broken rule whose predecessors all hold, in the order empty name, empty weight, empty height, not numeric (the `ValueError` caught at BMI.py:229-230), weight <= 0, height <= 0, height > 3 |
| `Validation.Check` | BMI.py:162-193 | on stripped entries, an accepted verdict carries the non-empty name and parsed weight > 0 and height in (0, 3] |
| `Validation.CheckReportsFirstBrokenRule` | BMI.py:162-193 | on stripped entries, accepted exactly when no rule is broken; a rejection is a broken rule whose predecessors all hold |
| `Validation.ValidateIgnoresSurroundingSpace` | BMI.py:158-160 | whitespace around any entry never changes the verdict |
| `Validation.BlankNameIsMissing` | BMI.py:158-165 | an all-whitespace name is reported as missing, whatever the other entries are |
| `Records.Surviving` | BMI.py:297-300 | after deleting by a set of keys, a row is left exactly when it was there and its (name, date, bmi) is not one of the keys |
| `Records.SurvivingIsSubsequence` | BMI.py:295-302 | the rows left keep their original relative order |
| `Records.SurvivingKeepsUnmatched` | BMI.py:297-300 | a row whose key is not deleted is left as many times as it was there, so duplicates of a matched key all go and nothing else does |
| `Records.SurvivingTwice` | BMI.py:295-300 | deleting by one key and then by another equals deleting by both at once |
| `Records.SurvivingNone` | BMI.py:295-300 | deleting by no key keeps the table |
| `Records.SurvivingKeepsIdsIncreasing` | BMI.py:27 | deletion keeps ids strictly increasing along the table |
| `Records.OfPerson` | BMI.py:328-331 | a row is selected exactly when it is in the table and carries the given name |
| `Records.OfPersonKeepsAll` | BMI.py:328-331 | every row of the person is selected, as many times as it occurs |
| `Records.InsertByDate` | BMI.py:238-239 | inserting a row gives a permutation of the sequence plus that row |
| `Records.InsertByDateSorted` | BMI.py:238-239 | inserting into a date-ordered sequence keeps it date-ordered |
| `Records.SortByDate` | BMI.py:238-239 | the result is ordered by date, newest or oldest first as asked, and is a permutation of the input |
| `Store.BmiCalculator.constructor` | BMI.py:25-35 | a new table is empty, its counter starts at 1 and no id has been issued |
| `Store.BmiCalculator.Insert` | BMI.py:221-224 | the new row is appended with the counter's id, which was never issued and is above every issued id; the counter advances |
| `Store.BmiCalculator.Count` | BMI.py:376-377 | the count is the number of rows |
| `Store.BmiCalculator.DeleteMatching` | BMI.py:297-300 | the table becomes the rows not matching the (name, date, bmi) triple; the counter and issued ids are unchanged |
| `Store.BmiCalculator.DeleteAll` | BMI.py:387-388 | the table becomes empty; the counter is kept, so later ids stay above every earlier one |
| `Store.BmiCalculator.ListAll` | BMI.py:238-241 | every row, newest date first, as a permutation of the table |
| `Store.BmiCalculator.ListByName` | BMI.py:328-332 | the person's rows, oldest date first, each as many times as in the table, and no other rows |
| `Store.BmiCalculator.CalculateBmi` | BMI.py:156-234 | a rejection carries the validation verdict and leaves the table, counter and issued ids untouched; otherwise exactly one well-formed row is appended, whose category is `Classify` of its BMI, with a fresh id above all earlier ids and the given date, and the counter advances by one |
| `Store.BmiCalculator.ViewHistory` | BMI.py:236-245 | "no history" exactly when the table is empty; otherwise all rows newest first |
| `Store.BmiCalculator.DeleteSelected` | BMI.py:288-303 | an empty selection or a refused confirmation changes nothing; otherwise every row matching any selected triple is deleted and the rest stay in order |
| `Store.BmiCalculator.ShowGraph` | BMI.py:319-340 | a blank name is refused; for the stripped name, zero rows give "no data", one row "insufficient data", two or more a plot of that person's rows oldest first |
| `Store.BmiCalculator.ClearHistory` | BMI.py:374-389 | an empty table gives "nothing to clear" and is unchanged; otherwise a refusal keeps the table, and a confirmation empties it and reports the count it had |
| `Store.ClearHistoryTwice` | BMI.py:374-389 | clearing twice with confirmation leaves an empty table and the second clear finds nothing to clear |
| `Store.SaveThenViewHistory` | BMI.py:221-241 | a saved row appears in the history as saved, with an id above every id in the table before |

## Left out

- Widgets, dialogs, focus and result-label styling are left out. The result colours and the text shown (BMI.py:215-219, 227) are not modelled. `Classification.Advice` holds the advice texts but nothing is proved about them.
- Plot rendering, reference lines and date-axis formatting (BMI.py:342-367) are left out. `Plot` carries the rows that would be drawn.
- The SQLite connection, commits, schema creation on an existing file, and `on_closing` (BMI.py:20-39, 397-402) are left out. `sqlite3.Error` handlers (BMI.py:231-232, 314-315, 369-370, 392-393) are left out too. They depend on the database's failure and rollback behaviour, which is not modelled, so every table operation here succeeds. The generic `Exception` handlers (BMI.py:233-234, 316-317, 371-372, 394-395) are left out as well; the one floating-point case that reaches the first of them is listed below.
- Rows already in an existing database file are not modelled. The table starts empty, so `Consistent()` holds only for rows this program wrote.
- `float()` is the parameter `parse`, so the accepted number syntax, `inf` and `nan` are not modelled.
- `Classification.Round2`: rounds half to even on the exact quotient `weight / height**2`. Python rounds the binary floating-point quotient. The two can differ when a float's representation error falls across a rounding boundary.
- `Store.BmiCalculator.CalculateBmi`: a positive height whose square underflows to 0.0 in floating point (for example "1e-200") passes every check. Then BMI.py:195 raises `ZeroDivisionError`, the handler at BMI.py:233-234 reports an error, and nothing is saved. Over exact reals the model computes a finite BMI and saves a row.
- `datetime.now()` and the date text format (BMI.py:223, 343) are replaced by the `now` parameter, an integer count of seconds. The text format's order is time order.
- `Store.BmiCalculator.ListAll`: SQL leaves the order of rows with equal dates unspecified. The contract promises only date order and a permutation. The body keeps such rows in table order.
- `Store.BmiCalculator.ListByName`: the same applies to rows with equal dates.
- `Store.BmiCalculator.ListAll`: returns whole rows, while the history query (BMI.py:239) selects only id, name, bmi, category and date. `ViewHistory` and `SaveThenViewHistory` therefore expose weight and height, which the program never reads back.
- `Store.BmiCalculator.ShowGraph`: `Plot` carries whole rows, while the trend query (BMI.py:329) selects only bmi and date.
- `Store.BmiCalculator.DeleteSelected`: the selected values go through the Treeview (BMI.py:296), which can change their types. Here a row matches its triple exactly. Removing the selected items from the on-screen tree is not modelled.
