# Madrid budget and payments loaders, in Dafny

This project models the two dataset adapters that turn the City of Madrid's
open-data CSV exports into the records of a generic budget web application:

- the **budget line parser** (`MadridBudgetLoader.parse_item`), which reads one
  row of a yearly expense or income file, budgeted or executed, picks the
  number format and the amount column, drops or zeroes known-bad records,
  remaps institutional and programme codes so that they stay consistent
  across reorganisations, and splits the economic code into article and item;
- `parse_spanish_amount`, which rewrites `1.234,56` as `1234.56`;
- `load_budget`, which appends two hand-written 2022 income rows to the
  caller's list of items before handing over to the generic loader;
- the **payments line parser** (`MadridPaymentsLoader.parse_item`), which
  remaps the institutional code with the same tables, cleans the payee name,
  appends the fiscal id to it, and suffixes the year onto the description;
- `get_institution_code`, the 3-digit to 1-digit institution rule.

Files:

- `wrappers.dfy`: `Option`, `Result` and the Python exceptions a loader can
  raise (`IndexError`, `KeyError`, `AttributeError`), plus `Collaborators.Env`,
  the record of helper functions whose code is not part of this model.
- `pystr.dfy`: the Python string operations the loaders use, with Python's
  semantics (`in`, `replace`, `strip`, `zfill`, negative slices, `int()`,
  `str()`, `dict.get(k, k)`), and lemmas about them.
- `madrid_budget_loader.dfy`: the budget loader's tables, `parse_item`,
  `parse_spanish_amount` and `load_budget` (a class `ItemList` stands for the
  caller's mutable list).
- `madrid_payments_loader.dfy`: the payments loader's tables, the payee
  clean-up, `parse_item` and `get_institution_code`.

Where the source raises (a row too short for the column it reads, a missing
description key, a filename without a `municipio/<digits>/` year), the model
returns `Err` with the matching exception instead of excluding the input.
`parse_item` returning nothing is `Ok(None)`. The year regex is modelled
by `SearchYear`, not assumed. The budget loader compares the year both as
text (`year == '2011'`) and as a number (`int(year) < 2015`). The model keeps
both comparisons, so a year spelt `02011` takes the numeric gates but not the
2011 table, exactly as the code does.

Strings are sequences of decoded characters. The source is Python 2, whose
`str` is a byte string; for valid UTF-8 text replacing `Ð` by `Ñ` byte-wise
and character-wise give the same result, and `strip()` removes the same six
ASCII whitespace characters. Lengths are another matter; see "## Left out".

## Model

| member | source | states |
|---|---|---|
| `MadridBudgetLoader.ParseItem` | loaders/madrid_budget_loader.py:13-268 | `parse_item`: `Err` where the source raises, `Ok(None)` where it returns nothing; its contract is carried by `HeaderRowSkipped`, `ParseErrors`, `AmountColumn`, `DroppedRows`, `CodeSplit`, `ExpenseInstitution` and `ItemProgrammeAndDescription` |
| `MadridBudgetLoader.ParseExpense` | loaders/madrid_budget_loader.py:158-238 | the expense branch; its contract is carried by `ParseErrors`, `AmountColumn`, `DroppedRows`, `CodeSplit`, `ExpenseInstitution` and `ItemProgrammeAndDescription` |
| `MadridBudgetLoader.ParseIncome` | loaders/madrid_budget_loader.py:240-268 | the income branch; its contract is carried by `ParseErrors`, `AmountColumn`, `DroppedRows`, `CodeSplit`, `ItemProgrammeAndDescription` and `CityIncomeRowParses` |
| `MadridBudgetLoader.HeaderRowSkipped` | loaders/madrid_budget_loader.py:143-145 | a row whose first field is `Centro` yields no record, whatever the filename |
| `MadridBudgetLoader.SearchYear` | loaders/madrid_budget_loader.py:150 | a year found is a non-empty digit string and `municipio/<year>/` occurs in the filename; with `SearchYearComplete`, `SearchYearFirstMatch` and `SearchYearNoMatch` it is exactly the leftmost match `re.search` returns |
| `MadridBudgetLoader.SearchYearComplete` | loaders/madrid_budget_loader.py:150 | every filename in which `municipio/<digits>/` occurs has a year, so `AttributeError` is raised only when no such text occurs |
| `MadridBudgetLoader.SearchYearFirstMatch` | loaders/madrid_budget_loader.py:150 | when `i` is the first position where `municipio/(\d+)/` matches, the year is the digit run after the marker at `i`: no earlier position is taken, none later is preferred |
| `MadridBudgetLoader.SearchYearNoMatch` | loaders/madrid_budget_loader.py:150 | a filename with no position where `municipio/(\d+)/` matches has no year |
| `MadridBudgetLoader.SearchYearAtStart` | loaders/madrid_budget_loader.py:150 | a filename beginning `municipio/<digits>/` yields exactly those digits |
| `MadridBudgetLoader.ParseErrors` | loaders/madrid_budget_loader.py:144-169 | the row raises `AttributeError` exactly when no year is in the filename, and `IndexError` exactly when the row is empty or shorter than the amount column (expense: actual < 16 fields, budgeted <= 10 or exactly 12; income: actual < 10, budgeted <= 6 or exactly 8; the income columns are read at lines 241-246) |
| `MadridBudgetLoader.AmountColumn` | loaders/madrid_budget_loader.py:150-169 | expense vs income and actual vs budgeted follow the `gastos.csv` and `/ejecucion_` substrings; the amount is read from column 15, 12 or 10 (expense) or 9, 8 or 6 (income, lines 245-246), as an English number before 2017 and a Spanish one from 2017; an income transfer article gives 0 (lines 253-255) |
| `MadridBudgetLoader.DroppedRows` | loaders/madrid_budget_loader.py:176-194 | a well-formed row is dropped exactly when it is the header, an expense of body `200` or of article `410/710/400/700` or (in 2022 only) of body `300`/`800` with economic code `22502`, or an income of body `200` (lines 249-250) |
| `MadridBudgetLoader.CodeSplit` | loaders/madrid_budget_loader.py:229-238 | article followed by item number gives back the economic column; the item number has min(2, length) characters; an expense's programme code has at least 5 characters (also lines 260-268 for income) |
| `MadridBudgetLoader.ExpenseInstitution` | loaders/madrid_budget_loader.py:174-204 | an expense's institutional code depends only on the year and the centre and section columns; it is the remapping of the collaborator's code, and that code unchanged from 2020 on |
| `MadridBudgetLoader.ItemProgrammeAndDescription` | loaders/madrid_budget_loader.py:206-227 | an expense's programme code is the remapped zero-filled programme column, unchanged from 2019 on; the description is the title-cased description column (column 9, or 5 for income) |
| `MadridBudgetLoader.InstitutionalRemap` | loaders/madrid_budget_loader.py:196-204 | the three institutional tables, each looked up once and gated by the year; its contract is carried by `InstitutionalIdentityFrom2020`, `InstitutionalUnknownKept`, `InstitutionalChain2015` and `InstitutionalChain2019` |
| `MadridBudgetLoader.InstitutionalIdentityFrom2020` | loaders/madrid_budget_loader.py:196-204 | from 2020 on the institutional code is left untouched |
| `MadridBudgetLoader.InstitutionalUnknownKept` | loaders/madrid_budget_loader.py:196-204 | a code that none of the tables applied in its year knows is left unchanged |
| `MadridBudgetLoader.InstitutionalChain2015` | loaders/madrid_budget_loader.py:196-204 | each table is looked up once: `0085` of 2015 goes through `0027` to `0180`; `0065` becomes `0130` in 2015 (through `0098`) and `0131` in 2016 |
| `MadridBudgetLoader.InstitutionalChain2019` | loaders/madrid_budget_loader.py:203-204 | `0002` of 2019 stops at `0100`, although the same table maps `0100` on to `0300` |
| `MadridBudgetLoader.ProgrammeRemap` | loaders/madrid_budget_loader.py:206-222 | the year's own programme table, compared as text, then the pre-2015 and pre-2019 tables, compared as numbers; its contract is carried by `ProgrammeIdentityFrom2019`, `ProgrammeSwap2011`, `ProgrammeSwap2012` and `ProgrammeRemapKeepsLength` |
| `MadridBudgetLoader.YearAmendment` | loaders/madrid_budget_loader.py:206-214 | the four string-gated year tables; its contract is carried by `YearAmendmentKeepsLength` |
| `MadridBudgetLoader.ProgrammeIdentityFrom2019` | loaders/madrid_budget_loader.py:206-222 | from 2019 on no programme table applies |
| `MadridBudgetLoader.ProgrammeSwap2011` | loaders/madrid_budget_loader.py:51-63 | in 2011 `91203` and `91204` swap and `91205` becomes `91204`; single lookups do not collapse the swap |
| `MadridBudgetLoader.ProgrammeSwap2012` | loaders/madrid_budget_loader.py:64-71 | in 2012 `91203` and `91204` swap |
| `MadridBudgetLoader.YearAmendmentKeepsLength` | loaders/madrid_budget_loader.py:206-214 | the tables of the years 2011, 2012, 2013 and 2015 map to 5-character codes, so they keep a code of 5 or more characters at 5 or more |
| `MadridBudgetLoader.ProgrammeRemapKeepsLength` | loaders/madrid_budget_loader.py:16-95 | every programme table maps to 5-character codes, so remapping keeps a code of 5 or more characters at 5 or more |
| `MadridBudgetLoader.ParseSpanishAmount` | loaders/madrid_budget_loader.py:279-281 | the English-number parser reads the character-by-character rewrite `EnglishForm` of the text (dots dropped, commas made dots); a text with neither dot nor comma is read as it is |
| `MadridBudgetLoader.SpanishToEnglishHasNoComma` | loaders/madrid_budget_loader.py:279-281 | the text handed to the English-number parser holds no comma; a text with neither dot nor comma is passed on unchanged |
| `MadridBudgetLoader.SpanishToEnglishIsCharwise` | loaders/madrid_budget_loader.py:279-281 | the two replacements equal a character-by-character rewrite: dots dropped, commas made dots, all else kept |
| `MadridBudgetLoader.CityIncomeRowParses` | loaders/madrid_budget_loader.py:240-268 | a 7-field row of centre `001` in a 2022 initial-budget income file, with a plain amount and no transfer article, parses to the income of its article, item, description and amount, or to nothing if that centre maps to body `2` |
| `MadridBudgetLoader.InjectedFilenameLiteral` | loaders/madrid_budget_loader.py:274-275 | the filename the amendment rows are parsed with is `municipio/2022/ingresos.csv` |
| `MadridBudgetLoader.VehicleTaxRowParses` | loaders/madrid_budget_loader.py:274 | the vehicle tax row does not raise: it is an initial-budget income of centre `001`, article `115`, item `00`, read from `-1000`, or nothing if that centre maps to body `2` |
| `MadridBudgetLoader.DrivewayRowParses` | loaders/madrid_budget_loader.py:275 | the driveway row does not raise: it is an initial-budget income of centre `001`, article `331`, item `00`, read from `-3000`, or nothing if that centre maps to body `2` |
| `MadridBudgetLoader.ItemList.Append` | loaders/madrid_budget_loader.py:274 | `items.append(x)`: the list gains `x` at its end |
| `MadridBudgetLoader.LoadBudget` | loaders/madrid_budget_loader.py:272-277 | for year `2022` the list gains exactly the two injected records, in order, after its earlier items; other years leave it unchanged |
| `MadridPaymentsLoader.InstitutionalRemap` | loaders/madrid_payments_loader.py:87-94 | the payments loader's own three tables and year gates; its contract is carried by `RemapMatchesBudgetLoader` and `PaymentInstitution` |
| `MadridPaymentsLoader.RemapMatchesBudgetLoader` | loaders/madrid_payments_loader.py:14-94 | the payments loader's own tables and year gates give the same institutional code as the budget loader's for every year and code |
| `MadridPaymentsLoader.PolicyKey` | loaders/madrid_payments_loader.py:60-61 | the policy id, the first two characters of the zero-filled programme code; its contract is carried by `PolicyKeyShape` |
| `MadridPaymentsLoader.PolicyKeyShape` | loaders/madrid_payments_loader.py:60-61 | the policy key has 2 characters: the first two of a programme code of 5 or more, `0` and its first character for 4, `00` for shorter unsigned codes |
| `MadridPaymentsLoader.DropTrailingSpaceDots` | loaders/madrid_payments_loader.py:74 | the result is a prefix of the text, what was removed is a run of `" ."` pairs, and the result no longer ends with `" ."` |
| `MadridPaymentsLoader.DropLeadingDotsSpaces` | loaders/madrid_payments_loader.py:75 | the result is a suffix of the text, only dots and spaces were removed, and it starts with neither |
| `MadridPaymentsLoader.RepairRemovesGarbled` | loaders/madrid_payments_loader.py:72 | after the three replacements no `Ð`, no `Ë` and no `'-` is left |
| `MadridPaymentsLoader.TrimPunctuation` | loaders/madrid_payments_loader.py:74-75 | the two punctuation trims leave a piece of the text that starts with neither `.` nor a space and does not end with `" ."`; what is absent from the text stays absent |
| `MadridPaymentsLoader.CleanPayee` | loaders/madrid_payments_loader.py:71-75 | the payee clean-up; its contract is carried by `CleanPayeeShape`, `RepairRemovesGarbled`, `TrimPunctuation`, `DropTrailingSpaceDots` and `DropLeadingDotsSpaces` |
| `MadridPaymentsLoader.CleanPayeeShape` | loaders/madrid_payments_loader.py:71-75 | the cleaned payee is a piece of the repaired name, does not start with `.` or a space, does not end with `" ."`, and holds no `Ð`, `Ë` or `'-` |
| `MadridPaymentsLoader.ParseItem` | loaders/madrid_payments_loader.py:10-106 | `parse_item`: `Err` where the source raises; its contract is carried by `PaymentErrors`, `PaymentPayee`, `PaymentDescription`, `DescriptionYearRoundTrip` and `PaymentInstitution` |
| `MadridPaymentsLoader.PaymentErrors` | loaders/madrid_payments_loader.py:60-105 | the row raises `KeyError` exactly when the policy or (for an empty description) the heading has no description, and `IndexError` exactly when the next column read is missing |
| `MadridPaymentsLoader.PaymentPayee` | loaders/madrid_payments_loader.py:77-105 | area is the policy's description; payee is the clean name, `" ("`, the fiscal id and `")"`; the stored fiscal id is its prefix of length min(15, length); amount read from column 6 |
| `MadridPaymentsLoader.PaymentDescription` | loaders/madrid_payments_loader.py:64-104 | the description is the stripped column 3, or the expense heading keyed by the first 3 characters of column 2 when that is empty, followed by `" (<year>)"` |
| `MadridPaymentsLoader.DescriptionYearRoundTrip` | loaders/madrid_payments_loader.py:104 | a description ends with `" ("`, then digits as many as `str(year)` has that read back as the budget's year, then `")"` |
| `MadridPaymentsLoader.PaymentInstitution` | loaders/madrid_payments_loader.py:81-94 | a payment's institutional code is the budget loader's remapping of the collaborator's code for the zero-filled centre, that code unchanged from 2020 on |
| `MadridPaymentsLoader.InstitutionCode` | loaders/madrid_payments_loader.py:110-112 | `get_institution_code`; its contract is carried by `InstitutionCodeRule` |
| `MadridPaymentsLoader.InstitutionCodeRule` | loaders/madrid_payments_loader.py:108-112 | a 3-character code gives its third character, `001` gives `0`; among codes sharing their first two characters only `000` and `001` collide; shorter codes raise `IndexError` |

## Left out

- `MadridUtils.map_institutional_code`, `MadridUtils.get_institution_code`,
  `_read_english_number` and `_spanish_titlecase`: their code is not part of
  this model; they are the fields of `Collaborators.Env`, total functions
  about which nothing is assumed (an exception they might raise is not modelled).
- Amounts are the integers `_read_english_number` returns; the `Decimal`
  arithmetic inside it and the `amount/100` of the log lines are not modelled.
- The `print` log lines.
- The ISO-8859-1 decoding and UTF-8 encoding of description columns: the
  column goes to the title-casing collaborator as it is.
- `Budget.objects.get_all_descriptions`: the ORM lookup is replaced by the two
  description maps of `MadridPaymentsLoader.Budget`; the `entity` argument
  that selects them is not modelled.
- The base classes (`SimpleBudgetLoader`, `PaymentsLoader`), the generic
  `load_budget` that `load_budget` delegates to, the CSV reading and
  `_get_delimiter` (which returns `';'`).
- The payment record's `fc_code`, `ec_code` and `date` fields, always `None`.
- `settings.py`, `static/javascripts/admin/execution.js` and
  `views/guidedvisit.py`: configuration, browser code and a template view,
  with no behaviour to verify.
- `MadridPaymentsLoader.DropTrailingSpaceDots`: treats the regex `$` as the end
  of the text only. Python's `$` also matches before a final newline, but
  the text has just been stripped, so it has none.
- Lengths count characters, not bytes. Python 2 counts the bytes of a byte
  string, in `fiscal_id[:15]`, `line[2][0:3]`, `fc_code[:2]`, `zfill`,
  `ec_code[:-2]` and `ec_code[-2:]`. The model's `Take`, `ZFill`, `PolicyKey`,
  `AllButLast` and `LastN` count characters, so the two agree only for ASCII
  codes and ids. A fiscal id holding `Ñ` (two bytes in UTF-8) is cut earlier by
  the source than by the model, possibly inside a character.
