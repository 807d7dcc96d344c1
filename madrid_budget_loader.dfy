/**
 * The budget line parser of the City of Madrid adapter (`MadridBudgetLoader`):
 * one CSV row of a yearly expense or income file, budgeted or executed,
 * becomes a normalised budget item, is dropped, or raises.
 */
module MadridBudgetLoader {
  import opened Wrappers
  import opened PyStr
  import opened Collaborators

  // ---------------------------------------------------------------------------
  // Code tables (old code: new code)
  // ---------------------------------------------------------------------------

  /** Programme codes renamed by the 2015 change of the budget structure law. */
  const ProgrammePre2015: map<string, string> := map[
    "13304" := "13402", "13305" := "13403", "13401" := "13510", "13501" := "13610",
    "15201" := "15210", "15501" := "15321", "15502" := "15322", "15504" := "15340",
    "16101" := "16001", "16201" := "16210", "16202" := "16230", "17203" := "17211",
    "17201" := "17212", "23000" := "23100", "23202" := "23101", "23301" := "23103",
    "24000" := "24100", "31000" := "31100", "31320" := "31101", "31321" := "31102",
    "31401" := "49300", "32101" := "32301", "32401" := "32601", "33201" := "33210",
    "33404" := "92402", "33403" := "33601", "43110" := "43301", "44101" := "44110",
    "91100" := "91230", "91101" := "91240", "92701" := "92202", "92301" := "92310"
  ]

  const Programme2011: map<string, string> := map[
    "13303" := "13302", "17102" := "16601", "23103" := "23106", "23104" := "23106",
    "23105" := "23107", "23201" := "23202", "23101" := "23290", "91203" := "91204",
    "91204" := "91203", "91205" := "91204", "92202" := "92208"
  ]

  const Programme2012: map<string, string> := map[
    "33404" := "33403", "91203" := "91204", "91204" := "91203", "91205" := "91204",
    "92202" := "92208"
  ]

  const Programme2013: map<string, string> := map[
    "33404" := "33403", "91203" := "91204", "91205" := "91204", "91207" := "91205"
  ]

  const Programme2015: map<string, string> := map[
    "15341" := "15340", "23104" := "23200", "33404" := "92402"
  ]

  const ProgrammePre2019: map<string, string> := map[
    "49102" := "4910A", "91210" := "9121A", "91211" := "9121B", "91214" := "9121C",
    "91215" := "9121D", "91217" := "9121E", "91219" := "9121F", "92010" := "9201A"
  ]

  /** Sections of the City's organisation chart as they were up to 2015. */
  const Institutional2015: map<string, string> := map[
    "0085" := "0027", "0033" := "0037", "0041" := "0047", "0025" := "0057",
    "0032" := "0067", "0071" := "0077", "0035" := "0087", "0015" := "0097",
    "0065" := "0098"
  ]

  const InstitutionalPre2019: map<string, string> := map[
    "0011" := "0020", "0075" := "007A"
  ]

  const InstitutionalPre2020: map<string, string> := map[
    "0002" := "0100", "0003" := "0103", "0010" := "0101", "0012" := "0102",
    "0020" := "0110", "0021" := "0111", "0023" := "0112", "0027" := "0180",
    "0031" := "0161", "0055" := "0190", "0057" := "0170", "0060" := "0140",
    "0065" := "0131", "0066" := "0132", "0067" := "0120", "0075" := "0141",
    "0087" := "0160", "0097" := "0150", "0098" := "0130", "0100" := "0300",
    "0110" := "0310", "0120" := "0320", "0130" := "013A"
  ]

  /** Economic articles of transfers between the City and its own bodies. */
  const TransferArticles: set<string> := {"410", "710", "400", "700"}

  // ---------------------------------------------------------------------------
  // Records
  // ---------------------------------------------------------------------------

  /** The record handed to the generic budget loader. */
  datatype BudgetItem =
    | Expense(isActual: bool, fcCode: string, ecCode: string, icCode: string,
              itemNumber: string, description: string, amount: int)
    | Income(isActual: bool, ecCode: string, icCode: string,
             itemNumber: string, description: string, amount: int)

  // ---------------------------------------------------------------------------
  // The fiscal year in the filename: re.search(r'municipio/(\d+)/', filename)
  // ---------------------------------------------------------------------------

  const YearMarker: string := "municipio/"

  /** The longest run of decimal digits at the start of `s`. */
  function DigitRun(s: string): (r: string)
    ensures r <= s && AllDigits(r)
    ensures |r| == |s| || !IsDigit(s[|r|])
    decreases |s|
  {
    if |s| > 0 && IsDigit(s[0]) then [s[0]] + DigitRun(s[1..]) else []
  }

  /**
   * The match of `(\d+)/` anchored at the start of `s`. The digit run is
   * greedy and can only be followed by `/` at its end, so backtracking to a
   * shorter run never yields a match.
   */
  function YearAt(s: string): Option<string> {
    var d := DigitRun(s);
    if |d| > 0 && |d| < |s| && s[|d|] == '/' then Some(d) else None
  }

  /** The first group of the leftmost match of `municipio/(\d+)/`, if any. */
  function SearchYear(filename: string): (r: Option<string>)
    ensures r.Some? ==>
      |r.value| > 0 && AllDigits(r.value) && Contains(filename, YearMarker + r.value + "/")
    decreases |filename|
  {
    if filename == [] then None
    else if YearMarker <= filename && YearAt(filename[|YearMarker|..]).Some? then
      var y := YearAt(filename[|YearMarker|..]).value;
      assert (YearMarker + y + "/") <= filename by {
        var t := filename[|YearMarker|..];
        assert t[..|y|] == y && t[|y|] == '/';
        assert filename[..|YearMarker| + |y| + 1] == YearMarker + y + "/";
      }
      Some(y)
    else SearchYear(filename[1..])
  }

  lemma {:induction false} DigitRunStopsAtSlash(y: string, rest: string)
    requires AllDigits(y)
    ensures DigitRun(y + "/" + rest) == y
    decreases |y|
  {
    if |y| > 0 {
      assert (y + "/" + rest)[1..] == y[1..] + "/" + rest;
      DigitRunStopsAtSlash(y[1..], rest);
      assert y == [y[0]] + y[1..];
    }
  }

  /** A filename that begins `municipio/<digits>/` yields those digits. */
  lemma SearchYearAtStart(y: string, rest: string)
    requires |y| > 0 && AllDigits(y)
    ensures SearchYear(YearMarker + y + "/" + rest) == Some(y)
  {
    var f := YearMarker + y + "/" + rest;
    assert f[|YearMarker|..] == y + "/" + rest;
    DigitRunStopsAtSlash(y, rest);
  }

  /** `municipio/(\d+)/` matches at position `j` of `f`. */
  predicate MatchesAt(f: string, j: nat)
    requires j <= |f|
  {
    YearMarker <= f[j..] && YearAt(f[j + |YearMarker|..]).Some?
  }

  /** The positions of `f[1..]` are those of `f` shifted by one. */
  lemma MatchesAtTail(f: string, j: nat)
    requires 0 < j <= |f|
    ensures MatchesAt(f[1..], j - 1) == MatchesAt(f, j)
  {
    assert f[1..][j - 1..] == f[j..];
  }

  /**
   * `re.search` returns the leftmost match: when the first position holding a
   * match is `i`, the year is the digit run that follows the marker there.
   */
  lemma {:induction false} SearchYearFirstMatch(f: string, i: nat)
    requires i <= |f| && MatchesAt(f, i)
    requires forall j :: 0 <= j < i ==> !MatchesAt(f, j)
    ensures SearchYear(f) == YearAt(f[i + |YearMarker|..])
    decreases i
  {
    if i == 0 {
      assert f[0..] == f;
    } else {
      assert !MatchesAt(f, 0);
      assert f[0..] == f;
      forall j | 0 <= j < i - 1
        ensures !MatchesAt(f[1..], j)
      {
        MatchesAtTail(f, j + 1);
      }
      MatchesAtTail(f, i);
      SearchYearFirstMatch(f[1..], i - 1);
      assert f[1..][i - 1 + |YearMarker|..] == f[i + |YearMarker|..];
    }
  }

  /** A filename with no match anywhere has no year. */
  lemma {:induction false} SearchYearNoMatch(f: string)
    requires forall j :: 0 <= j <= |f| ==> !MatchesAt(f, j)
    ensures SearchYear(f) == None
    decreases |f|
  {
    if f != [] {
      assert f[0..] == f;
      assert !MatchesAt(f, 0);
      forall j | 0 <= j <= |f| - 1
        ensures !MatchesAt(f[1..], j)
      {
        MatchesAtTail(f, j + 1);
      }
      SearchYearNoMatch(f[1..]);
    }
  }

  /** Every occurrence of `municipio/<digits>/` in the filename is found. */
  lemma {:induction false} SearchYearComplete(f: string, y: string)
    requires |y| > 0 && AllDigits(y) && Contains(f, YearMarker + y + "/")
    ensures SearchYear(f).Some?
    decreases |f|
  {
    var m := YearMarker + y + "/";
    if m <= f {
      var rest := f[|m|..];
      assert f == YearMarker + y + "/" + rest;
      SearchYearAtStart(y, rest);
    } else {
      SearchYearComplete(f[1..], y);
    }
  }

  // ---------------------------------------------------------------------------
  // Amounts
  // ---------------------------------------------------------------------------

  /** The text `parse_spanish_amount` hands on: thousands dots dropped, decimal comma made a dot. */
  function SpanishToEnglish(amount: string): string {
    Replace(Replace(amount, ".", ""), ",", ".")
  }

  /**
   * `parse_spanish_amount`: the English-number parser reads the text with its
   * dots dropped and its commas made dots; a text with neither is read as it is.
   */
  function ParseSpanishAmount(env: Env, amount: string): (r: int)
    ensures r == env.readEnglishNumber(EnglishForm(amount))
    ensures '.' !in amount && ',' !in amount ==> r == env.readEnglishNumber(amount)
  {
    SpanishToEnglishIsCharwise(amount);
    SpanishToEnglishHasNoComma(amount);
    env.readEnglishNumber(SpanishToEnglish(amount))
  }

  /** A character-by-character reading of the Spanish-to-English rewrite. */
  function EnglishForm(s: string): string
    decreases |s|
  {
    if s == [] then []
    else (if s[0] == '.' then [] else if s[0] == ',' then "." else [s[0]]) + EnglishForm(s[1..])
  }

  lemma {:induction false} SpanishToEnglishIsCharwise(s: string)
    ensures SpanishToEnglish(s) == EnglishForm(s)
    decreases |s|
  {
    if s != [] {
      var head: string := if s[0] == '.' then [] else [s[0]];
      CharPrefix('.', s);
      assert Replace(s, ".", "") == head + Replace(s[1..], ".", "");
      ReplaceCharConcat(head, Replace(s[1..], ".", ""), ',', ".");
      CharPrefix(',', head);
      if head != [] {
        assert head[1..] == [];
      }
      SpanishToEnglishIsCharwise(s[1..]);
    }
  }

  /** No comma reaches the English-number parser, and nothing else is rewritten. */
  lemma SpanishToEnglishHasNoComma(s: string)
    ensures ',' !in SpanishToEnglish(s)
    ensures '.' !in s && ',' !in s ==> SpanishToEnglish(s) == s
  {
    ReplaceRemovesPattern(Replace(s, ".", ""), ",", ".");
    ContainsChar(SpanishToEnglish(s), ',');
    SpanishToEnglishIsCharwise(s);
    if '.' !in s && ',' !in s {
      EnglishFormUnchanged(s);
    }
  }

  lemma {:induction false} EnglishFormUnchanged(s: string)
    requires '.' !in s && ',' !in s
    ensures EnglishForm(s) == s
    decreases |s|
  {
    if s != [] {
      assert forall i :: 1 <= i < |s| ==> s[1..][i - 1] == s[i];
      EnglishFormUnchanged(s[1..]);
      assert s == [s[0]] + s[1..];
    }
  }

  /** `parse_amount`: English numbers up to 2016, Spanish ones from 2017. */
  function ParseAmount(env: Env, year: string, raw: string): int
    requires AllDigits(year)
  {
    if DigitsValue(year) < 2017 then env.readEnglishNumber(raw) else ParseSpanishAmount(env, raw)
  }

  /** The expense column holding the amount: executed, amended budget, or initial budget. */
  function ExpenseAmountColumn(isActual: bool, fields: nat): nat {
    if isActual then 15 else if fields > 11 then 12 else 10
  }

  /** The income column holding the amount. */
  function IncomeAmountColumn(isActual: bool, fields: nat): nat {
    if isActual then 9 else if fields > 7 then 8 else 6
  }

  // ---------------------------------------------------------------------------
  // Code remapping
  // ---------------------------------------------------------------------------

  /** The three institutional tables, each looked up once, gated by the fiscal year. */
  function InstitutionalRemap(year: int, code: string): string {
    var c1 := if year <= 2015 then Get(Institutional2015, code) else code;
    var c2 := if year < 2019 then Get(InstitutionalPre2019, c1) else c1;
    if year < 2020 then Get(InstitutionalPre2020, c2) else c2
  }

  /** The amendment table of the file's own year, the year compared as text. */
  function YearAmendment(year: string, fc: string): string {
    var f1 := if year == "2011" then Get(Programme2011, fc) else fc;
    var f2 := if year == "2012" then Get(Programme2012, f1) else f1;
    var f3 := if year == "2013" then Get(Programme2013, f2) else f2;
    if year == "2015" then Get(Programme2015, f3) else f3
  }

  /**
   * The programme tables: the year's own amendments, then the pre-2015 and
   * pre-2019 tables, the year compared as a number.
   */
  function ProgrammeRemap(year: string, fc: string): string
    requires AllDigits(year)
  {
    var f4 := YearAmendment(year, fc);
    var f5 := if DigitsValue(year) < 2015 then Get(ProgrammePre2015, f4) else f4;
    if DigitsValue(year) < 2019 then Get(ProgrammePre2019, f5) else f5
  }

  // ---------------------------------------------------------------------------
  // parse_item
  // ---------------------------------------------------------------------------

  function ParseExpense(env: Env, year: string, isActual: bool, line: seq<string>): Result<Option<BudgetItem>>
    requires |year| > 0 && AllDigits(year)
  {
    if |line| <= 8 then Err(IndexError)
    else
      var fc := ZFill(line[4], 5);
      var ec := line[8];
      var column := ExpenseAmountColumn(isActual, |line|);
      if |line| <= column then Err(IndexError)
      else
        var amount := ParseAmount(env, year, line[column]);
        var ic := env.mapInstitutionalCode(ZFill(line[0], 3) + ZFill(line[2], 3));
        if ic == "200" then Ok(None)
        else if AllButLast(ec, 2) in TransferArticles then Ok(None)
        else if year == "2022" && (ic == "300" || ic == "800") && ec == "22502" then Ok(None)
        else
          Ok(Some(Expense(isActual, ProgrammeRemap(year, fc), AllButLast(ec, 2),
                          InstitutionalRemap(DigitsValue(year), ic), LastN(ec, 2),
                          env.spanishTitlecase(line[9]), amount)))
  }

  function ParseIncome(env: Env, year: string, isActual: bool, line: seq<string>): Result<Option<BudgetItem>>
    requires |line| > 0 && |year| > 0 && AllDigits(year)
  {
    if |line| <= 4 then Err(IndexError)
    else
      var ec := line[4];
      var ic := env.getInstitutionCode(ZFill(line[0], 3)) + "00";
      var column := IncomeAmountColumn(isActual, |line|);
      if |line| <= column then Err(IndexError)
      else
        var amount := ParseAmount(env, year, line[column]);
        if ic == "200" then Ok(None)
        else
          var kept := if AllButLast(ec, 2) in TransferArticles then 0 else amount;
          Ok(Some(Income(isActual, AllButLast(ec, 2), ic, LastN(ec, 2),
                         env.spanishTitlecase(line[5]), kept)))
  }

  /**
   * `MadridBudgetLoader.parse_item`: `Ok(None)` where the source returns
   * nothing, `Err` where it raises.
   */
  function ParseItem(env: Env, filename: string, line: seq<string>): Result<Option<BudgetItem>> {
    if |line| == 0 then Err(IndexError)
    else if line[0] == "Centro" then Ok(None)
    else match SearchYear(filename)
      case None => Err(AttributeError)
      case Some(year) =>
        var isActual := Contains(filename, "/ejecucion_");
        if Contains(filename, "gastos.csv") then ParseExpense(env, year, isActual, line)
        else ParseIncome(env, year, isActual, line)
  }

  // ---------------------------------------------------------------------------
  // Properties of parse_item
  // ---------------------------------------------------------------------------

  /** The header row, whose first field is `Centro`, produces no record. */
  lemma HeaderRowSkipped(env: Env, filename: string, line: seq<string>)
    requires |line| > 0 && line[0] == "Centro"
    ensures ParseItem(env, filename, line) == Ok(None)
  {
  }

  /**
   * When the source raises: an empty row, a filename without a year, or a
   * row too short for the amount column. A budgeted expense row of exactly
   * 12 fields reads column 12 and so raises.
   */
  lemma ParseErrors(env: Env, filename: string, line: seq<string>)
    ensures ParseItem(env, filename, line) == Err(AttributeError) <==>
      |line| > 0 && line[0] != "Centro" && SearchYear(filename) == None
    ensures ParseItem(env, filename, line) == Err(IndexError) <==>
      |line| == 0 ||
      (line[0] != "Centro" && SearchYear(filename).Some? &&
       var actual := Contains(filename, "/ejecucion_");
       if Contains(filename, "gastos.csv") then
         (if actual then |line| < 16 else |line| <= 10 || |line| == 12)
       else
         (if actual then |line| < 10 else |line| <= 6 || |line| == 8))
  {
  }

  /**
   * The amount is read from the column that the file kind and the row length
   * select, as an English number up to 2016 and a Spanish one from 2017;
   * income transfers from the City's own bodies are kept with amount 0.
   */
  lemma AmountColumn(env: Env, filename: string, line: seq<string>)
    requires ParseItem(env, filename, line).Ok? && ParseItem(env, filename, line).value.Some?
    ensures SearchYear(filename).Some?
    ensures var item := ParseItem(env, filename, line).value.value;
      var year := SearchYear(filename).value;
      var raw :=
        if item.Expense? then
          (if item.isActual then line[15] else if |line| > 11 then line[12] else line[10])
        else
          (if item.isActual then line[9] else if |line| > 7 then line[8] else line[6]);
      && (item.Expense? <==> Contains(filename, "gastos.csv"))
      && (item.isActual <==> Contains(filename, "/ejecucion_"))
      && item.amount ==
           if item.Income? && AllButLast(line[4], 2) in TransferArticles then 0
           else if DigitsValue(year) < 2017 then env.readEnglishNumber(raw)
           else env.readEnglishNumber(SpanishToEnglish(raw))
  {
  }

  /**
   * Exactly which well-formed rows are dropped: expenses of body `200`, of a
   * transfer article, or of the two 2022 amendments; incomes of body `200`.
   */
  lemma DroppedRows(env: Env, filename: string, line: seq<string>)
    requires ParseItem(env, filename, line).Ok? && |line| > 0
    ensures ParseItem(env, filename, line) == Ok(None) <==>
      line[0] == "Centro" ||
      (if Contains(filename, "gastos.csv") then
         var ic := env.mapInstitutionalCode(ZFill(line[0], 3) + ZFill(line[2], 3));
         || ic == "200"
         || AllButLast(line[8], 2) in {"410", "710", "400", "700"}
         || (SearchYear(filename) == Some("2022") && (ic == "300" || ic == "800") && line[8] == "22502")
       else
         env.getInstitutionCode(ZFill(line[0], 3)) + "00" == "200")
  {
  }

  /**
   * The economic code splits into the article (all but the last two
   * characters) and the item number (the last two), which put it back
   * together; the programme code has at least five characters.
   */
  lemma CodeSplit(env: Env, filename: string, line: seq<string>)
    requires ParseItem(env, filename, line).Ok? && ParseItem(env, filename, line).value.Some?
    ensures var item := ParseItem(env, filename, line).value.value;
      var ec := if item.Expense? then line[8] else line[4];
      && item.ecCode + item.itemNumber == ec
      && |item.itemNumber| == (if |ec| >= 2 then 2 else |ec|)
      && (item.Expense? ==> |item.fcCode| >= 5)
  {
    var item := ParseItem(env, filename, line).value.value;
    var year := SearchYear(filename).value;
    if item.Expense? {
      SplitLastJoins(line[8], 2);
      ProgrammeRemapKeepsLength(year, ZFill(line[4], 5));
    } else {
      SplitLastJoins(line[4], 2);
    }
  }

  /**
   * The institutional code of an expense depends on the fiscal year and on
   * the centre and section columns only, and from 2020 on it is the
   * collaborator's code unchanged.
   */
  lemma ExpenseInstitution(env: Env, filename: string, line: seq<string>, line': seq<string>)
    requires Contains(filename, "gastos.csv")
    requires ParseItem(env, filename, line).Ok? && ParseItem(env, filename, line).value.Some?
    requires ParseItem(env, filename, line').Ok? && ParseItem(env, filename, line').value.Some?
    requires line[0] == line'[0] && line[2] == line'[2]
    ensures ParseItem(env, filename, line).value.value.icCode
         == ParseItem(env, filename, line').value.value.icCode
    ensures var code := env.mapInstitutionalCode(ZFill(line[0], 3) + ZFill(line[2], 3));
      && ParseItem(env, filename, line).value.value.icCode
           == InstitutionalRemap(DigitsValue(SearchYear(filename).value), code)
      && (DigitsValue(SearchYear(filename).value) >= 2020 ==>
           ParseItem(env, filename, line).value.value.icCode == code)
  {
  }

  /**
   * The programme code of an expense is the remapped zero-filled programme
   * column, unchanged from 2019 on; the description is the title-cased
   * description column of the file kind.
   */
  lemma ItemProgrammeAndDescription(env: Env, filename: string, line: seq<string>)
    requires ParseItem(env, filename, line).Ok? && ParseItem(env, filename, line).value.Some?
    ensures SearchYear(filename).Some? && |line| > 6
    ensures ParseItem(env, filename, line).value.value.Expense? ==> |line| > 10
    ensures var item := ParseItem(env, filename, line).value.value;
      var year := SearchYear(filename).value;
      && item.description == env.spanishTitlecase(if item.Expense? then line[9] else line[5])
      && (item.Expense? ==> item.fcCode == ProgrammeRemap(year, ZFill(line[4], 5)))
      && (item.Expense? && DigitsValue(year) >= 2019 ==> item.fcCode == ZFill(line[4], 5))
  {
    var year := SearchYear(filename).value;
    if DigitsValue(year) >= 2019 {
      ProgrammeIdentityFrom2019(year, ZFill(line[4], 5));
    }
  }

  // ---------------------------------------------------------------------------
  // Properties of the remapping chains
  // ---------------------------------------------------------------------------

  /** From 2020 on no institutional table applies. */
  lemma InstitutionalIdentityFrom2020(year: int, code: string)
    requires year >= 2020
    ensures InstitutionalRemap(year, code) == code
  {
  }

  /** A code that none of the tables applied in its year knows is left unchanged. */
  lemma InstitutionalUnknownKept(year: int, code: string)
    requires year > 2015 || code !in Institutional2015
    requires year >= 2019 || code !in InstitutionalPre2019
    requires year >= 2020 || code !in InstitutionalPre2020
    ensures InstitutionalRemap(year, code) == code
  {
  }

  /**
   * Each table is looked up once: `0085` of 2015 goes through `0027` to
   * `0180`, and `0065` becomes `0130` in 2015 (through `0098`) but `0131` in
   * 2016.
   */
  lemma InstitutionalChain2015()
    ensures InstitutionalRemap(2015, "0085") == "0180"
    ensures InstitutionalRemap(2015, "0065") == "0130" && InstitutionalRemap(2016, "0065") == "0131"
  {
    assert Get(Institutional2015, "0085") == "0027" && Get(Institutional2015, "0065") == "0098";
    assert "0027" !in InstitutionalPre2019 && "0098" !in InstitutionalPre2019 && "0065" !in InstitutionalPre2019;
  }

  /** `0002` of 2019 stops at `0100`, although the same table maps `0100` on to `0300`. */
  lemma InstitutionalChain2019()
    ensures InstitutionalRemap(2019, "0002") == "0100" && InstitutionalPre2020["0100"] == "0300"
  {
  }

  /** From 2019 on no programme table applies. */
  lemma ProgrammeIdentityFrom2019(year: string, fc: string)
    requires AllDigits(year) && DigitsValue(year) >= 2019
    ensures ProgrammeRemap(year, fc) == fc
  {
    if year == "2011" || year == "2012" || year == "2013" || year == "2015" {
      YearValues();
    }
  }

  lemma YearValues()
    ensures DigitsValue("2011") == 2011 && DigitsValue("2012") == 2012
    ensures DigitsValue("2013") == 2013 && DigitsValue("2015") == 2015
  {
    assert "2011"[..3] == "201" && "2012"[..3] == "201" && "2013"[..3] == "201" && "2015"[..3] == "201";
    assert "201"[..2] == "20" && "20"[..1] == "2" && "2"[..0] == "";
  }

  /** In 2011 and 2012 the year's own table applies, then the pre-2015 and pre-2019 ones. */
  lemma RemapEarlyYear(year: string, table: map<string, string>, fc: string)
    requires (year == "2011" && table == Programme2011) || (year == "2012" && table == Programme2012)
    ensures ProgrammeRemap(year, fc) == Get(ProgrammePre2019, Get(ProgrammePre2015, Get(table, fc)))
  {
    YearValues();
  }

  /** Neither code of the swapped pair is renamed again by the pre-2015 or pre-2019 table. */
  lemma SwappedPairKept()
    ensures Get(ProgrammePre2015, "91203") == "91203" && Get(ProgrammePre2015, "91204") == "91204"
    ensures Get(ProgrammePre2019, "91203") == "91203" && Get(ProgrammePre2019, "91204") == "91204"
  {
    assert "91203" !in ProgrammePre2015 && "91204" !in ProgrammePre2015 by { Pre2015LacksPair(); }
  }

  lemma Pre2015LacksPair()
    ensures "91203" !in ProgrammePre2015 && "91204" !in ProgrammePre2015
  {
  }

  /**
   * The 2011 table swaps `91203` and `91204`; being looked up once, the swap
   * does not collapse either code onto the other.
   */
  lemma ProgrammeSwap2011()
    ensures ProgrammeRemap("2011", "91203") == "91204" && ProgrammeRemap("2011", "91204") == "91203"
    ensures ProgrammeRemap("2011", "91205") == "91204"
  {
    SwappedPairKept();
    assert Get(Programme2011, "91203") == "91204" && Get(Programme2011, "91204") == "91203";
    assert Get(Programme2011, "91205") == "91204";
    RemapEarlyYear("2011", Programme2011, "91203");
    RemapEarlyYear("2011", Programme2011, "91204");
    RemapEarlyYear("2011", Programme2011, "91205");
  }

  /** The 2012 table swaps the same pair, again without collapsing it. */
  lemma ProgrammeSwap2012()
    ensures ProgrammeRemap("2012", "91203") == "91204" && ProgrammeRemap("2012", "91204") == "91203"
  {
    SwappedPairKept();
    assert Get(Programme2012, "91203") == "91204" && Get(Programme2012, "91204") == "91203";
    RemapEarlyYear("2012", Programme2012, "91203");
    RemapEarlyYear("2012", Programme2012, "91204");
  }

  /** Every value of the table is a five-character code. */
  predicate FiveLong(m: map<string, string>) {
    forall k :: k in m ==> |m[k]| == 5
  }

  lemma Pre2015FiveLong()
    ensures FiveLong(ProgrammePre2015)
  {
  }

  lemma Year2011FiveLong()
    ensures FiveLong(Programme2011)
  {
  }

  lemma Year2012FiveLong()
    ensures FiveLong(Programme2012)
  {
  }

  lemma Year2013FiveLong()
    ensures FiveLong(Programme2013)
  {
  }

  lemma Year2015FiveLong()
    ensures FiveLong(Programme2015)
  {
  }

  lemma Pre2019FiveLong()
    ensures FiveLong(ProgrammePre2019)
  {
  }

  /** A lookup in a table of five-character codes keeps a code at five characters or more. */
  lemma GetKeepsFive(m: map<string, string>, fc: string)
    requires FiveLong(m) && |fc| >= 5
    ensures |Get(m, fc)| >= 5
  {
  }

  /** The amendment tables map to five-character codes. */
  lemma YearAmendmentKeepsLength(year: string, fc: string)
    requires |fc| >= 5
    ensures |YearAmendment(year, fc)| >= 5
  {
    var f1 := if year == "2011" then Get(Programme2011, fc) else fc;
    assert |f1| >= 5 by { Year2011FiveLong(); GetKeepsFive(Programme2011, fc); }
    var f2 := if year == "2012" then Get(Programme2012, f1) else f1;
    assert |f2| >= 5 by { Year2012FiveLong(); GetKeepsFive(Programme2012, f1); }
    var f3 := if year == "2013" then Get(Programme2013, f2) else f2;
    assert |f3| >= 5 by { Year2013FiveLong(); GetKeepsFive(Programme2013, f2); }
    Year2015FiveLong();
    GetKeepsFive(Programme2015, f3);
  }

  /** Every programme table maps to five-character codes, so no lookup shortens a code. */
  lemma ProgrammeRemapKeepsLength(year: string, fc: string)
    requires AllDigits(year) && |fc| >= 5
    ensures |ProgrammeRemap(year, fc)| >= 5
  {
    var f4 := YearAmendment(year, fc);
    YearAmendmentKeepsLength(year, fc);
    var f5 := if DigitsValue(year) < 2015 then Get(ProgrammePre2015, f4) else f4;
    assert |f5| >= 5 by { Pre2015FiveLong(); GetKeepsFive(ProgrammePre2015, f4); }
    Pre2019FiveLong();
    GetKeepsFive(ProgrammePre2019, f5);
  }

  // ---------------------------------------------------------------------------
  // load_budget: the two income rows added to the 2022 budget
  // ---------------------------------------------------------------------------

  /** The filename `load_budget` passes for both amendment rows: marker, year, file. */
  const InjectedFilename: string := YearMarker + "2022" + "/" + "ingresos.csv"

  lemma InjectedFilenameLiteral()
    ensures InjectedFilename == "municipio/2022/ingresos.csv"
  {
  }

  const VehicleTaxRow: seq<string> := [
    "001", "AYUNTAMIENTO DE MADRID", "1", "IMPUESTOS DIRECTOS", "11500",
    "IMPUESTO SOBRE VEHÍCULOS DE TRACCIÓN MECÁNICA", "-1000"
  ]

  const DrivewayRow: seq<string> := [
    "001", "AYUNTAMIENTO DE MADRID", "3", "TASAS, PRECIOS PÚBLICOS Y OTROS INGRESOS", "33100",
    "ENTRADA DE VEHÍCULOS", "-3000"
  ]

  /**
   * What an initial-budget income row of the City itself (centre `001`)
   * becomes: dropped if the collaborator files centre `001` under body `2`,
   * otherwise an income of the given article and item.
   */
  function CityIncome(env: Env, article: string, item: string, text: string, amount: string): Option<BudgetItem> {
    var ic := env.getInstitutionCode("001") + "00";
    if ic == "200" then None
    else Some(Income(false, article, ic, item, env.spanishTitlecase(text), env.readEnglishNumber(amount)))
  }

  lemma Year2022()
    ensures DigitsValue("2022") == 2022
  {
    assert "2022"[..3] == "202" && "202"[..2] == "20" && "20"[..1] == "2" && "2"[..0] == "";
  }

  /** The injected rows' filename: a 2022 initial-budget income file. */
  lemma InjectedFilenameFacts()
    ensures SearchYear(InjectedFilename) == Some("2022") && DigitsValue("2022") == 2022
    ensures !Contains(InjectedFilename, "gastos.csv") && !Contains(InjectedFilename, "/ejecucion_")
  {
    InjectedYear();
    Year2022();
    InjectedFileKind();
  }

  lemma InjectedYear()
    ensures SearchYear(InjectedFilename) == Some("2022")
  {
    var y, rest := "2022", "ingresos.csv";
    assert InjectedFilename == YearMarker + y + "/" + rest;
    SearchYearAtStart(y, rest);
  }

  /** The injected filename names neither an expense file nor an execution file. */
  lemma InjectedFileKind()
    ensures !Contains(InjectedFilename, "gastos.csv") && !Contains(InjectedFilename, "/ejecucion_")
  {
    ContainsNeedsChar(InjectedFilename, "gastos.csv", 'a');
    ContainsNeedsChar(InjectedFilename, "/ejecucion_", 'j');
  }

  /**
   * A seven-field row of centre `001` in a 2022 initial-budget income file,
   * whose amount has neither dots nor commas and whose article is no
   * transfer, is the City income its fields describe.
   */
  lemma CityIncomeRowParses(env: Env, filename: string, line: seq<string>)
    requires SearchYear(filename) == Some("2022")
    requires !Contains(filename, "gastos.csv") && !Contains(filename, "/ejecucion_")
    requires |line| == 7 && line[0] == "001"
    requires '.' !in line[6] && ',' !in line[6]
    requires AllButLast(line[4], 2) !in TransferArticles
    ensures ParseItem(env, filename, line)
         == Ok(CityIncome(env, AllButLast(line[4], 2), LastN(line[4], 2), line[5], line[6]))
  {
    Year2022();
    SpanishToEnglishHasNoComma(line[6]);
    assert ZFill(line[0], 3) == "001";
  }

  /** The vehicle tax row does not raise: it is the City income of article `115`, item `00`. */
  lemma VehicleTaxRowParses(env: Env)
    ensures ParseItem(env, InjectedFilename, VehicleTaxRow)
         == Ok(CityIncome(env, "115", "00", VehicleTaxRow[5], "-1000"))
  {
    InjectedFilenameFacts();
    assert AllButLast(VehicleTaxRow[4], 2) == "115" && LastN(VehicleTaxRow[4], 2) == "00";
    CityIncomeRowParses(env, InjectedFilename, VehicleTaxRow);
  }

  /** The driveway row does not raise: it is the City income of article `331`, item `00`. */
  lemma DrivewayRowParses(env: Env)
    ensures ParseItem(env, InjectedFilename, DrivewayRow)
         == Ok(CityIncome(env, "331", "00", DrivewayRow[5], "-3000"))
  {
    InjectedFilenameFacts();
    assert AllButLast(DrivewayRow[4], 2) == "331" && LastN(DrivewayRow[4], 2) == "00";
    CityIncomeRowParses(env, InjectedFilename, DrivewayRow);
  }

  /** The caller's list of parsed rows (`items`), which `load_budget` appends to. */
  class ItemList {
    var elems: seq<Option<BudgetItem>>

    constructor (initial: seq<Option<BudgetItem>>)
      ensures elems == initial
    {
      elems := initial;
    }

    /** `items.append(x)`. */
    method Append(x: Option<BudgetItem>)
      modifies this
      ensures elems == old(elems) + [x]
    {
      elems := elems + [x];
    }
  }

  /**
   * `MadridBudgetLoader.load_budget` up to the call into the generic loader:
   * for 2022 it appends the parse results of the two amendment rows, in that
   * order; other years leave `items` as it was.
   */
  method LoadBudget(env: Env, year: string, items: ItemList)
    modifies items
    ensures items.elems == old(items.elems) +
      (if year == "2022"
       then [CityIncome(env, "115", "00", VehicleTaxRow[5], "-1000"),
             CityIncome(env, "331", "00", DrivewayRow[5], "-3000")]
       else [])
  {
    if year == "2022" {
      VehicleTaxRowParses(env);
      DrivewayRowParses(env);
      var first := ParseItem(env, InjectedFilename, VehicleTaxRow);
      items.Append(first.value);
      var second := ParseItem(env, InjectedFilename, DrivewayRow);
      items.Append(second.value);
    }
  }
}
