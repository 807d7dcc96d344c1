/**
 * The payments line parser of the City of Madrid adapter
 * (`MadridPaymentsLoader`): one CSV row of a payments file becomes a payment
 * record with a clean payee name and a consistent institutional code.
 */
module MadridPaymentsLoader {
  import opened Wrappers
  import opened PyStr
  import opened Collaborators
  import MadridBudgetLoader

  // ---------------------------------------------------------------------------
  // Institutional tables (old code: new code), kept by this loader itself
  // ---------------------------------------------------------------------------

  const Institutional2015: map<string, string> := map[
    "0085" := "0027", "0033" := "0037", "0041" := "0047", "0025" := "0057",
    "0032" := "0067", "0071" := "0077", "0035" := "0087", "0015" := "0097",
    "0065" := "0098"
  ]

  const InstitutionalPre2019: map<string, string> := map[
    "0011" := "0020", "0075" := "007A"
  ]

  const InstitutionalPre2020: map<string, string> := map[
    "0002" := "0100", "0003" := "0103", "0010" := "0101", "0012" := "0102",
    "0020" := "0110", "0021" := "0111", "0023" := "0112", "0027" := "0180",
    "0031" := "0161", "0055" := "0190", "0057" := "0170", "0060" := "0140",
    "0065" := "0131", "0066" := "0132", "0067" := "0120", "0075" := "0141",
    "0087" := "0160", "0097" := "0150", "0098" := "0130", "0100" := "0300",
    "0110" := "0310", "0120" := "0320", "0130" := "013A"
  ]

  function InstitutionalRemap(year: int, code: string): string {
    var c1 := if year <= 2015 then Get(Institutional2015, code) else code;
    var c2 := if year < 2019 then Get(InstitutionalPre2019, c1) else c1;
    if year < 2020 then Get(InstitutionalPre2020, c2) else c2
  }

  /**
   * The payments loader's tables and year gates are those of the budget
   * loader, so both give a section the same code in the same year.
   */
  lemma RemapMatchesBudgetLoader(year: int, code: string)
    ensures InstitutionalRemap(year, code) == MadridBudgetLoader.InstitutionalRemap(year, code)
  {
    assert Institutional2015 == MadridBudgetLoader.Institutional2015;
    assert InstitutionalPre2019 == MadridBudgetLoader.InstitutionalPre2019;
    assert InstitutionalPre2020 == MadridBudgetLoader.InstitutionalPre2020;
  }

  // ---------------------------------------------------------------------------
  // Records
  // ---------------------------------------------------------------------------

  /**
   * What `parse_item` uses of its `budget` argument: the fiscal year and the
   * functional and expense descriptions of the budget's entity.
   */
  datatype Budget = Budget(year: int, functional: map<string, string>, expense: map<string, string>)

  /** The payment record; its always-empty fields (`fc_code`, `ec_code`, `date`) are omitted. */
  datatype Payment = Payment(area: string, icCode: string, payee: string,
                             payeeFiscalId: string, description: string, amount: int)

  // ---------------------------------------------------------------------------
  // Field cleaning
  // ---------------------------------------------------------------------------

  /** The policy: the first two characters of the zero-filled programme code. */
  function PolicyKey(programme: string): string {
    Take(ZFill(programme, 5), 2)
  }

  lemma PolicyKeyShape(programme: string)
    ensures |PolicyKey(programme)| == 2
    ensures programme == [] || !IsSign(programme[0]) ==>
      PolicyKey(programme) ==
        if |programme| >= 5 then programme[..2]
        else if |programme| == 4 then "0" + programme[..1]
        else "00"
  {
    var z := ZFill(programme, 5);
    if |programme| < 5 && (programme == [] || !IsSign(programme[0])) {
      assert z[..5 - |programme|] == Zeros(5 - |programme|);
      if |programme| == 4 {
        assert z[0] == '0' && z[1] == programme[0];
        assert z[..2] == "0" + programme[..1];
      } else {
        assert z[0] == '0' && z[1] == '0';
        assert z[..2] == "00";
      }
    }
  }

  predicate EndsWithSpaceDot(s: string) {
    |s| >= 2 && s[|s| - 2..] == " ."
  }

  /** `t` is zero or more repetitions of `" ."`. */
  predicate SpaceDotRun(t: string)
    decreases |t|
  {
    t == [] || (|t| >= 2 && t[..2] == " ." && SpaceDotRun(t[2..]))
  }

  lemma {:induction false} SpaceDotRunGrows(t: string)
    requires SpaceDotRun(t)
    ensures SpaceDotRun(t + " .")
    decreases |t|
  {
    if t != [] {
      assert (t + " .")[2..] == t[2..] + " .";
      SpaceDotRunGrows(t[2..]);
    } else {
      assert (t + " .")[2..] == [];
    }
  }

  /** `re.sub(r'( \.)+$', '', s)`: removes the whole trailing run of `" ."` pairs. */
  function DropTrailingSpaceDots(s: string): (r: string)
    ensures r <= s && SpaceDotRun(s[|r|..])
    ensures !EndsWithSpaceDot(r)
    decreases |s|
  {
    if EndsWithSpaceDot(s) then
      var r := DropTrailingSpaceDots(s[..|s| - 2]);
      assert s[|r|..] == s[..|s| - 2][|r|..] + " .";
      SpaceDotRunGrows(s[..|s| - 2][|r|..]);
      r
    else
      assert s[|s|..] == [];
      s
  }

  /** `re.sub(r'^[\. ]+', '', s)`: removes the leading dots and spaces. */
  function DropLeadingDotsSpaces(s: string): (r: string)
    ensures |r| <= |s| && r == s[|s| - |r|..]
    ensures forall i :: 0 <= i < |s| - |r| ==> s[i] == '.' || s[i] == ' '
    ensures r == [] || (r[0] != '.' && r[0] != ' ')
    decreases |s|
  {
    if |s| > 0 && (s[0] == '.' || s[0] == ' ') then DropLeadingDotsSpaces(s[1..]) else s
  }

  /** The repair of characters the export garbles. */
  function RepairCharacters(s: string): string {
    Replace(Replace(Replace(s, "Ð", "Ñ"), "Ë", "Ó"), "'-", "Á")
  }

  /** The payee name as the source cleans it up. */
  function CleanPayee(name: string): string {
    DropLeadingDotsSpaces(DropTrailingSpaceDots(RepairCharacters(Strip(name))))
  }

  /** After the repair none of the garbled characters `Ð`, `Ë` or `'-` is left. */
  lemma RepairRemovesGarbled(s: string)
    ensures 'Ð' !in RepairCharacters(s) && 'Ë' !in RepairCharacters(s)
    ensures !Contains(RepairCharacters(s), "'-")
  {
    var s1 := Replace(s, "Ð", "Ñ");
    var s2 := Replace(s1, "Ë", "Ó");
    ReplaceRemovesPattern(s, "Ð", "Ñ");
    ContainsChar(s1, 'Ð');
    ReplaceRemovesPattern(s1, "Ë", "Ó");
    ContainsChar(s2, 'Ë');
    ReplaceKeepsCharAbsent(s1, "Ë", "Ó", 'Ð');
    ReplaceRemovesPattern(s2, "'-", "Á");
    ReplaceKeepsCharAbsent(s2, "'-", "Á", 'Ð');
    ReplaceKeepsCharAbsent(s2, "'-", "Á", 'Ë');
  }

  /** The trimmed text is the slice of `s` between the two removed runs. */
  lemma TrimmedSlice(s: string)
    ensures var t := DropTrailingSpaceDots(s);
      var c := DropLeadingDotsSpaces(t);
      |c| <= |t| <= |s| && c == s[|t| - |c|..|t|]
  {
    var t := DropTrailingSpaceDots(s);
    assert t == s[..|t|];
  }

  /** Dropping the leading dots and spaces does not bring back a trailing `" ."`. */
  lemma TrimmedShape(s: string)
    ensures var c := DropLeadingDotsSpaces(DropTrailingSpaceDots(s));
      (c == [] || (c[0] != '.' && c[0] != ' ')) && !EndsWithSpaceDot(c)
  {
    var t := DropTrailingSpaceDots(s);
    var c := DropLeadingDotsSpaces(t);
    if |c| >= 2 {
      assert c[|c| - 2..] == t[|t| - 2..];
    }
  }

  /**
   * Dropping the trailing `" ."` run and then the leading dots and spaces
   * leaves a piece of the text that starts with neither and does not end
   * with `" ."`; a pattern or character absent from the text stays absent.
   */
  lemma TrimPunctuation(s: string, pat: string, x: char)
    ensures var c := DropLeadingDotsSpaces(DropTrailingSpaceDots(s));
      && (c == [] || (c[0] != '.' && c[0] != ' '))
      && !EndsWithSpaceDot(c)
      && Contains(s, c)
      && (Contains(c, pat) ==> Contains(s, pat))
      && (x in c ==> x in s)
  {
    var t := DropTrailingSpaceDots(s);
    var c := DropLeadingDotsSpaces(t);
    TrimmedShape(s);
    TrimmedSlice(s);
    var i := |t| - |c|;
    assert c <= c;
    ContainsInSlice(s, i, |t|, c);
    ContainsInSlice(s, i, |t|, pat);
    ContainsInSlice(s, i, |t|, [x]);
    ContainsChar(c, x);
    ContainsChar(s, x);
  }

  /**
   * The clean name is a piece of the repaired name; it neither starts with a
   * dot or a space nor ends with `" ."`, and holds none of the garbled
   * characters `Ð`, `Ë` or `'-`.
   */
  lemma CleanPayeeShape(name: string)
    ensures var c := CleanPayee(name);
      && (c == [] || (c[0] != '.' && c[0] != ' '))
      && !EndsWithSpaceDot(c)
      && 'Ð' !in c && 'Ë' !in c && !Contains(c, "'-")
      && Contains(RepairCharacters(Strip(name)), c)
  {
    var r := RepairCharacters(Strip(name));
    RepairRemovesGarbled(Strip(name));
    TrimPunctuation(r, "'-", 'Ð');
    TrimPunctuation(r, "'-", 'Ë');
  }

  // ---------------------------------------------------------------------------
  // parse_item and get_institution_code
  // ---------------------------------------------------------------------------

  /** `MadridPaymentsLoader.parse_item`; `Err` where the source raises. */
  function ParseItem(env: Env, budget: Budget, line: seq<string>): Result<Payment> {
    if |line| < 2 then Err(IndexError)
    else
      var policyId := PolicyKey(line[1]);
      if policyId !in budget.functional then Err(KeyError)
      else if |line| < 4 then Err(IndexError)
      else
        var text := Strip(line[3]);
        var headingId := Take(line[2], 3);
        if text == "" && headingId !in budget.expense then Err(KeyError)
        else if |line| < 7 then Err(IndexError)
        else
          var description := if text == "" then budget.expense[headingId] else text;
          var fiscalId := line[4];
          var code := env.mapInstitutionalCode(ZFill(line[0], 6));
          Ok(Payment(budget.functional[policyId],
                     InstitutionalRemap(budget.year, code),
                     CleanPayee(line[5]) + " (" + fiscalId + ")",
                     Take(fiscalId, 15),
                     description + " (" + IntToString(budget.year) + ")",
                     env.readEnglishNumber(line[6])))
  }

  /**
   * When the source raises: too few fields for the column it reads next, or
   * a policy or heading the entity has no description for.
   */
  lemma PaymentErrors(env: Env, budget: Budget, line: seq<string>)
    ensures ParseItem(env, budget, line) == Err(KeyError) <==>
      |line| >= 2 &&
      (PolicyKey(line[1]) !in budget.functional ||
       (|line| >= 4 && Strip(line[3]) == "" && Take(line[2], 3) !in budget.expense))
    ensures ParseItem(env, budget, line) == Err(IndexError) <==>
      |line| < 2 ||
      (PolicyKey(line[1]) in budget.functional &&
       (|line| < 4 ||
        ((Strip(line[3]) != "" || Take(line[2], 3) in budget.expense) && |line| < 7)))
  {
  }

  /** A payment is parsed exactly when every field it reads is there. */
  lemma PaymentParsed(env: Env, budget: Budget, line: seq<string>)
    requires ParseItem(env, budget, line).Ok?
    ensures |line| >= 7 && PolicyKey(line[1]) in budget.functional
    ensures Strip(line[3]) == "" ==> Take(line[2], 3) in budget.expense
    ensures var text := Strip(line[3]);
      var description := if text == "" then budget.expense[Take(line[2], 3)] else text;
      ParseItem(env, budget, line) ==
        Ok(Payment(budget.functional[PolicyKey(line[1])],
                   InstitutionalRemap(budget.year, env.mapInstitutionalCode(ZFill(line[0], 6))),
                   CleanPayee(line[5]) + " (" + line[4] + ")",
                   Take(line[4], 15),
                   description + " (" + IntToString(budget.year) + ")",
                   env.readEnglishNumber(line[6])))
  {
  }

  /** The payee, its fiscal id and the amount of a parsed payment. */
  lemma PaymentPayee(env: Env, budget: Budget, line: seq<string>)
    requires ParseItem(env, budget, line).Ok?
    ensures |line| >= 7
    ensures var p := ParseItem(env, budget, line).value;
      && p.area == budget.functional[PolicyKey(line[1])]
      && p.payee == CleanPayee(line[5]) + " (" + line[4] + ")"
      && p.payeeFiscalId <= line[4]
      && |p.payeeFiscalId| == (if |line[4]| < 15 then |line[4]| else 15)
      && p.amount == env.readEnglishNumber(line[6])
  {
    PaymentParsed(env, budget, line);
  }

  /**
   * The description of a parsed payment: the stripped description column,
   * or when that is empty the expense heading of the first three characters
   * of the economic column, followed by the year in brackets.
   */
  lemma PaymentDescription(env: Env, budget: Budget, line: seq<string>)
    requires ParseItem(env, budget, line).Ok?
    ensures |line| >= 7
    ensures var text := Strip(line[3]);
      var heading := Take(line[2], 3);
      && (text == "" ==> heading in budget.expense)
      && ParseItem(env, budget, line).value.description ==
           (if text == "" then budget.expense[heading] else text) + " (" + IntToString(budget.year) + ")"
  {
    PaymentParsed(env, budget, line);
  }

  /**
   * The institutional code of a payment is the budget loader's remapping of
   * the collaborator's code for the zero-filled centre, and from 2020 on that
   * code unchanged.
   */
  lemma PaymentInstitution(env: Env, budget: Budget, line: seq<string>)
    requires ParseItem(env, budget, line).Ok?
    ensures |line| >= 7
    ensures var code := env.mapInstitutionalCode(ZFill(line[0], 6));
      && ParseItem(env, budget, line).value.icCode == MadridBudgetLoader.InstitutionalRemap(budget.year, code)
      && (budget.year >= 2020 ==> ParseItem(env, budget, line).value.icCode == code)
  {
    PaymentParsed(env, budget, line);
    RemapMatchesBudgetLoader(budget.year, env.mapInstitutionalCode(ZFill(line[0], 6)));
  }

  /**
   * `d` ends with `" ("`, a run of decimal digits that reads as `year`, and
   * `")"`, the run being as long as `str(year)`.
   */
  predicate EndsWithYear(d: string, year: nat) {
    var n := |IntToString(year)|;
    && |d| >= n + 3
    && d[|d| - n - 3..|d| - n - 1] == " (" && d[|d| - 1] == ')'
    && AllDigits(d[|d| - n - 1..|d| - 1])
    && DigitsValue(d[|d| - n - 1..|d| - 1]) == year
  }

  /** The year a description ends with reads back as the budget's year. */
  lemma DescriptionYearRoundTrip(env: Env, budget: Budget, line: seq<string>)
    requires ParseItem(env, budget, line).Ok? && budget.year >= 0
    ensures EndsWithYear(ParseItem(env, budget, line).value.description, budget.year)
  {
    PaymentDescription(env, budget, line);
    var text := Strip(line[3]);
    var description := if text == "" then budget.expense[Take(line[2], 3)] else text;
    YearSuffixReadsBack(description, budget.year);
  }

  /** The digits between the final brackets of `a (year)` read back as the year. */
  lemma YearSuffixReadsBack(a: string, year: nat)
    ensures EndsWithYear(a + " (" + IntToString(year) + ")", year)
  {
    BracketedSuffix(a, IntToString(year));
  }

  lemma BracketedSuffix(a: string, y: string)
    ensures var d := a + " (" + y + ")";
      && |d| == |a| + |y| + 3
      && d[|d| - |y| - 1..|d| - 1] == y
      && d[|d| - |y| - 3..|d| - |y| - 1] == " (" && d[|d| - 1] == ')'
  {
    var d := a + " (" + y + ")";
    assert d[|a| + 2..|a| + 2 + |y|] == y;
    assert d[|a|..|a| + 2] == " (";
  }

  /**
   * `get_institution_code`: the third character of a three-character Madrid
   * code, except that `001` gives `0`.
   */
  function InstitutionCode(madridCode: string): Result<string> {
    var code := if madridCode != "001" then madridCode else "000";
    if |code| < 3 then Err(IndexError) else Ok([code[2]])
  }

  /**
   * The rule and its one exception: among codes that share their first two
   * characters, two give the same institution only if they are equal or are
   * `000` and `001`; a code shorter than three characters raises.
   */
  lemma InstitutionCodeRule(a: string, b: string)
    requires |a| == 3 && |b| == 3 && a[..2] == b[..2]
    ensures InstitutionCode(a) == Ok(if a == "001" then "0" else a[2..])
    ensures InstitutionCode(a) == InstitutionCode(b) <==>
      a == b || (a == "000" && b == "001") || (a == "001" && b == "000")
    ensures forall s: string :: |s| < 3 ==> InstitutionCode(s) == Err(IndexError)
  {
    assert a == a[..2] + [a[2]] && b == b[..2] + [b[2]];
    if a != "001" && b != "001" {
      assert InstitutionCode(a) == Ok([a[2]]) && InstitutionCode(b) == Ok([b[2]]);
      assert [a[2]] == [b[2]] <==> a[2] == b[2];
    } else if a == "001" && b != "001" {
      assert InstitutionCode(b) == Ok([b[2]]);
      assert b[..2] == "00";
      assert b[2] == '0' <==> b == "000";
    } else if b == "001" && a != "001" {
      assert InstitutionCode(a) == Ok([a[2]]);
      assert a[..2] == "00";
      assert a[2] == '0' <==> a == "000";
    }
  }
}
