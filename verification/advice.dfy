/** The deterministic parts of the financial-advice endpoint
    (app/main.py, `financial_advice`): the disposable income and savings
    arithmetic, the profile summary put in front of the generated text, and
    the replacement of any generated "Additionally," tail by one of three
    fixed tips chosen by risk tolerance. The text generator, the regular
    expression cleanup and the `:,.0f` currency formatting are parameters. */
module Advice {
  import opened Text
  import opened Profile

  /** Python's `f"{x:,.0f}"`, left abstract. */
  type Formatter = real -> string

  /** The characters `:,.0f` can produce for a finite number. */
  predicate NumeralText(t: string)
  {
    forall i :: 0 <= i < |t| ==> t[i] in "0123456789,.-"
  }

  /** A formatter that only ever prints numerals. */
  ghost predicate IsCurrencyFormatter(fmt: Formatter)
  {
    forall x :: NumeralText(fmt(x))
  }

  /** The regular-expression cleanup of the generated text, left abstract. */
  type Cleanup = string -> string

  /** The share of income the advice tells the user to save, in percent. */
  const SavingsPercentage: real := 10.0

  /** `income - expenses`, not clamped at zero. */
  function DisposableIncome(p: UserFinanceProfile): (r: real)
    ensures r + p.expenses == p.income
    ensures r < 0.0 <==> p.expenses > p.income
  {
    p.income - p.expenses
  }

  /** `income * (10 / 100)`. */
  function SavingsAmount(p: UserFinanceProfile): (r: real)
    ensures 10.0 * r == p.income
    ensures p.income >= 0.0 ==> 0.0 <= r <= p.income
  {
    p.income * (SavingsPercentage / 100.0)
  }

  /** The phrase at which the generated advice is cut. */
  const Marker: string := "Additionally,"

  // ---------------------------------------------------------------------------
  // Where the marker cannot occur
  // ---------------------------------------------------------------------------

  /** The marker starts with a capital A, so text without one holds no marker. */
  lemma NoCapitalNoMarker(t: string)
    requires 'A' !in t
    ensures !Contains(t, Marker)
  {
    forall i | 0 <= i <= |t| ensures !Occurs(t, Marker, i) {
      if i + |Marker| <= |t| {
        assert t[i..i + |Marker|][0] == t[i];
      }
    }
  }

  /** No occurrence of the marker covers a character the marker does not use. */
  lemma NoMarkerOver(s: string, i: int, n: int)
    requires 0 <= i <= n < |s| && n < i + |Marker|
    requires s[n] !in Marker
    ensures !Occurs(s, Marker, i)
  {
    if i + |Marker| <= |s| {
      assert s[i..i + |Marker|][n - i] == s[n];
      assert Marker[n - i] in Marker;
    }
  }

  /** Joining two marker-free texts at a character the marker does not use
      creates no marker. */
  lemma NoMarkerJoin(a: string, b: string)
    requires !Contains(a, Marker) && !Contains(b, Marker)
    requires (|a| > 0 && a[|a| - 1] !in Marker) || (|b| > 0 && b[0] !in Marker)
    ensures !Contains(a + b, Marker)
  {
    var s := a + b;
    forall i | 0 <= i <= |s| ensures !Occurs(s, Marker, i) {
      if i + |Marker| <= |a| {
        OccursInLeft(a, b, Marker, i);
      } else if i >= |a| {
        OccursInRight(a, b, Marker, i);
      } else if |a| > 0 && a[|a| - 1] !in Marker {
        NoMarkerOver(s, i, |a| - 1);
      } else if i + |Marker| > |a| && |a| < |s| {
        NoMarkerOver(s, i, |a|);
      }
    }
  }

  // ---------------------------------------------------------------------------
  // The profile summary
  // ---------------------------------------------------------------------------

  /** How the summary opens. */
  const SummaryOpening: string := "A" + OpeningRest

  /** The opening after its capital A. */
  const OpeningRest: string := " user has an annual" + " income of $"

  /** The label in front of the formatted expenses. */
  const ExpensesLabel: string := ", annual expenses of $"

  /** The label in front of the formatted disposable income. */
  const DisposableLabel: string := ", disposable income of $"

  /** The label in front of the quoted goal. */
  const GoalLabel: string := ", goal \""

  /** The text between the goal and the risk tolerance. */
  const ToleranceLabel: string := "\", and "

  /** How the summary closes. */
  const SummaryClose: string := " risk tolerance. "

  /** The first part of the summary, up to the opening quote of the goal.
      It opens with the income under its label, and each later figure sits
      between its own label and the next one. */
  function SummaryFigures(p: UserFinanceProfile, fmt: Formatter): (r: string)
    ensures SummaryOpening + fmt(p.income) + ExpensesLabel <= r
    ensures Contains(r, ExpensesLabel + fmt(p.expenses) + DisposableLabel)
    ensures Contains(r, DisposableLabel + fmt(DisposableIncome(p)) + GoalLabel)
    ensures Contains(r, fmt(p.income)) && Contains(r, fmt(p.expenses))
    ensures Contains(r, fmt(DisposableIncome(p)))
    ensures |r| >= |GoalLabel| && r[|r| - |GoalLabel|..] == GoalLabel
    ensures |r| > 0 && r[0] == 'A' && r[|r| - 1] == '"'
  {
    var inc, exp, dis := fmt(p.income), fmt(p.expenses), fmt(DisposableIncome(p));
    var r1 := SummaryOpening + inc;
    var r2 := r1 + ExpensesLabel + exp;
    var r3 := r2 + DisposableLabel + dis;
    var r := r3 + GoalLabel;
    FiguresLabelled(r1, inc, exp, dis);
    SuffixIsInfix(SummaryOpening, inc);
    SuffixIsInfix(r1 + ExpensesLabel, exp);
    SuffixIsInfix(r2 + DisposableLabel, dis);
    PrefixInfix(r, r1, inc);
    PrefixInfix(r, r2, exp);
    PrefixInfix(r, r3, dis);
    assert r[0] == SummaryOpening[0] == 'A';
    r
  }

  /** Where the labels sit around the figures in the figures text. */
  lemma FiguresLabelled(r1: string, inc: string, exp: string, dis: string)
    requires r1 == SummaryOpening + inc
    ensures var r := r1 + ExpensesLabel + exp + DisposableLabel + dis + GoalLabel;
      && r1 + ExpensesLabel <= r
      && Contains(r, ExpensesLabel + exp + DisposableLabel)
      && Contains(r, DisposableLabel + dis + GoalLabel)
  {
    FirstTwoIsPrefix(r1, ExpensesLabel, exp + DisposableLabel, dis, GoalLabel);
    assert r1 + ExpensesLabel + exp + DisposableLabel + dis + GoalLabel
      == r1 + ExpensesLabel + (exp + DisposableLabel) + dis + GoalLabel;
    InnerThreeIsInfix(r1, ExpensesLabel, exp, DisposableLabel, dis, GoalLabel);
    LastThreeIsInfix(r1 + ExpensesLabel, exp, DisposableLabel, dis, GoalLabel);
  }

  /** The sentence prepended to the generated text, built from the profile
      alone. It opens with the formatted income under its label; the
      expenses, the disposable income, the goal and the risk tolerance each
      sit between their own label and the next one. */
  function ProfileSummary(p: UserFinanceProfile, fmt: Formatter): (r: string)
    ensures SummaryOpening + fmt(p.income) + ExpensesLabel <= r
    ensures Contains(r, ExpensesLabel + fmt(p.expenses) + DisposableLabel)
    ensures Contains(r, DisposableLabel + fmt(DisposableIncome(p)) + GoalLabel)
    ensures Contains(r, GoalLabel + p.goals + ToleranceLabel)
    ensures Contains(r, ToleranceLabel + p.riskTolerance + SummaryClose)
    ensures Contains(r, fmt(p.income)) && Contains(r, fmt(p.expenses))
    ensures Contains(r, fmt(DisposableIncome(p)))
    ensures Contains(r, p.goals) && Contains(r, p.riskTolerance)
  {
    var figures := SummaryFigures(p, fmt);
    var r := figures + p.goals + ToleranceLabel + p.riskTolerance + SummaryClose;
    SummaryTail(figures, p.goals, p.riskTolerance);
    FiguresCarryOver(p, fmt, r);
    r
  }

  /** What follows the figures: the goal between its label and the tolerance
      label, then the tolerance before the closing words. */
  lemma SummaryTail(figures: string, goals: string, tolerance: string)
    requires |figures| >= |GoalLabel| && figures[|figures| - |GoalLabel|..] == GoalLabel
    ensures var r := figures + goals + ToleranceLabel + tolerance + SummaryClose;
      && figures <= r
      && Contains(r, GoalLabel + goals + ToleranceLabel)
      && Contains(r, ToleranceLabel + tolerance + SummaryClose)
      && Contains(r, goals) && Contains(r, tolerance)
  {
    var r4 := figures + goals;
    var r5 := r4 + ToleranceLabel + tolerance;
    var r := r5 + SummaryClose;
    SuffixIsInfix(figures, goals);
    SuffixIsInfix(r4 + ToleranceLabel, tolerance);
    PrefixInfix(r, r4, goals);
    PrefixInfix(r, r5, tolerance);
    JoinAcrossIsInfix(figures, GoalLabel, goals, ToleranceLabel, tolerance, SummaryClose);
    LastThreeIsInfix(figures, goals, ToleranceLabel, tolerance, SummaryClose);
  }

  /** Everything the figures text says about the figures holds of any text
      that starts with it. */
  lemma FiguresCarryOver(p: UserFinanceProfile, fmt: Formatter, r: string)
    requires SummaryFigures(p, fmt) <= r
    ensures SummaryOpening + fmt(p.income) + ExpensesLabel <= r
    ensures Contains(r, ExpensesLabel + fmt(p.expenses) + DisposableLabel)
    ensures Contains(r, DisposableLabel + fmt(DisposableIncome(p)) + GoalLabel)
    ensures Contains(r, fmt(p.income)) && Contains(r, fmt(p.expenses))
    ensures Contains(r, fmt(DisposableIncome(p)))
  {
    var figures := SummaryFigures(p, fmt);
    var opening := SummaryOpening + fmt(p.income) + ExpensesLabel;
    assert r[..|opening|] == figures[..|opening|];
    PrefixInfix(r, figures, fmt(p.income));
    PrefixInfix(r, figures, fmt(p.expenses));
    PrefixInfix(r, figures, fmt(DisposableIncome(p)));
    PrefixInfix(r, figures, ExpensesLabel + fmt(p.expenses) + DisposableLabel);
    PrefixInfix(r, figures, DisposableLabel + fmt(DisposableIncome(p)) + GoalLabel);
  }

  /** With a numerals-only formatter the figures hold no marker: their only
      capital A is the first character. */
  lemma FiguresHaveNoMarker(p: UserFinanceProfile, fmt: Formatter)
    requires IsCurrencyFormatter(fmt)
    ensures !Contains(SummaryFigures(p, fmt), Marker)
  {
    var inc, exp, dis := fmt(p.income), fmt(p.expenses), fmt(DisposableIncome(p));
    assert NumeralText(inc) && NumeralText(exp) && NumeralText(dis);
    FiguresFromNumbers(inc, exp, dis);
  }

  /** The figures text built from three numerals holds no marker. */
  lemma FiguresFromNumbers(inc: string, exp: string, dis: string)
    requires 'A' !in inc && 'A' !in exp && 'A' !in dis
    ensures !Contains(SummaryOpening + inc + ExpensesLabel + exp
      + DisposableLabel + dis + GoalLabel, Marker)
  {
    var numbers := OpeningRest + inc + ExpensesLabel + exp
      + DisposableLabel + dis + GoalLabel;
    NumbersHaveNoCapital(inc, exp, dis);
    NoCapitalNoMarker(numbers);
    assert !Contains("A", Marker);
    NoMarkerJoin("A", numbers);
    OpeningSplits(inc, exp, dis);
  }

  /** After its first character the figures text has no capital A, and it
      continues with a space. */
  lemma NumbersHaveNoCapital(inc: string, exp: string, dis: string)
    requires 'A' !in inc && 'A' !in exp && 'A' !in dis
    ensures var numbers := OpeningRest + inc + ExpensesLabel + exp
      + DisposableLabel + dis + GoalLabel;
      'A' !in numbers && numbers[0] == ' '
  {
    SummaryLiteralsHaveNoCapital();
    var n1 := OpeningRest + inc;
    var n2 := n1 + ExpensesLabel;
    var n3 := n2 + exp;
    var n4 := n3 + DisposableLabel;
    var n5 := n4 + dis;
    assert 'A' !in n1 && 'A' !in n2 && 'A' !in n3 && 'A' !in n4 && 'A' !in n5;
    assert n1[0] == ' ';
  }

  /** The fixed text of the figures has no capital A after the opening one. */
  lemma SummaryLiteralsHaveNoCapital()
    ensures 'A' !in OpeningRest && OpeningRest[0] == ' '
    ensures 'A' !in ExpensesLabel
    ensures 'A' !in DisposableLabel
    ensures 'A' !in GoalLabel
  {
    OpeningHasOneCapital();
    ExpensesLabelHasNoCapital();
    DisposableLabelHasNoCapital();
  }

  lemma OpeningHasOneCapital()
    ensures 'A' !in OpeningRest && OpeningRest[0] == ' '
  {
  }

  lemma ExpensesLabelHasNoCapital()
    ensures 'A' !in ExpensesLabel
  {
  }

  lemma DisposableLabelHasNoCapital()
    ensures 'A' !in DisposableLabel
  {
  }

  /** Splitting the capital A off the opening of the figures text. */
  lemma OpeningSplits(inc: string, exp: string, dis: string)
    ensures SummaryOpening + inc + ExpensesLabel + exp + DisposableLabel + dis + GoalLabel
         == "A" + (OpeningRest + inc + ExpensesLabel + exp + DisposableLabel + dis + GoalLabel)
  {
    var n1 := OpeningRest + inc;
    var n2 := n1 + ExpensesLabel + exp;
    var n3 := n2 + DisposableLabel + dis;
    assert "A" + n1 == SummaryOpening + inc;
    assert "A" + n2 == ("A" + n1) + ExpensesLabel + exp;
    assert "A" + n3 == ("A" + n2) + DisposableLabel + dis;
  }

  /** With a numerals-only formatter and a goal and tolerance free of the
      marker, the summary holds no marker; it opens with a capital A and
      ends with ". ". */
  lemma SummaryShape(p: UserFinanceProfile, fmt: Formatter)
    requires IsCurrencyFormatter(fmt)
    requires !Contains(p.goals, Marker) && !Contains(p.riskTolerance, Marker)
    ensures var s := ProfileSummary(p, fmt);
      && |s| >= 2 && !Contains(s, Marker)
      && s[0] == 'A' && s[|s| - 2] == '.' && s[|s| - 1] == ' '
  {
    var figures := SummaryFigures(p, fmt);
    FiguresHaveNoMarker(p, fmt);
    NoMarkerJoin(figures, p.goals);
    NoCapitalNoMarker(ToleranceLabel);
    NoMarkerJoin(figures + p.goals, ToleranceLabel);
    var r5 := figures + p.goals + ToleranceLabel;
    assert r5[|r5| - 1] == ' ';
    NoMarkerJoin(r5, p.riskTolerance);
    NoCapitalNoMarker(SummaryClose);
    NoMarkerJoin(r5 + p.riskTolerance, SummaryClose);
    var s := r5 + p.riskTolerance + SummaryClose;
    assert s == ProfileSummary(p, fmt);
    assert s[0] == figures[0];
  }

  // ---------------------------------------------------------------------------
  // The tips
  // ---------------------------------------------------------------------------

  /** How every tip starts: a space, then the marker. */
  const TipOpening: string := " " + Marker

  /** " Additionally, consult a financial planner, and automate savings." */
  const ConservativeTip: string := TipOpening + " consult a financial planner," + " and automate savings."

  /** " Additionally, diversify your investments, and monitor market trends." */
  const AggressiveTip: string := TipOpening + " diversify your investments," + " and monitor market trends."

  /** " Additionally, build an emergency fund of $<lo>-$<hi>, and review your portfolio annually." */
  function ModerateTip(lo: string, hi: string): string
  {
    TipOpening + " build an emergency fund of $" + lo + "-$" + hi + ", and review your portfolio annually."
  }

  /** The fixed tip appended to the advice, chosen by risk tolerance; any
      tolerance other than "Conservative" and "Aggressive" gets the Moderate
      tip, with an emergency fund of half to all of the disposable income. */
  function Tip(tolerance: string, disposable: real, fmt: Formatter): string
  {
    if tolerance == "Conservative" then ConservativeTip
    else if tolerance == "Aggressive" then AggressiveTip
    else ModerateTip(fmt(disposable / 2.0), fmt(disposable))
  }

  /** The tip opens with the marker and has no capital A after it. */
  predicate WellOpened(tip: string)
  {
    |tip| > |TipOpening| && tip[..|TipOpening|] == TipOpening && 'A' !in tip[|TipOpening|..]
  }

  /** The opening followed by text without a capital A is well opened. */
  lemma OpeningThen(rest: string)
    requires |rest| > 0 && 'A' !in rest
    ensures WellOpened(TipOpening + rest)
  {
    var tip := TipOpening + rest;
    assert tip[..|TipOpening|] == TipOpening;
    assert tip[|TipOpening|..] == rest;
  }

  lemma ConservativeTipWellOpened()
    ensures WellOpened(ConservativeTip)
  {
    var rest := " consult a financial planner," + " and automate savings.";
    assert 'A' !in rest;
    OpeningThen(rest);
  }

  lemma AggressiveTipWellOpened()
    ensures WellOpened(AggressiveTip)
  {
    var rest := " diversify your investments," + " and monitor market trends.";
    assert 'A' !in rest;
    OpeningThen(rest);
  }

  lemma ModerateTipWellOpened(lo: string, hi: string)
    requires 'A' !in lo && 'A' !in hi
    ensures WellOpened(ModerateTip(lo, hi))
  {
    var rest := " build an emergency fund of $" + lo + "-$" + hi + ", and review your portfolio annually.";
    assert 'A' !in rest;
    assert ModerateTip(lo, hi) == TipOpening + rest;
    OpeningThen(rest);
  }

  /** Every tip is well opened, so the marker cannot occur in it a second time. */
  lemma TipShape(tolerance: string, disposable: real, fmt: Formatter)
    requires IsCurrencyFormatter(fmt)
    ensures WellOpened(Tip(tolerance, disposable, fmt))
  {
    if tolerance == "Conservative" {
      ConservativeTipWellOpened();
    } else if tolerance == "Aggressive" {
      AggressiveTipWellOpened();
    } else {
      var lo, hi := fmt(disposable / 2.0), fmt(disposable);
      assert NumeralText(lo) && NumeralText(hi);
      ModerateTipWellOpened(lo, hi);
    }
  }

  /** Every tolerance other than "Conservative" and "Aggressive" is advised
      as "Moderate"; the Conservative and Aggressive tips do not depend on
      the disposable income or the formatter; the Moderate tip quotes half
      the disposable income and the disposable income. */
  lemma TipSelection(tolerance: string, d1: real, d2: real, f1: Formatter, f2: Formatter)
    ensures tolerance != "Conservative" && tolerance != "Aggressive"
      ==> Tip(tolerance, d1, f1) == Tip("Moderate", d1, f1)
    ensures tolerance == "Conservative" || tolerance == "Aggressive"
      ==> Tip(tolerance, d1, f1) == Tip(tolerance, d2, f2)
    ensures Contains(Tip("Moderate", d1, f1), f1(d1 / 2.0)) && Contains(Tip("Moderate", d1, f1), f1(d1))
  {
    var lo, hi := f1(d1 / 2.0), f1(d1);
    var a := TipOpening + " build an emergency fund of $";
    var tail := ", and review your portfolio annually.";
    assert Tip("Moderate", d1, f1) == a + lo + ("-$" + hi + tail);
    MiddleIsInfix(a, lo, "-$" + hi + tail);
    assert Tip("Moderate", d1, f1) == (a + lo + "-$") + hi + tail;
    MiddleIsInfix(a + lo + "-$", hi, tail);
  }

  /** The three tips differ: each gives its own advice after the opening. */
  lemma TipsDiffer(d: real, fmt: Formatter)
    ensures Tip("Conservative", d, fmt) != Tip("Aggressive", d, fmt)
    ensures Tip("Conservative", d, fmt) != Tip("Moderate", d, fmt)
    ensures Tip("Aggressive", d, fmt) != Tip("Moderate", d, fmt)
  {
    var n := |TipOpening| + 1;
    assert ConservativeTip[n] == 'c';
    assert AggressiveTip[n] == 'd';
    var m := Tip("Moderate", d, fmt);
    assert m == TipOpening + " build an emergency fund of $" + fmt(d / 2.0) + "-$" + fmt(d) + ", and review your portfolio annually.";
    assert m[n] == 'b';
  }

  // ---------------------------------------------------------------------------
  // Replacing the generated tail
  // ---------------------------------------------------------------------------

  /** `advice` ends with `tip`, and the marker occurs in `advice` exactly
      once: right after the space that opens the tip. */
  predicate EndsWithSoleMarker(advice: string, tip: string)
  {
    && |advice| >= |tip|
    && advice[|advice| - |tip|..] == tip
    && Occurs(advice, Marker, |advice| - |tip| + 1)
    && forall i :: 0 <= i <= |advice| && Occurs(advice, Marker, i) ==> i == |advice| - |tip| + 1
  }

  /** Inside a well-opened tip the marker can start only right after the space. */
  lemma NoMarkerLaterInTip(head: string, tip: string, i: int)
    requires WellOpened(tip)
    requires |head| + 1 < i <= |head + tip|
    ensures !Occurs(head + tip, Marker, i)
  {
    var s, n := head + tip, |head|;
    if i < |s| {
      assert s[i] != 'A' by {
        if i < n + |TipOpening| {
          assert s[i] == tip[..|TipOpening|][i - n] == TipOpening[i - n];
          assert TipOpening[i - n] == Marker[1..][i - n - 2];
          assert 'A' !in Marker[1..];
        } else {
          assert s[i] == tip[|TipOpening|..][i - n - |TipOpening|];
        }
      }
      if i + |Marker| <= |s| {
        assert s[i..i + |Marker|][0] != Marker[0];
      }
    }
  }

  /** The marker occurs exactly once in `head + tip` when `head` holds no
      marker and `tip` is the opening followed by text without a capital A. */
  lemma MarkerOnceAfter(head: string, tip: string)
    requires !Contains(head, Marker)
    requires WellOpened(tip)
    ensures EndsWithSoleMarker(head + tip, tip)
  {
    var s, n := head + tip, |head|;
    assert s[|s| - |tip|..] == tip;
    assert s[n + 1..n + 1 + |Marker|] == tip[1..|TipOpening|] == Marker;
    assert ' ' !in Marker;
    forall i | 0 <= i <= |s| && i != n + 1 ensures !Occurs(s, Marker, i) {
      if i + |Marker| <= n {
        assert s[i..i + |Marker|] == head[i..i + |Marker|];
        assert !Occurs(head, Marker, i);
      } else if i <= n {
        NoMarkerOver(s, i, n);
      } else {
        NoMarkerLaterInTip(head, tip, i);
      }
    }
  }

  /** Step 5 of the post-processing: `text.split("Additionally,")[0].strip()`
      followed by `tip`. What precedes the tip is the stripped text before the
      first marker; the result ends with the tip, and the marker occurs in it
      exactly once, where the tip opens. */
  function ReplaceTail(text: string, tip: string): (advice: string)
    requires WellOpened(tip)
    ensures EndsWithSoleMarker(advice, tip)
    ensures advice[..|advice| - |tip|] == Strip(SplitHead(text, Marker))
    ensures !Contains(text, Marker) ==> advice[..|advice| - |tip|] == Strip(text)
  {
    var cut := SplitHead(text, Marker);
    var head := Strip(cut);
    SplitHeadHasNoSeparator(text, Marker);
    StripIsInfix(cut);
    AbsentFromInfix(cut, head, Marker);
    MarkerOnceAfter(head, tip);
    var advice := head + tip;
    assert advice[..|advice| - |tip|] == head;
    advice
  }

  /** A marker-free prefix ending in a space survives the cut at the first
      marker, and the strip removes only that final space from it. */
  lemma PrefixSurvivesCut(prefix: string, rest: string)
    requires |prefix| >= 2 && !Contains(prefix, Marker)
    requires !IsSpace(prefix[0]) && !IsSpace(prefix[|prefix| - 2]) && prefix[|prefix| - 1] == ' '
    ensures prefix[..|prefix| - 1] <= Strip(SplitHead(prefix + rest, Marker))
  {
    assert ' ' !in Marker;
    CutKeepsPrefix(prefix, rest);
    StripKeepsPrefix(SplitHead(prefix + rest, Marker), prefix);
  }

  /** The cut at the first marker keeps a marker-free prefix that ends in a
      character the marker does not use. */
  lemma CutKeepsPrefix(prefix: string, rest: string)
    requires |prefix| > 0 && !Contains(prefix, Marker) && prefix[|prefix| - 1] !in Marker
    ensures prefix <= SplitHead(prefix + rest, Marker)
  {
    var s := prefix + rest;
    var cut := SplitHead(s, Marker);
    forall j | 0 <= j < |prefix| ensures !Occurs(s, Marker, j) {
      if j + |Marker| <= |prefix| {
        assert s[j..j + |Marker|] == prefix[j..j + |Marker|];
        assert !Occurs(prefix, Marker, j);
      } else {
        NoMarkerOver(s, j, |prefix| - 1);
      }
    }
    assert |cut| >= |prefix|;
    assert cut[..|prefix|] == s[..|prefix|] == prefix;
  }

  /** Stripping a text that starts with `prefix` keeps all of `prefix` but its
      last character, when `prefix` starts with a non-space and has a
      non-space just before its end. */
  lemma StripKeepsPrefix(cut: string, prefix: string)
    requires prefix <= cut && |prefix| >= 2
    requires !IsSpace(prefix[0]) && !IsSpace(prefix[|prefix| - 2])
    ensures prefix[..|prefix| - 1] <= Strip(cut)
  {
    var h := Strip(cut);
    var a :| 0 <= a <= |cut| && TrimmedAt(cut, h, a);
    assert cut[0] == prefix[0];
    assert a == 0;
    assert cut[|prefix| - 2] == prefix[|prefix| - 2];
    assert |h| >= |prefix| - 1;
    assert h == cut[..|h|];
  }

  /** The response of `financial_advice`, given the generator's raw text:
      the profile summary and the cleaned generated text, with everything
      from the first marker on replaced by the tip for the user's risk
      tolerance. The summary (less its final space) is kept at the front
      whenever the goal and the tolerance do not themselves hold the marker. */
  function FinancialAdvice(p: UserFinanceProfile, generated: string, clean: Cleanup, fmt: Formatter): (advice: string)
    requires IsCurrencyFormatter(fmt)
    ensures EndsWithSoleMarker(advice, Tip(p.riskTolerance, DisposableIncome(p), fmt))
    ensures var tip := Tip(p.riskTolerance, DisposableIncome(p), fmt);
      advice[..|advice| - |tip|] == Strip(SplitHead(ProfileSummary(p, fmt) + clean(generated), Marker))
    ensures !Contains(p.goals, Marker) && !Contains(p.riskTolerance, Marker)
      ==> var s := ProfileSummary(p, fmt); |s| > 0 && s[..|s| - 1] <= advice
  {
    var tip := Tip(p.riskTolerance, DisposableIncome(p), fmt);
    var summary := ProfileSummary(p, fmt);
    TipShape(p.riskTolerance, DisposableIncome(p), fmt);
    SummaryKept(p, clean(generated), fmt);
    ReplaceTail(summary + clean(generated), tip)
  }

  /** The cut and the strip leave the summary, less its final space, at the
      front of the text the tip is appended to. */
  lemma SummaryKept(p: UserFinanceProfile, cleaned: string, fmt: Formatter)
    requires IsCurrencyFormatter(fmt)
    ensures !Contains(p.goals, Marker) && !Contains(p.riskTolerance, Marker)
      ==> var s := ProfileSummary(p, fmt); |s| > 0 && s[..|s| - 1] <= Strip(SplitHead(s + cleaned, Marker))
  {
    if !Contains(p.goals, Marker) && !Contains(p.riskTolerance, Marker) {
      SummaryShape(p, fmt);
      PrefixSurvivesCut(ProfileSummary(p, fmt), cleaned);
    }
  }

  /** Income 60000, expenses 54000: 6000 disposable, 6000 saved, and a
      Moderate user is told to keep an emergency fund of 3000 to 6000. */
  lemma ModerateScenario(fmt: Formatter)
    ensures var p := UserFinanceProfile(60000.0, 54000.0, "retirement", "Moderate");
      && DisposableIncome(p) == 6000.0
      && SavingsAmount(p) == 6000.0
      && Tip(p.riskTolerance, DisposableIncome(p), fmt) == ModerateTip(fmt(3000.0), fmt(6000.0))
  {
  }
}
