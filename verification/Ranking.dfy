/** What classify answers, stated on the signals found in the joined text. */
module Ranking {
  import opened Basics
  import opened Search
  import opened Classifier

  ghost function SignalsIn(text: string, signals: set<string>): set<string> {
    set w | w in signals && Contains(text, w)
  }

  /** All signals found in the text, label by label. */
  ghost function SignalCount(text: string, table: seq<Label>): nat {
    if |table| == 0 then 0 else |SignalsIn(text, table[0].signals)| + SignalCount(text, table[1..])
  }

  /** A score counts the signals found, each once. */
  lemma ScoreCounts(text: string, signals: set<string>, w: string)
    requires w !in signals
    ensures Score(text, {}) == 0
    ensures Score(text, signals + {w}) == Score(text, signals) + (if Contains(text, w) then 1 else 0)
  {
    var found := set x | x in signals && Contains(text, x);
    var more := set x | x in signals + {w} && Contains(text, x);
    assert more == if Contains(text, w) then found + {w} else found;
    assert (set x | x in {} && Contains(text, x)) == {};
  }

  lemma {:induction false} TotalIsSignalCount(text: string, table: seq<Label>)
    ensures Total(Scores(text, table)) == SignalCount(text, table)
  {
    if |table| == 0 {
    } else {
      TotalIsSignalCount(text, table[1..]);
      assert Scores(text, table)[1..] == Scores(text, table[1..]);
    }
  }

  /** Sorted by (-count, label), labels compared by code points. */
  ghost predicate RanksBefore(text: string, a: Label, b: Label) {
    var m, n := |SignalsIn(text, a.signals)|, |SignalsIn(text, b.signals)|;
    m > n || (m == n && CodePointsBefore(a.name, b.name))
  }

  ghost predicate IsRanking(text: string, table: seq<Label>, order: seq<Label>) {
    && |order| == |table|
    && (forall l :: l in order <==> l in table)
    && (forall i, j :: 0 <= i < j < |order| ==> RanksBefore(text, order[i], order[j]))
  }

  ghost function LabelScoring(text: string, table: seq<Label>, x: Scored): Label
    requires x in Scores(text, table)
  {
    var k :| 0 <= k < |table| && Scores(text, table)[k] == x;
    table[k]
  }

  lemma LabelScoringIs(text: string, table: seq<Label>, x: Scored)
    requires x in Scores(text, table)
    ensures var l := LabelScoring(text, table, x);
            l in table && x == Scored(l.name, |SignalsIn(text, l.signals)|)
  {
    var k :| 0 <= k < |table| && Scores(text, table)[k] == x && table[k] == LabelScoring(text, table, x);
  }

  lemma RankedLabels(text: string, table: seq<Label>, ranked: seq<Scored>) returns (order: seq<Label>)
    requires DistinctNames(table) && |ranked| == |table| && StrictlySorted(ranked, RankedBefore)
    requires forall x :: x in ranked <==> x in Scores(text, table)
    ensures IsRanking(text, table, order)
    ensures forall k :: 0 <= k < |ranked| ==> ranked[k] == Scored(order[k].name, |SignalsIn(text, order[k].signals)|)
  {
    assert forall k :: 0 <= k < |ranked| ==> ranked[k] in ranked;
    order := seq(|ranked|, k requires 0 <= k < |ranked| => LabelScoring(text, table, ranked[k]));
    forall k | 0 <= k < |ranked|
      ensures order[k] in table && ranked[k] == Scored(order[k].name, |SignalsIn(text, order[k].signals)|)
    {
      LabelScoringIs(text, table, ranked[k]);
    }
    forall l | l in table ensures l in order {
      var i :| 0 <= i < |table| && table[i] == l;
      var x := Scores(text, table)[i];
      assert x in ranked;
      var k :| 0 <= k < |ranked| && ranked[k] == x;
      assert order[k].name == l.name;
      assert order[k] == l;
    }
    forall i, j | 0 <= i < j < |order| ensures RanksBefore(text, order[i], order[j]) {
      assert RankedBefore(ranked[i], ranked[j]);
      StrLessIff(order[i].name, order[j].name);
    }
  }

  ghost predicate IsShare(text: string, l: Label, total: nat, alternative: (string, real)) {
    var found := |SignalsIn(text, l.signals)|;
    found > 0 && total > 0 && alternative == (l.name, found as real / total as real)
  }

  /** The second and third label of the ranking, as far as they scored, each with its share. */
  ghost predicate AreNextTwo(text: string, order: seq<Label>, total: nat, alternatives: seq<(string, real)>) {
    && |alternatives| ==
         (if |order| < 2 || SignalsIn(text, order[1].signals) == {} then 0
          else if |order| < 3 || SignalsIn(text, order[2].signals) == {} then 1
          else 2)
    && (forall k :: 0 <= k < |alternatives| ==> IsShare(text, order[k + 1], total, alternatives[k]))
  }

  lemma {:induction false} ScoringPrefix(s: seq<Scored>)
    requires Descending(s)
    ensures Scoring(s) <= |s|
    ensures forall k :: 0 <= k < |s| ==> (s[k].count > 0 <==> k < Scoring(s))
  {
    if |s| == 0 {
    } else {
      ScoringPrefix(s[1..]);
      assert forall k :: 0 < k < |s| ==> s[k] == s[1..][k - 1];
      if s[0].count == 0 { TotalBound(s[1..], 0); }
    }
  }

  lemma RunnersUpScoring(ranked: seq<Scored>)
    requires |ranked| > 0 && Descending(ranked)
    ensures Scoring(RunnersUp(ranked)) ==
              (if |ranked| < 2 || ranked[1].count == 0 then 0
               else if |ranked| < 3 || ranked[2].count == 0 then 1
               else 2)
  {
    var next := RunnersUp(ranked);
    ScoringPrefix(next);
    assert |next| > 0 ==> next[0] == ranked[1];
    assert |next| > 1 ==> next[1] == ranked[2];
  }

  lemma NextTwo(ranked: seq<Scored>, total: nat)
    requires |ranked| > 0 && Descending(ranked) && total > 0
    ensures var alternatives := Alternatives(RunnersUp(ranked), total);
            && |alternatives| == Scoring(RunnersUp(ranked))
            && |alternatives| < |ranked|
            && (forall k :: 0 <= k < |alternatives| ==>
                  && ranked[k + 1].count > 0
                  && alternatives[k] == (ranked[k + 1].name, Share(ranked[k + 1].count, total)))
  {
    var next := RunnersUp(ranked);
    AlternativesAreShares(next, total);
    assert forall k :: 0 <= k < |next| ==> next[k] == ranked[k + 1];
  }

  /** The whole answer: rank the labels by how many of their signals occur in the joined text, ties by name. The first
      is the label ("unknown" where nothing was found), its share of all signals found is the confidence, and the
      next two, as far as they scored, are the alternatives. */
  lemma ClassifyRanks(table: seq<Label>, pages: seq<string>) returns (order: seq<Label>)
    requires |table| > 0 && DistinctNames(table)
    ensures IsRanking(Join(pages), table, order)
    ensures var r, text, total := Classify(table, pages), Join(pages), SignalCount(Join(pages), table);
            var first := |SignalsIn(text, order[0].signals)|;
            && r.name == (if first > 0 then order[0].name else "unknown")
            && r.confidence == (if total == 0 then 0.0 else first as real / total as real)
            && AreNextTwo(text, order, total, r.alternatives)
  {
    var text := Join(pages);
    var scores := Scores(text, table);
    var ranked := Sort(scores, RankedBefore);
    RankedScores(text, table);
    order := RankedLabels(text, table, ranked);
    TotalIsSignalCount(text, table);
    TotalOfSort(scores);
    TotalBound(ranked, ranked[0].count);
    RankedDescending(ranked);
    RunnersUpScoring(ranked);
    var alternatives := Classify(table, pages).alternatives;
    if Total(scores) == 0 {
      NoAlternatives(RunnersUp(ranked));
    } else {
      NextTwo(ranked, Total(scores));
      forall k | 0 <= k < |alternatives| ensures IsShare(text, order[k + 1], Total(scores), alternatives[k]) {
        assert ranked[k + 1] == Scored(order[k + 1].name, |SignalsIn(text, order[k + 1].signals)|);
      }
    }
    assert |ranked| > 1 ==> ranked[1].count == |SignalsIn(text, order[1].signals)|;
    assert |ranked| > 2 ==> ranked[2].count == |SignalsIn(text, order[2].signals)|;
    assert ranked[0] == Scored(order[0].name, |SignalsIn(text, order[0].signals)|);
  }

  /** The chosen label has the most signals in the text, the first by code points among equals, and the
      confidence is its share of all signals found. */
  lemma WinnerIsBest(table: seq<Label>, pages: seq<string>)
    requires |table| > 0 && DistinctNames(table)
    ensures var r, text, total := Classify(table, pages), Join(pages), SignalCount(Join(pages), table);
            exists best ::
              && best in table
              && (forall l :: l in table && l != best ==> RanksBefore(text, best, l))
              && var found := |SignalsIn(text, best.signals)|;
                 && r.name == (if found > 0 then best.name else "unknown")
                 && r.confidence == (if total == 0 then 0.0 else found as real / total as real)
  {
    var order := ClassifyRanks(table, pages);
    var best := order[0];
    assert best in table;
    forall l | l in table && l != best ensures RanksBefore(Join(pages), best, l) {
      var k :| 0 <= k < |order| && order[k] == l;
    }
  }

  /** The labels that show at least one signal. */
  ghost function LabelsShown(text: string, table: seq<Label>): nat {
    if |table| == 0 then 0
    else (if SignalsIn(text, table[0].signals) != {} then 1 else 0) + LabelsShown(text, table[1..])
  }

  lemma {:induction false} ScoringIsLabelsShown(text: string, table: seq<Label>)
    ensures Scoring(Scores(text, table)) == LabelsShown(text, table)
    ensures LabelsShown(text, table) == 0 <==> forall l :: l in table ==> SignalsIn(text, l.signals) == {}
  {
    if |table| == 0 {
    } else {
      var tail := table[1..];
      ScoringIsLabelsShown(text, tail);
      assert table == [table[0]] + tail;
      assert Scores(text, table)[1..] == Scores(text, tail);
    }
  }

  /** "unknown" exactly where no signal of any label is found; confidence and alternatives sum to 1 exactly where one
      to three labels show a signal. */
  lemma UnknownIffNothingFound(table: seq<Label>, pages: seq<string>)
    requires |table| > 0 && DistinctNames(table) && NamesKnown(table)
    ensures var r, text := Classify(table, pages), Join(pages);
            && (r.name == "unknown" <==> forall l, w :: l in table && w in l.signals ==> !Contains(text, w))
            && (r.confidence + ShareSum(r.alternatives) == 1.0 <==> 1 <= LabelsShown(text, table) <= 3)
  {
    var text := Join(pages);
    ConfidenceBounds(table, pages);
    AlternativeBounds(table, pages);
    ScoringIsLabelsShown(text, table);
    if l, w :| l in table && w in l.signals && Contains(text, w) {
      assert w in SignalsIn(text, l.signals);
    }
    if l :| l in table && SignalsIn(text, l.signals) != {} {
      var w :| w in SignalsIn(text, l.signals);
    }
  }

  // ---- The shipped signals ----

  lemma {:induction false} NothingCounts(text: string, table: seq<Label>)
    requires forall j :: 0 <= j < |table| ==> SignalsIn(text, table[j].signals) == {}
    ensures SignalCount(text, table) == 0
  {
    if |table| == 0 {
    } else {
      NothingCounts(text, table[1..]);
    }
  }

  lemma {:induction false} OneLabelCounts(text: string, table: seq<Label>, k: nat)
    requires k < |table|
    requires forall j :: 0 <= j < |table| && j != k ==> SignalsIn(text, table[j].signals) == {}
    ensures SignalCount(text, table) == |SignalsIn(text, table[k].signals)|
  {
    if k == 0 {
      NothingCounts(text, table[1..]);
    } else {
      OneLabelCounts(text, table[1..], k - 1);
    }
  }

  const NAMES := ["pan", "aadhaar", "bank_statement", "salary_slip", "loan_agreement"]

  const SIGNAL_SETS: seq<set<string>> := [
    {"income tax", "permanent account number", "pan"},
    {"aadhaar", "uidai", "unique identification"},
    {"bank statement", "ifsc", "opening balance", "closing balance"},
    {"salary", "gross pay", "net pay", "pay slip", "payslip"},
    {"loan agreement", "borrower", "sanction", "repayment"}]

  lemma OrderDistinct(text: string, table: seq<Label>, order: seq<Label>, k: nat)
    requires DistinctNames(table) && IsRanking(text, table, order) && 0 < k < |order|
    ensures order[k] != order[0]
  {
    assert RanksBefore(text, order[0], order[k]);
    StrLessIff(order[0].name, order[k].name);
    StrLessTotal(order[0].name, order[k].name);
  }

  lemma OnlyLabelFirst(text: string, table: seq<Label>, order: seq<Label>, only: Label)
    requires IsRanking(text, table, order) && only in table && SignalsIn(text, only.signals) != {}
    requires forall l :: l in table && l != only ==> SignalsIn(text, l.signals) == {}
    ensures order[0] == only
  {
    var i :| 0 <= i < |order| && order[i] == only;
    assert order[0] in table;
    if i > 0 { assert RanksBefore(text, order[0], order[i]); }
  }

  lemma Whole(n: nat)
    requires n > 0
    ensures n as real / n as real == 1.0
  {
  }

  /** A label that alone has signals in the text is the answer, for certain. */
  lemma OnlyLabelShown(table: seq<Label>, pages: seq<string>, k: nat)
    requires DistinctNames(table) && k < |table|
    requires SignalsIn(Join(pages), table[k].signals) != {}
    requires forall j :: 0 <= j < |table| && j != k ==> SignalsIn(Join(pages), table[j].signals) == {}
    ensures Classify(table, pages) == Classification(table[k].name, 1.0, [])
  {
    var text := Join(pages);
    forall l | l in table && l != table[k] ensures SignalsIn(text, l.signals) == {} {
      var j :| 0 <= j < |table| && table[j] == l;
    }
    OneLabelCounts(text, table, k);
    var order := ClassifyRanks(table, pages);
    OnlyLabelFirst(text, table, order, table[k]);
    Whole(|SignalsIn(text, table[k].signals)|);
    if |order| > 1 {
      OrderDistinct(text, table, order, 1);
      assert order[1] in table && SignalsIn(text, order[1].signals) == {};
    }
    assert Classify(table, pages).alternatives == [];
  }

  /** A document that shows signals of one shipped label only gets that label, for certain. */
  lemma OneLabelShown(pages: seq<string>, k: nat)
    requires k < 5
    requires SignalsIn(Join(pages), SIGNAL_SETS[k]) != {}
    requires forall j :: 0 <= j < 5 && j != k ==> SignalsIn(Join(pages), SIGNAL_SETS[j]) == {}
    ensures Classify(SIGNALS, pages) == Classification(NAMES[k], 1.0, [])
  {
    BaselineTable();
    assert forall j :: 0 <= j < 5 ==> SIGNALS[j] == Label(NAMES[j], SIGNAL_SETS[j]);
    OnlyLabelShown(SIGNALS, pages, k);
  }
}
