/** KeywordDocumentClassifier.classify: score each label by its signals, rank, and normalise. */
module Classifier {
  import opened Basics
  import opened Search

  datatype Label = Label(name: string, signals: set<string>)

  datatype Scored = Scored(name: string, count: nat)

  /** Confidences are exact rationals here. */
  datatype Classification = Classification(name: string, confidence: real, alternatives: seq<(string, real)>)

  const SIGNALS: seq<Label> := [
    Label("pan", {"income tax", "permanent account number", "pan"}),
    Label("aadhaar", {"aadhaar", "uidai", "unique identification"}),
    Label("bank_statement", {"bank statement", "ifsc", "opening balance", "closing balance"}),
    Label("salary_slip", {"salary", "gross pay", "net pay", "pay slip", "payslip"}),
    Label("loan_agreement", {"loan agreement", "borrower", "sanction", "repayment"})
  ]

  function Score(text: string, signals: set<string>): nat {
    |set w | w in signals && Contains(text, w)|
  }

  function Scores(text: string, table: seq<Label>): seq<Scored> {
    seq(|table|, k requires 0 <= k < |table| => Scored(table[k].name, Score(text, table[k].signals)))
  }

  /** sorted(..., key=(-count, label)) */
  predicate RankedBefore(a: Scored, b: Scored) {
    a.count > b.count || (a.count == b.count && StrLess(a.name, b.name))
  }

  function Total(scores: seq<Scored>): nat {
    if |scores| == 0 then 0 else scores[0].count + Total(scores[1..])
  }

  function Share(count: nat, total: nat): real {
    if total == 0 then 0.0 else count as real / total as real
  }

  function Alternatives(ranked: seq<Scored>, total: nat): seq<(string, real)> {
    if |ranked| == 0 then []
    else (if ranked[0].count > 0 then [(ranked[0].name, Share(ranked[0].count, total))] else [])
         + Alternatives(ranked[1..], total)
  }

  /** ranked[1:3] */
  function RunnersUp(ranked: seq<Scored>): seq<Scored>
    requires |ranked| > 0
  {
    ranked[1..if |ranked| < 3 then |ranked| else 3]
  }

  /** `pages` is the page text in lower case. */
  function Classify(table: seq<Label>, pages: seq<string>): Classification
    requires |table| > 0
  {
    var scores := Scores(Join(pages), table);
    var ranked := Sort(scores, RankedBefore);
    SortElements(scores, RankedBefore);
    var total := Total(scores);
    Classification(
      if ranked[0].count > 0 then ranked[0].name else "unknown",
      Share(ranked[0].count, total),
      Alternatives(RunnersUp(ranked), total))
  }

  // ---- The ranking does not depend on the order of the label table ----

  ghost predicate DistinctNames(table: seq<Label>) {
    forall i, j :: 0 <= i < j < |table| ==> table[i].name != table[j].name
  }

  lemma RankingOrder()
    ensures Asymmetric(RankedBefore) && Transitive(RankedBefore)
  {
    forall a: Scored, b: Scored ensures RankedBefore(a, b) ==> !RankedBefore(b, a) {
      StrLessTotal(a.name, b.name);
    }
    forall a: Scored, b: Scored, c: Scored | RankedBefore(a, b) && RankedBefore(b, c) ensures RankedBefore(a, c) {
      if a.count == b.count && b.count == c.count {
        StrLessTransitive(a.name, b.name, c.name);
      }
    }
  }

  lemma RankedScores(text: string, table: seq<Label>)
    requires DistinctNames(table)
    ensures var scores := Scores(text, table);
            var ranked := Sort(scores, RankedBefore);
            && StrictlySorted(ranked, RankedBefore) && |ranked| == |table|
            && (forall x :: x in ranked <==> x in scores)
  {
    var scores := Scores(text, table);
    RankingOrder();
    forall i, j | 0 <= i < j < |scores|
      ensures RankedBefore(scores[i], scores[j]) || RankedBefore(scores[j], scores[i])
    {
      StrLessTotal(scores[i].name, scores[j].name);
    }
    SortSorted(scores, RankedBefore);
    SortElements(scores, RankedBefore);
  }

  lemma {:induction false} TotalOfInsert(x: Scored, s: seq<Scored>)
    ensures Total(Insert(x, s, RankedBefore)) == x.count + Total(s)
  {
    if |s| != 0 && !RankedBefore(x, s[0]) {
      TotalOfInsert(x, s[1..]);
    }
  }

  lemma {:induction false} TotalOfSort(s: seq<Scored>)
    ensures Total(Sort(s, RankedBefore)) == Total(s)
  {
    if |s| == 0 {
    } else {
      TotalOfSort(s[1..]);
      TotalOfInsert(s[0], Sort(s[1..], RankedBefore));
    }
  }

  lemma ScoresOfSameTable(text: string, table: seq<Label>, table': seq<Label>)
    requires forall l :: l in table <==> l in table'
    ensures forall x :: x in Scores(text, table) ==> x in Scores(text, table')
  {
    forall x | x in Scores(text, table) ensures x in Scores(text, table') {
      var k :| 0 <= k < |table| && Scores(text, table)[k] == x;
      assert table[k] in table';
      var k' :| 0 <= k' < |table'| && table'[k'] == table[k];
      assert Scores(text, table')[k'] == x;
    }
  }

  /** Reordering the label table changes nothing in the result. */
  lemma LabelOrderIrrelevant(table: seq<Label>, table': seq<Label>, pages: seq<string>)
    requires |table| > 0 && |table'| > 0 && DistinctNames(table) && DistinctNames(table')
    requires forall l :: l in table <==> l in table'
    ensures Classify(table, pages) == Classify(table', pages)
  {
    var text := Join(pages);
    ScoresOfSameTable(text, table, table');
    ScoresOfSameTable(text, table', table);
    RankedScores(text, table);
    RankedScores(text, table');
    RankingOrder();
    SortedListingUnique(
      Sort(Scores(text, table), RankedBefore), Sort(Scores(text, table'), RankedBefore), RankedBefore);
    TotalOfSort(Scores(text, table));
    TotalOfSort(Scores(text, table'));
  }

  // ---- Bounds on confidence and alternatives ----

  ghost predicate Descending(s: seq<Scored>) {
    forall i, j :: 0 <= i < j < |s| ==> s[i].count >= s[j].count
  }

  /** How many labels scored at all. */
  function Scoring(s: seq<Scored>): nat {
    if |s| == 0 then 0 else (if s[0].count > 0 then 1 else 0) + Scoring(s[1..])
  }

  lemma {:induction false} TotalBound(s: seq<Scored>, top: nat)
    requires forall k :: 0 <= k < |s| ==> s[k].count <= top
    ensures Total(s) <= |s| * top
    ensures Total(s) == 0 <==> Scoring(s) == 0
    ensures forall k :: 0 <= k < |s| ==> s[k].count <= Total(s)
  {
    if |s| == 0 {
    } else {
      TotalBound(s[1..], top);
      assert |s| * top == top + (|s| - 1) * top;
    }
  }

  lemma {:induction false} ScoringOfInsert(x: Scored, s: seq<Scored>)
    ensures Scoring(Insert(x, s, RankedBefore)) == (if x.count > 0 then 1 else 0) + Scoring(s)
  {
    if |s| != 0 && !RankedBefore(x, s[0]) {
      ScoringOfInsert(x, s[1..]);
    }
  }

  lemma {:induction false} ScoringOfSort(s: seq<Scored>)
    ensures Scoring(Sort(s, RankedBefore)) == Scoring(s)
  {
    if |s| == 0 {
    } else {
      ScoringOfSort(s[1..]);
      ScoringOfInsert(s[0], Sort(s[1..], RankedBefore));
    }
  }

  function ShareSum(alternatives: seq<(string, real)>): real {
    if |alternatives| == 0 then 0.0 else alternatives[0].1 + ShareSum(alternatives[1..])
  }

  lemma ShareBounds(count: nat, total: nat, n: nat)
    requires 0 < count <= total <= n * count && n > 0
    ensures 1.0 / n as real <= Share(count, total) <= 1.0
  {
    var c, t, m := count as real, total as real, n as real;
    assert t <= m * c by { assert m * c == (n * count) as real; }
    assert (c / t) * t == c;
    assert (1.0 / m) * m == 1.0;
    if c / t < 1.0 / m {
      assert (c / t) * (t * m) < (1.0 / m) * (t * m);
      assert (c / t) * (t * m) == c * m && (1.0 / m) * (t * m) == t;
    }
  }

  lemma ShareOrder(a: nat, b: nat, total: nat)
    requires a <= b && total > 0
    ensures 0.0 <= Share(a, total) <= Share(b, total)
    ensures a > 0 ==> Share(a, total) > 0.0
  {
    var x, y, t := a as real, b as real, total as real;
    assert (x / t) * t == x && (y / t) * t == y;
  }

  lemma ShareAdds(a: nat, b: nat, total: nat)
    requires total > 0
    ensures Share(a, total) + Share(b, total) == Share(a + b, total)
    ensures a <= total ==> Share(a, total) <= 1.0
    ensures Share(a, total) == 1.0 <==> a == total
  {
    var x, t := a as real, total as real;
    assert (a + b) as real == x + b as real;
    assert (x / t) * t == x;
  }

  /** The alternatives are the shares of those runners-up that scored, in rank order. */
  lemma {:induction false} AlternativesAreShares(s: seq<Scored>, total: nat)
    requires Descending(s)
    ensures var alts := Alternatives(s, total);
            && |alts| == Scoring(s) <= |s|
            && (forall k :: 0 <= k < |alts| ==> alts[k] == (s[k].name, Share(s[k].count, total)) && s[k].count > 0)
  {
    if |s| == 0 {
    } else {
      AlternativesAreShares(s[1..], total);
      if s[0].count == 0 {
        TotalBound(s[1..], 0);
      }
    }
  }

  lemma AlternativesOfCons(s: seq<Scored>, total: nat)
    requires |s| > 0
    ensures var tail := ShareSum(Alternatives(s[1..], total));
            ShareSum(Alternatives(s, total)) == if s[0].count > 0 then Share(s[0].count, total) + tail else tail
  {
    var tail := Alternatives(s[1..], total);
    if s[0].count > 0 {
      assert Alternatives(s, total)[1..] == tail;
    } else {
      assert [] + tail == tail;
    }
  }

  lemma {:induction false} AlternativesSum(s: seq<Scored>, total: nat)
    requires total > 0
    ensures ShareSum(Alternatives(s, total)) == Share(Total(s), total)
  {
    if |s| == 0 {
    } else {
      AlternativesSum(s[1..], total);
      AlternativesOfCons(s, total);
      ShareAdds(s[0].count, Total(s[1..]), total);
    }
  }

  lemma {:induction false} ScoringAtMost(s: seq<Scored>)
    ensures Scoring(s) <= |s|
  {
    if |s| == 0 {
    } else {
      ScoringAtMost(s[1..]);
    }
  }

  lemma {:induction false} ScoringAll(s: seq<Scored>)
    requires forall k :: 0 <= k < |s| ==> s[k].count > 0
    ensures Scoring(s) == |s|
  {
    if |s| == 0 {
    } else {
      ScoringAll(s[1..]);
    }
  }

  /** Beyond the first `first` scores nothing is left exactly when no more labels than those scored. */
  lemma NothingBeyond(first: seq<Scored>, rest: seq<Scored>)
    requires |first| > 0 && |rest| > 0
    requires forall i, j :: 0 <= i < |first| && 0 <= j < |rest| ==> first[i].count >= rest[j].count
    requires forall j :: 0 <= j < |rest| ==> rest[0].count >= rest[j].count
    ensures Total(rest) == 0 <==> Scoring(first) + Scoring(rest) <= |first|
  {
    TotalBound(rest, rest[0].count);
    ScoringAtMost(first);
    if rest[0].count > 0 { ScoringAll(first); }
  }

  lemma {:induction false} TotalConcat(a: seq<Scored>, b: seq<Scored>)
    ensures Total(a + b) == Total(a) + Total(b) && Scoring(a + b) == Scoring(a) + Scoring(b)
  {
    if |a| == 0 {
      assert a + b == b;
    } else {
      assert (a + b)[1..] == a[1..] + b;
      TotalConcat(a[1..], b);
    }
  }

  /** Total of the first three ranked scores: everything exactly when at most three labels scored. */
  lemma FirstThree(ranked: seq<Scored>)
    requires |ranked| > 0 && Descending(ranked)
    ensures var head := ranked[0].count + Total(RunnersUp(ranked));
            head <= Total(ranked) && (head == Total(ranked) <==> Scoring(ranked) <= 3)
    ensures Scoring(RunnersUp(ranked)) <= 2
  {
    var next := RunnersUp(ranked);
    var first := [ranked[0]] + next;
    ScoringAtMost(next);
    ScoringAtMost(first);
    assert first[1..] == next;
    if |ranked| <= 3 {
      assert ranked == first;
    } else {
      var rest := ranked[3..];
      assert ranked == first + rest;
      TotalConcat(first, rest);
      assert forall k :: 0 <= k < |rest| ==> rest[k] == ranked[k + 3];
      assert forall k :: 0 <= k < 3 ==> first[k] == ranked[k];
      NothingBeyond(first, rest);
    }
  }

  lemma RankedDescending(s: seq<Scored>)
    requires StrictlySorted(s, RankedBefore)
    ensures Descending(s)
  {
  }

  /** No label is called "unknown", so the label alone tells whether anything scored. */
  ghost predicate NamesKnown(table: seq<Label>) {
    forall k :: 0 <= k < |table| ==> table[k].name != "unknown"
  }

  lemma TopShare(ranked: seq<Scored>)
    requires |ranked| > 0 && Descending(ranked)
    ensures var share := Share(ranked[0].count, Total(ranked));
            && (ranked[0].count == 0 <==> share == 0.0)
            && (ranked[0].count == 0 <==> Scoring(ranked) == 0)
            && (ranked[0].count > 0 ==> 1.0 / |ranked| as real <= share <= 1.0)
  {
    TotalBound(ranked, ranked[0].count);
    if ranked[0].count > 0 {
      ShareBounds(ranked[0].count, Total(ranked), |ranked|);
      ShareOrder(ranked[0].count, ranked[0].count, Total(ranked));
    }
  }

  /** Nothing scored exactly when the label is "unknown", and then the confidence is 0; otherwise it lies
      between 1 / (number of labels) and 1. */
  lemma ConfidenceBounds(table: seq<Label>, pages: seq<string>)
    requires |table| > 0 && DistinctNames(table) && NamesKnown(table)
    ensures var r := Classify(table, pages);
            && (r.name == "unknown" <==> r.confidence == 0.0)
            && (r.name == "unknown" <==> Scoring(Scores(Join(pages), table)) == 0)
            && (r.name != "unknown" ==> 1.0 / |table| as real <= r.confidence <= 1.0)
  {
    var scores := Scores(Join(pages), table);
    var ranked := Sort(scores, RankedBefore);
    RankedScores(Join(pages), table);
    RankedDescending(ranked);
    TotalOfSort(scores);
    ScoringOfSort(scores);
    assert ranked[0] in scores;
    TopShare(ranked);
  }

  lemma AlternativesOrdered(s: seq<Scored>, total: nat)
    requires Descending(s) && total > 0
    ensures forall k :: 0 <= k < |s| && s[k].count > 0 ==> Share(s[k].count, total) > 0.0
    ensures |s| >= 2 ==> Share(s[0].count, total) >= Share(s[1].count, total)
  {
    forall k | 0 <= k < |s| && s[k].count > 0 ensures Share(s[k].count, total) > 0.0 {
      ShareOrder(s[k].count, s[k].count, total);
    }
    if |s| >= 2 { ShareOrder(s[1].count, s[0].count, total); }
  }

  lemma {:induction false} NoAlternatives(s: seq<Scored>)
    requires forall k :: 0 <= k < |s| ==> s[k].count == 0
    ensures Alternatives(s, 0) == []
  {
    if |s| == 0 {
    } else {
      NoAlternatives(s[1..]);
    }
  }

  lemma RankedAlternatives(ranked: seq<Scored>)
    requires |ranked| > 0 && Descending(ranked)
    requires forall k :: 0 <= k < |ranked| ==> ranked[k].count <= Total(ranked)
    ensures var total := Total(ranked);
            var confidence, alternatives := Share(ranked[0].count, total), Alternatives(RunnersUp(ranked), total);
            && |alternatives| <= 2
            && (forall k :: 0 <= k < |alternatives| ==> 0.0 < alternatives[k].1 <= confidence)
            && (|alternatives| == 2 ==> alternatives[0].1 >= alternatives[1].1)
  {
    var total, next := Total(ranked), RunnersUp(ranked);
    if total > 0 {
      AlternativesAreShares(next, total);
      forall k | 0 <= k < |next| ensures Share(next[k].count, total) <= Share(ranked[0].count, total) {
        ShareOrder(next[k].count, ranked[0].count, total);
      }
      AlternativesOrdered(next, total);
    } else {
      NoAlternatives(next);
    }
  }

  lemma SharesOfParts(a: nat, b: nat, total: nat)
    requires a + b <= total && total > 0
    ensures Share(a, total) + Share(b, total) <= 1.0
    ensures Share(a, total) + Share(b, total) == 1.0 <==> a + b == total
  {
    ShareAdds(a, b, total);
    ShareAdds(a + b, 0, total);
  }

  lemma RankedShares(ranked: seq<Scored>)
    requires |ranked| > 0 && Descending(ranked) && (Total(ranked) == 0 <==> Scoring(ranked) == 0)
    requires forall k :: 0 <= k < |ranked| ==> ranked[k].count <= Total(ranked)
    ensures var total := Total(ranked);
            var sum := Share(ranked[0].count, total) + ShareSum(Alternatives(RunnersUp(ranked), total));
            sum <= 1.0 && (sum == 1.0 <==> 1 <= Scoring(ranked) <= 3)
  {
    var total, next := Total(ranked), RunnersUp(ranked);
    FirstThree(ranked);
    if total > 0 {
      AlternativesSum(next, total);
      SharesOfParts(ranked[0].count, Total(next), total);
    } else {
      NoAlternatives(next);
    }
  }

  /** At most two alternatives, each positive, in descending order and no larger than the confidence; with the
      confidence they sum to at most 1, and to 1 exactly when one to three labels scored. */
  lemma AlternativeBounds(table: seq<Label>, pages: seq<string>)
    requires |table| > 0 && DistinctNames(table) && NamesKnown(table)
    ensures var r := Classify(table, pages);
            && |r.alternatives| <= 2
            && (forall k :: 0 <= k < |r.alternatives| ==> 0.0 < r.alternatives[k].1 <= r.confidence)
            && (|r.alternatives| == 2 ==> r.alternatives[0].1 >= r.alternatives[1].1)
            && r.confidence + ShareSum(r.alternatives) <= 1.0
            && (r.confidence + ShareSum(r.alternatives) == 1.0 <==>
                1 <= Scoring(Scores(Join(pages), table)) <= 3)
  {
    var scores := Scores(Join(pages), table);
    var ranked := Sort(scores, RankedBefore);
    RankedScores(Join(pages), table);
    RankedDescending(ranked);
    TotalOfSort(scores);
    ScoringOfSort(scores);
    TotalBound(ranked, ranked[0].count);
    RankedAlternatives(ranked);
    RankedShares(ranked);
  }

  lemma BaselineTable()
    ensures |SIGNALS| == 5 && DistinctNames(SIGNALS) && NamesKnown(SIGNALS)
  {
  }

  /** For the shipped table: confidence 0 or in [1/5, 1]. */
  lemma BaselineConfidence(pages: seq<string>)
    ensures var r := Classify(SIGNALS, pages);
            (r.name == "unknown" && r.confidence == 0.0) || (r.name != "unknown" && 0.2 <= r.confidence <= 1.0)
  {
    BaselineTable();
    ConfidenceBounds(SIGNALS, pages);
  }

  // ---- More pages never lower a score ----

  lemma Subset<T>(a: set<T>, b: set<T>)
    requires a <= b
    ensures |a| <= |b|
  {
    assert b == a + (b - a);
    assert |b| == |a| + |b - a|;
  }

  lemma ScoresGrow(before: seq<string>, pages: seq<string>, after: seq<string>, signals: set<string>)
    ensures Score(Join(pages), signals) <= Score(Join(before + pages + after), signals)
  {
    var text, more := Join(pages), Join(before + pages + after);
    var found := set w | w in signals && Contains(text, w);
    var foundMore := set w | w in signals && Contains(more, w);
    forall w | w in found ensures w in foundMore {
      if |w| == 0 {
        assert OccursAt(more, w, 0);
      } else {
        JoinGrows(before, pages, after, w);
      }
    }
    Subset(found, foundMore);
  }
}
