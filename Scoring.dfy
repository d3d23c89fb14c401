/**
 * The scoring rule of the adult attachment-deficiency test: the answers are
 * summed, the total is compared with the largest possible total (four points
 * per question), and the resulting percentage selects one of three fixed
 * title/description pairs. Also the text that is handed to the share or
 * clipboard service.
 *
 * The percentage `(total / maxScore) * 100` is compared here by
 * cross-multiplication with the positive `maxScore`, so that every
 * comparison is exact integer arithmetic.
 */
module Scoring {

  /** The three outcome buckets, from most to least severe. */
  datatype Category = Severe | Moderate | Healthy

  /** What the result screen shows. */
  datatype Outcome = Outcome(title: string, description: string)

  const SevereTitle := "심각한 애정 결핍"
  const SevereDescription := "당신은 높은 수준의 애정 결핍을 경험하고 있을 수 있습니다. 전문가와의 상담을 고려해보세요."
  const ModerateTitle := "중간 수준의 애정 결핍"
  const ModerateDescription := "당신은 중간 정도의 애정 결핍을 겪고 있습니다. 자신을 돌보는 시간을 가져보세요."
  const HealthyTitle := "건강한 상태"
  const HealthyDescription := "당신은 비교적 건강한 애착 관계를 형성하고 있습니다."

  /** Fixed parts of the share message. */
  const SharePrefix := "성인 애정 결핍 테스트 결과: "
  const ShareLabel := "테스트 하러가기: "

  /** The scores the answer buttons offer. */
  predicate IsScore(x: int) { 1 <= x <= 4 }

  predicate AllScores(xs: seq<int>) { forall i :: 0 <= i < |xs| ==> IsScore(xs[i]) }

  /**
   * Left-to-right sum, as `reduce((acc, curr) => acc + curr, 0)` computes it.
   * `k` answers, each a score the buttons offer, total between `k` and `4k`.
   */
  function Sum(xs: seq<int>): (r: int)
    ensures AllScores(xs) ==> |xs| <= r <= 4 * |xs|
  {
    if |xs| == 0 then 0 else Sum(xs[..|xs| - 1]) + xs[|xs| - 1]
  }

  /** The largest possible total for `n` questions. */
  function MaxScore(n: nat): nat { n * 4 }

  /**
   * Thresholds 75 and 50 percent, inclusive, tested in descending order.
   * `(total / maxScore) * 100 >= p` is `100 * total >= p * maxScore` since
   * `maxScore > 0`. Stated per question: an average score of at least 3 is
   * severe, of at least 2 moderate.
   */
  function Classify(total: int, n: nat): (c: Category)
    requires n >= 1
    ensures c == Severe <==> total >= 3 * n
    ensures c == Moderate <==> 2 * n <= total < 3 * n
    ensures c == Healthy <==> total < 2 * n
  {
    var maxScore := MaxScore(n);
    if 100 * total >= 75 * maxScore then Severe
    else if 100 * total >= 50 * maxScore then Moderate
    else Healthy
  }

  /** The fixed title/description pair of each category. */
  function OutcomeOf(c: Category): (r: Outcome)
    ensures r.title == SevereTitle <==> c == Severe
    ensures r.title == ModerateTitle <==> c == Moderate
    ensures r.title == HealthyTitle <==> c == Healthy
  {
    match c
    case Severe => Outcome(SevereTitle, SevereDescription)
    case Moderate => Outcome(ModerateTitle, ModerateDescription)
    case Healthy => Outcome(HealthyTitle, HealthyDescription)
  }

  /** A rank for comparing categories: higher is more severe. */
  function Severity(c: Category): nat
  {
    match c
    case Healthy => 0
    case Moderate => 1
    case Severe => 2
  }

  /** `calculateResult()`: the outcome for the collected answers and `n` questions. */
  function CalculateResult(answers: seq<int>, n: nat): (r: Outcome)
    requires n >= 1
    ensures r.title == SevereTitle <==> 4 * Sum(answers) >= 3 * MaxScore(n)
    ensures r.title == ModerateTitle <==> 2 * Sum(answers) >= MaxScore(n) && 4 * Sum(answers) < 3 * MaxScore(n)
    ensures r.title == HealthyTitle <==> 2 * Sum(answers) < MaxScore(n)
    ensures r.title == SevereTitle ==> r.description == SevereDescription
    ensures r.title == ModerateTitle ==> r.description == ModerateDescription
    ensures r.title == HealthyTitle ==> r.description == HealthyDescription
  {
    OutcomeOf(Classify(Sum(answers), n))
  }

  /** `shareText`: the message given to the share or clipboard service. */
  function ShareText(title: string, description: string, url: string): (r: string)
    ensures |r| == |SharePrefix| + |title| + 1 + |description| + 2 + |ShareLabel| + |url|
    ensures r[..|SharePrefix|] == SharePrefix
    ensures r[|SharePrefix|..|SharePrefix| + |title|] == title
    ensures r[|SharePrefix| + |title|] == '\n'
    ensures r[|SharePrefix| + |title| + 1..|SharePrefix| + |title| + 1 + |description|] == description
    ensures r[|SharePrefix| + |title| + 1 + |description|..|SharePrefix| + |title| + 1 + |description| + 2] == "\n\n"
    ensures r[|r| - |url| - |ShareLabel|..|r| - |url|] == ShareLabel
    ensures r[|r| - |url|..] == url
  {
    SharePrefix + title + "\n" + description + "\n\n" + ShareLabel + url
  }

  // ---------------------------------------------------------------------
  // Lemmas about the sum

  lemma {:induction false} SumAppend(a: seq<int>, b: seq<int>)
    ensures Sum(a + b) == Sum(a) + Sum(b)
  {
    if |b| == 0 {
      assert a + b == a;
    } else {
      assert (a + b)[..|a + b| - 1] == a + b[..|b| - 1];
      SumAppend(a, b[..|b| - 1]);
    }
  }

  /** Appending one answer adds exactly that answer. */
  lemma SumSnoc(xs: seq<int>, x: int)
    ensures Sum(xs + [x]) == Sum(xs) + x
  {
    assert (xs + [x])[..|xs|] == xs;
  }

  /** Taking out one answer lowers the sum by exactly that answer. */
  lemma SumRemove(front: seq<int>, x: int, back: seq<int>)
    ensures Sum(front + [x] + back) == Sum(front + back) + x
  {
    SumAppend(front + [x], back);
    SumSnoc(front, x);
    SumAppend(front, back);
  }

  /** A sequence is its part before `i`, the element at `i` and its part after. */
  lemma SplitAt(b: seq<int>, i: nat)
    requires i < |b|
    ensures b == b[..i] + [b[i]] + b[i + 1..]
    ensures multiset(b[..i] + b[i + 1..]) == multiset(b) - multiset{b[i]}
  {
  }

  /** Dropping the last element removes one copy of it from the multiset. */
  lemma DropLast(a: seq<int>)
    requires |a| > 0
    ensures multiset(a[..|a| - 1]) == multiset(a) - multiset{a[|a| - 1]}
  {
    assert a == a[..|a| - 1] + [a[|a| - 1]];
  }

  /** The sum does not depend on the order of the answers. */
  lemma {:induction false} SumPermutation(a: seq<int>, b: seq<int>)
    requires multiset(a) == multiset(b)
    ensures Sum(a) == Sum(b)
  {
    if |a| == 0 {
      assert |multiset(b)| == 0;
    } else {
      var x := a[|a| - 1];
      DropLast(a);
      assert x in multiset(b);
      var i :| 0 <= i < |b| && b[i] == x;
      SplitAt(b, i);
      SumPermutation(a[..|a| - 1], b[..i] + b[i + 1..]);
      SumRemove(b[..i], x, b[i + 1..]);
    }
  }

  /** Raising answers one by one never lowers the sum. */
  lemma {:induction false} SumMonotone(a: seq<int>, b: seq<int>)
    requires |a| == |b|
    requires forall i :: 0 <= i < |a| ==> a[i] <= b[i]
    ensures Sum(a) <= Sum(b)
  {
    if |a| > 0 {
      SumMonotone(a[..|a| - 1], b[..|b| - 1]);
    }
  }

  /** `k` answers all equal to `c` total `c * k`. */
  lemma {:induction false} SumConstant(xs: seq<int>, c: int)
    requires forall i :: 0 <= i < |xs| ==> xs[i] == c
    ensures Sum(xs) == c * |xs|
  {
    if |xs| > 0 {
      var k := |xs| - 1;
      var init := xs[..k];
      SumConstant(init, c);
      assert xs == init + [c];
      SumSnoc(init, c);
      Distribute(c, k);
    }
  }

  /**
   * The one multiplication step `SumConstant` needs, kept apart so that the
   * solver does not mix non-linear arithmetic with the sequence facts there.
   */
  lemma Distribute(c: int, k: nat)
    ensures c * (k + 1) == c * k + c
  {
  }

  // ---------------------------------------------------------------------
  // Lemmas about the result

  /** The result depends only on the answers' total: reordering them changes nothing. */
  lemma ResultPermutationInvariant(a: seq<int>, b: seq<int>, n: nat)
    requires n >= 1
    requires multiset(a) == multiset(b)
    ensures CalculateResult(a, n) == CalculateResult(b, n)
  {
    SumPermutation(a, b);
  }

  /** A larger total never gives a less severe category. */
  lemma ClassifyMonotone(t1: int, t2: int, n: nat)
    requires n >= 1
    requires t1 <= t2
    ensures Severity(Classify(t1, n)) <= Severity(Classify(t2, n))
  {
  }

  /** Raising any answers never gives a less severe result. */
  lemma ResultMonotone(a: seq<int>, b: seq<int>, n: nat)
    requires n >= 1
    requires |a| == |b|
    requires forall i :: 0 <= i < |a| ==> a[i] <= b[i]
    ensures Severity(Classify(Sum(a), n)) <= Severity(Classify(Sum(b), n))
    ensures CalculateResult(a, n).title == SevereTitle ==> CalculateResult(b, n).title == SevereTitle
    ensures CalculateResult(b, n).title == HealthyTitle ==> CalculateResult(a, n).title == HealthyTitle
  {
    SumMonotone(a, b);
    ClassifyMonotone(Sum(a), Sum(b), n);
  }

  /** Lower bounds are inclusive: the boundary cases for ten questions (maximum 40). */
  lemma TenQuestionBoundaries(answers: seq<int>)
    requires |answers| == 10
    ensures Sum(answers) == 30 ==> CalculateResult(answers, 10).title == SevereTitle
    ensures Sum(answers) == 29 ==> CalculateResult(answers, 10).title == ModerateTitle
    ensures Sum(answers) == 20 ==> CalculateResult(answers, 10).title == ModerateTitle
    ensures Sum(answers) == 19 ==> CalculateResult(answers, 10).title == HealthyTitle
  {
  }

  /** Answering "not at all" (1) to every question gives the healthy result. */
  lemma AllLowestIsHealthy(answers: seq<int>, n: nat)
    requires n >= 1 && |answers| == n
    requires forall i :: 0 <= i < |answers| ==> answers[i] == 1
    ensures CalculateResult(answers, n) == Outcome(HealthyTitle, HealthyDescription)
  {
    SumConstant(answers, 1);
  }

  /** Answering "very much" (4) to every question gives the severe result. */
  lemma AllHighestIsSevere(answers: seq<int>, n: nat)
    requires n >= 1 && |answers| == n
    requires forall i :: 0 <= i < |answers| ==> answers[i] == 4
    ensures CalculateResult(answers, n) == Outcome(SevereTitle, SevereDescription)
  {
    SumConstant(answers, 4);
  }
}
