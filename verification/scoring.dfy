/**
 * Scoring of a mock-test submission (client/src/pages/mock-test-page.tsx,
 * `handleSubmit`): the number of correct answers and the rounded percentage.
 */
module Scoring {
  import opened Schema

  /** The reduce: counts, left to right, the answers equal to their question's correct option. */
  function CorrectAnswers(answers: seq<int>, questions: seq<Question>): (r: nat)
    requires |answers| <= |questions|
    ensures r <= |answers|
  {
    if answers == [] then 0
    else
      var last := |answers| - 1;
      CorrectAnswers(answers[..last], questions)
        + (if answers[last] == questions[last].correctOption then 1 else 0)
  }

  /** The positions at which the answer is the correct option. */
  ghost function CorrectPositions(answers: seq<int>, questions: seq<Question>): set<int>
    requires |answers| <= |questions|
  {
    set i | 0 <= i < |answers| && answers[i] == questions[i].correctOption
  }

  /** The count is the number of correctly answered positions. */
  lemma {:induction false} CorrectAnswersCountsPositions(answers: seq<int>, questions: seq<Question>)
    requires |answers| <= |questions|
    ensures CorrectAnswers(answers, questions) == |CorrectPositions(answers, questions)|
  {
    if answers != [] {
      var last := |answers| - 1;
      var prefix := answers[..last];
      CorrectAnswersCountsPositions(prefix, questions);
      var before := CorrectPositions(prefix, questions);
      var after := CorrectPositions(answers, questions);
      if answers[last] == questions[last].correctOption {
        assert after == before + {last};
      } else {
        assert after == before;
      }
    }
  }

  /** Every answer counts exactly when every answer is correct. */
  lemma {:induction false} AllCorrectIffFull(answers: seq<int>, questions: seq<Question>)
    requires |answers| <= |questions|
    ensures CorrectAnswers(answers, questions) == |answers|
        <==> forall i :: 0 <= i < |answers| ==> answers[i] == questions[i].correctOption
  {
    if answers != [] {
      var last := |answers| - 1;
      AllCorrectIffFull(answers[..last], questions);
      assert forall i :: 0 <= i < last ==> answers[..last][i] == answers[i];
    }
  }

  /** An unanswered entry never counts when correct options are non-negative. */
  lemma {:induction false} UnansweredNeverCounts(answers: seq<int>, questions: seq<Question>)
    requires |answers| <= |questions|
    requires forall i :: 0 <= i < |answers| ==> questions[i].correctOption >= 0
    ensures CorrectAnswers(answers, questions) <= |set i | 0 <= i < |answers| && answers[i] != Unanswered|
  {
    CorrectAnswersCountsPositions(answers, questions);
    var answered := set i | 0 <= i < |answers| && answers[i] != Unanswered;
    assert CorrectPositions(answers, questions) <= answered;
    SubsetCardinality(CorrectPositions(answers, questions), answered);
  }

  lemma SubsetCardinality(a: set<int>, b: set<int>)
    requires a <= b
    ensures |a| <= |b|
  {
    assert b == a + (b - a);
  }

  /** With every entry unanswered nothing counts. */
  lemma {:induction false} AllUnansweredCountsZero(answers: seq<int>, questions: seq<Question>)
    requires |answers| <= |questions|
    requires forall i :: 0 <= i < |answers| ==> answers[i] == Unanswered && questions[i].correctOption >= 0
    ensures CorrectAnswers(answers, questions) == 0
  {
    if answers != [] {
      AllUnansweredCountsZero(answers[..|answers| - 1], questions);
    }
  }

  /**
   * `Math.round(correct / total * 100)`, taken over exact rationals: the
   * percentage rounded half up. The result lies within one half of
   * 100 * correct / total, and in 0..100.
   */
  function Score(correct: nat, total: nat): (r: nat)
    requires 0 < total && correct <= total
    ensures r <= 100
    ensures total * (2 * r - 1) <= 200 * correct < total * (2 * r + 1)
  {
    RoundingBounds(correct, total);
    (200 * correct + total) / (2 * total)
  }

  lemma RoundingBounds(correct: nat, total: nat)
    requires 0 < total && correct <= total
    ensures var q := (200 * correct + total) / (2 * total);
      q <= 100 && total * (2 * q - 1) <= 200 * correct < total * (2 * q + 1)
  {
    var x, d := 200 * correct + total, 2 * total;
    var q := x / d;
    DivBounds(x, d);
    assert d * q == 2 * (total * q);
    assert total * (2 * q - 1) == 2 * (total * q) - total;
    assert total * (2 * q + 1) == 2 * (total * q) + total;
    if q > 100 {
      MulMonotonic(d, 101, q);
      assert false;
    }
  }

  lemma DivBounds(x: nat, d: nat)
    requires 0 < d
    ensures d * (x / d) <= x < d * (x / d) + d
  {
  }

  /** Round-half-up has one answer: any r within one half of the percentage is the score. */
  lemma ScoreIsTheRounding(correct: nat, total: nat, r: int)
    requires 0 < total && correct <= total
    requires total * (2 * r - 1) <= 200 * correct < total * (2 * r + 1)
    ensures r == Score(correct, total)
  {
    var s := Score(correct, total);
    if r < s {
      MulMonotonic(total, 2 * r + 1, 2 * s - 1);
    } else if s < r {
      MulMonotonic(total, 2 * s + 1, 2 * r - 1);
    }
  }

  lemma MulMonotonic(n: nat, a: int, b: int)
    requires a <= b
    ensures n * a <= n * b
  {
  }

  /** More correct answers never lower the score. */
  lemma ScoreMonotonic(c1: nat, c2: nat, total: nat)
    requires 0 < total && c1 <= c2 <= total
    ensures Score(c1, total) <= Score(c2, total)
  {
    var s1, s2 := Score(c1, total), Score(c2, total);
    if s2 < s1 {
      MulMonotonic(total, 2 * s2 + 1, 2 * s1 - 1);
    }
  }

  /** No correct answer scores 0 and all correct scores 100. */
  lemma ScoreExtremes(total: nat)
    requires 0 < total
    ensures Score(0, total) == 0 && Score(total, total) == 100
  {
    ScoreIsTheRounding(0, total, 0);
    ScoreIsTheRounding(total, total, 100);
  }

  /** 37 of 50 is 74, 1 of 3 is 33 and 3 of 5 is 60. */
  lemma ScoreExamples()
    ensures Score(37, 50) == 74 && Score(1, 3) == 33 && Score(3, 5) == 60
  {
  }

  /**
   * Answers [0,1,2,0,3] against correct options [0,1,1,0,3]: positions 0, 1,
   * 3 and 4 agree, so four are correct and the score is 80.
   */
  lemma FiveQuestionExample(questions: seq<Question>)
    requires |questions| == 5
    requires questions[0].correctOption == 0 && questions[1].correctOption == 1
    requires questions[2].correctOption == 1 && questions[3].correctOption == 0
    requires questions[4].correctOption == 3
    ensures CorrectAnswers([0, 1, 2, 0, 3], questions) == 4
    ensures Score(CorrectAnswers([0, 1, 2, 0, 3], questions), 5) == 80
  {
    var a := [0, 1, 2, 0, 3];
    assert CorrectAnswers(a[..1], questions) == 1 by {
      assert a[..1][..0] == [];
    }
    assert CorrectAnswers(a[..2], questions) == 2 by {
      assert a[..2][..1] == a[..1];
    }
    assert CorrectAnswers(a[..3], questions) == 2 by {
      assert a[..3][..2] == a[..2];
    }
    assert CorrectAnswers(a[..4], questions) == 3 by {
      assert a[..4][..3] == a[..3];
    }
    assert a[..4] == a[..|a| - 1];
  }
}
