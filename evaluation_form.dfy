/**
 * The committee's evaluation form: four scored categories with capped
 * scores, a total, a one-decimal percentage with its letter grade, and two
 * editable lists of free-text remarks.
 */
module EvaluationForm {
  import opened Wrappers
  import opened Domain
  import Seqs

  /** The four categories, each with its maximum and a starting score of 0. */
  function DefaultScores(): seq<ScoreEntry> {
    [ScoreEntry("Technical Implementation", 0, 50),
     ScoreEntry("Innovation & Creativity", 0, 20),
     ScoreEntry("Project Management", 0, 15),
     ScoreEntry("Presentation", 0, 15)]
  }

  /** The default maxima add up to 100 and the starting total is 0. */
  lemma DefaultScoresFacts()
    ensures |DefaultScores()| == 4
    ensures MaxScore(DefaultScores()) == 100
    ensures TotalScore(DefaultScores()) == 0
    ensures forall i | 0 <= i < 4 :: DefaultScores()[i].score == 0
  {
    var d := DefaultScores();
    assert d[1..][1..][1..][1..] == [];
  }

  predicate ScoresWithinMax(scores: seq<ScoreEntry>) {
    forall i | 0 <= i < |scores| :: scores[i].score <= scores[i].maxScore
  }

  /** `Math.min(value, maxScore)`: only the upper end is capped. */
  function Clamp(value: int, maxScore: int): (r: int)
    ensures r <= maxScore && r <= value
    ensures r == value || r == maxScore
  {
    if value < maxScore then value else maxScore
  }

  /** The number the score input passes on: `parseFloat(text) || 0`. */
  function InputValue(parsed: Option<int>): (r: int)
    ensures parsed.None? ==> r == 0
    ensures parsed.Some? ==> r == parsed.value
  {
    parsed.GetOr(0)
  }

  /** Replacing one entry's score moves the total by the difference. */
  lemma {:induction false} TotalAfterUpdate(scores: seq<ScoreEntry>, i: nat, e: ScoreEntry)
    requires i < |scores|
    ensures TotalScore(scores[i := e]) == TotalScore(scores) - scores[i].score + e.score
    ensures MaxScore(scores[i := e]) == MaxScore(scores) - scores[i].maxScore + e.maxScore
  {
    if i == 0 {
      assert scores[i := e][1..] == scores[1..];
    } else {
      assert scores[i := e][1..] == scores[1..][i - 1 := e];
      TotalAfterUpdate(scores[1..], i - 1, e);
    }
  }

  // ---------------------------------------------------------------------
  // Percentage and grade. The percentage is kept in tenths of a percent,
  // the precision `toFixed(1)` shows.

  /** `((total / max) * 100).toFixed(1)` in tenths, halves rounded away from zero; 0 when `max <= 0`. */
  function PercentTenths(total: int, max: int): (t: int)
    ensures max <= 0 ==> t == 0
    ensures max > 0 && total >= 0 ==> 2 * max * t <= 2000 * total + max < 2 * max * t + 2 * max
    ensures max > 0 && total < 0 ==> 2 * max * (0 - t) <= 2000 * (0 - total) + max < 2 * max * (0 - t) + 2 * max
  {
    if max <= 0 then 0
    else if total >= 0 then (2000 * total + max) / (2 * max)
    else 0 - (2000 * (0 - total) + max) / (2 * max)
  }

  datatype Grade = A | BPlus | B | CPlus | C

  function GradeName(g: Grade): string {
    match g
    case A => "A"
    case BPlus => "B+"
    case B => "B"
    case CPlus => "C+"
    case C => "C"
  }

  /** The grade for a percentage given in tenths. */
  function GradeOf(tenths: int): (g: Grade)
    ensures g == A <==> tenths >= 800
    ensures g == BPlus <==> 700 <= tenths < 800
    ensures g == B <==> 600 <= tenths < 700
    ensures g == CPlus <==> 500 <= tenths < 600
    ensures g == C <==> tenths < 500
  {
    if tenths >= 800 then A
    else if tenths >= 700 then BPlus
    else if tenths >= 600 then B
    else if tenths >= 500 then CPlus
    else C
  }

  function GradeOrder(g: Grade): nat {
    match g
    case C => 0
    case CPlus => 1
    case B => 2
    case BPlus => 3
    case A => 4
  }

  /** A higher percentage never gives a lower grade. */
  lemma GradeMonotone(p: int, q: int)
    requires p <= q
    ensures GradeOrder(GradeOf(p)) <= GradeOrder(GradeOf(q))
  {
  }

  /** For a fixed positive maximum, a higher total never gives a lower percentage. */
  lemma PercentMonotone(t1: int, t2: int, max: int)
    requires max > 0 && 0 <= t1 <= t2
    ensures PercentTenths(t1, max) <= PercentTenths(t2, max)
  {
    var a := 2000 * t1 + max;
    var b := 2000 * t2 + max;
    var d := 2 * max;
    assert a <= b;
    DivMonotone(a, b, d);
  }

  lemma DivMonotone(a: int, b: int, d: int)
    requires 0 < d && a <= b
    ensures a / d <= b / d
  {
    var qa, qb := a / d, b / d;
    assert qa * d <= a;
    assert b < (qb + 1) * d;
    MulCancel(qa, qb + 1, d);
  }

  lemma MulCancel(x: int, y: int, d: int)
    requires 0 < d && x * d < y * d
    ensures x < y
  {
  }

  /** A full score is an A, an empty one a C. */
  lemma GradeEndpoints(max: int)
    requires max > 0
    ensures GradeOf(PercentTenths(max, max)) == A
    ensures GradeOf(PercentTenths(0, max)) == C
  {
    assert PercentTenths(max, max) == 1000 by {
      assert 2000 * max + max == 1000 * (2 * max) + max;
    }
  }

  // ---------------------------------------------------------------------
  // The form state

  class EvaluationForm {
    var scores: seq<ScoreEntry>
    var comments: string
    var strengths: seq<string>
    var improvements: seq<string>
    /** Whether the form asked its owner to close it. */
    var closeRequested: bool

    /** What the form keeps true: no score above its maximum, and neither list empty. */
    predicate Valid()
      reads this
    {
      ScoresWithinMax(scores) && |strengths| >= 1 && |improvements| >= 1
    }

    constructor()
      ensures scores == DefaultScores() && comments == ""
      ensures strengths == [""] && improvements == [""] && !closeRequested
      ensures Valid()
    {
      scores := DefaultScores();
      comments := "";
      strengths := [""];
      improvements := [""];
      closeRequested := false;
    }

    function Total(): (t: int)
      reads this
      ensures Valid() ==> t <= Maximum()
    {
      TotalWithinMax(scores);
      TotalScore(scores)
    }

    function Maximum(): int
      reads this
    {
      MaxScore(scores)
    }

    function Grade(): Grade
      reads this
    {
      GradeOf(PercentTenths(Total(), Maximum()))
    }

    /** `handleScoreChange(index, value)`. */
    method HandleScoreChange(index: nat, value: int)
      requires index < |scores|
      modifies this
      ensures scores == old(scores)[index := old(scores)[index].(score := Clamp(value, old(scores)[index].maxScore))]
      ensures comments == old(comments) && strengths == old(strengths) && improvements == old(improvements)
      ensures closeRequested == old(closeRequested)
      ensures old(Valid()) ==> Valid()
      ensures TotalScore(scores) == old(TotalScore(scores)) - old(scores)[index].score + Clamp(value, old(scores)[index].maxScore)
      ensures MaxScore(scores) == old(MaxScore(scores))
    {
      var entry := scores[index];
      TotalAfterUpdate(scores, index, entry.(score := Clamp(value, entry.maxScore)));
      scores := scores[index := entry.(score := Clamp(value, entry.maxScore))];
    }

    method SetComments(text: string)
      modifies this
      ensures comments == text
      ensures scores == old(scores) && strengths == old(strengths) && improvements == old(improvements)
      ensures closeRequested == old(closeRequested)
    {
      comments := text;
    }

    method AddStrength()
      modifies this
      ensures strengths == old(strengths) + [""]
      ensures scores == old(scores) && comments == old(comments) && improvements == old(improvements)
      ensures closeRequested == old(closeRequested)
      ensures old(Valid()) ==> Valid()
    {
      strengths := strengths + [""];
    }

    method UpdateStrength(index: nat, value: string)
      requires index < |strengths|
      modifies this
      ensures strengths == old(strengths)[index := value]
      ensures scores == old(scores) && comments == old(comments) && improvements == old(improvements)
      ensures closeRequested == old(closeRequested)
      ensures old(Valid()) ==> Valid()
    {
      strengths := strengths[index := value];
    }

    /** `removeStrength(index)`; the form offers it only while more than one strength is listed. */
    method RemoveStrength(index: int)
      modifies this
      ensures strengths == Seqs.RemoveAt(old(strengths), index)
      ensures scores == old(scores) && comments == old(comments) && improvements == old(improvements)
      ensures closeRequested == old(closeRequested)
      ensures old(Valid()) && old(|strengths|) > 1 ==> Valid()
    {
      Seqs.RemoveAtSpec(strengths, index);
      strengths := Seqs.RemoveAt(strengths, index);
    }

    method AddImprovement()
      modifies this
      ensures improvements == old(improvements) + [""]
      ensures scores == old(scores) && comments == old(comments) && strengths == old(strengths)
      ensures closeRequested == old(closeRequested)
      ensures old(Valid()) ==> Valid()
    {
      improvements := improvements + [""];
    }

    method UpdateImprovement(index: nat, value: string)
      requires index < |improvements|
      modifies this
      ensures improvements == old(improvements)[index := value]
      ensures scores == old(scores) && comments == old(comments) && strengths == old(strengths)
      ensures closeRequested == old(closeRequested)
      ensures old(Valid()) ==> Valid()
    {
      improvements := improvements[index := value];
    }

    /** `removeImprovement(index)`; offered only while more than one improvement is listed. */
    method RemoveImprovement(index: int)
      modifies this
      ensures improvements == Seqs.RemoveAt(old(improvements), index)
      ensures scores == old(scores) && comments == old(comments) && strengths == old(strengths)
      ensures closeRequested == old(closeRequested)
      ensures old(Valid()) && old(|improvements|) > 1 ==> Valid()
    {
      Seqs.RemoveAtSpec(improvements, index);
      improvements := Seqs.RemoveAt(improvements, index);
    }

    /** `handleSubmit`: nothing is saved; the form only asks to be closed. */
    method HandleSubmit()
      modifies this
      ensures closeRequested
      ensures scores == old(scores) && comments == old(comments)
      ensures strengths == old(strengths) && improvements == old(improvements)
    {
      closeRequested := true;
    }
  }

  /** Removing at a valid index keeps the other remarks in order. */
  lemma RemoveKeepsOrder(list: seq<string>, index: nat)
    requires index < |list|
    ensures |Seqs.RemoveAt(list, index)| == |list| - 1
    ensures forall j | 0 <= j < index :: Seqs.RemoveAt(list, index)[j] == list[j]
    ensures forall j | index < j < |list| :: Seqs.RemoveAt(list, index)[j - 1] == list[j]
  {
    Seqs.RemoveAtSpec(list, index);
  }
}
