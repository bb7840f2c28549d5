/**
 * What the committee dashboard derives for the signed-in committee member:
 * the projects assigned to them, their evaluations, and score totals.
 */
module CommitteeDashboard {
  import opened Wrappers
  import opened Domain
  import Seqs

  /** `evaluations.filter(e => e.committeeId === userId)`. */
  function MyEvaluations(evaluations: seq<Evaluation>, userId: string): (r: seq<Evaluation>)
    ensures forall i | 0 <= i < |r| :: r[i] in evaluations && r[i].committeeId == userId
    ensures forall i | 0 <= i < |evaluations| && evaluations[i].committeeId == userId :: evaluations[i] in r
  {
    Seqs.Filter(evaluations, (e: Evaluation) => e.committeeId == userId)
  }

  predicate HasEvaluation(myEvaluations: seq<Evaluation>, projectId: string) {
    exists i | 0 <= i < |myEvaluations| :: myEvaluations[i].projectId == projectId
  }

  /** Evaluated by this member, or ready for evaluation (presentation or completed). */
  predicate Assigned(p: Project, myEvaluations: seq<Evaluation>) {
    HasEvaluation(myEvaluations, p.id) || p.status == Presentation || p.status == Completed
  }

  /** The assignment rule the filter is meant to apply. */
  function AssignedProjects(projects: seq<Project>, myEvaluations: seq<Evaluation>): (r: seq<Project>)
    ensures forall i | 0 <= i < |r| :: r[i] in projects && Assigned(r[i], myEvaluations)
    ensures forall i | 0 <= i < |projects| && Assigned(projects[i], myEvaluations) :: projects[i] in r
  {
    Seqs.Filter(projects, (p: Project) => Assigned(p, myEvaluations))
  }

  const TdzError := "ReferenceError: Cannot access 'myEvaluations' before initialization"

  /**
   * The filter as written: its callback reads `myEvaluations`, which is
   * declared after it, so the first project examined throws.
   */
  function AssignedProjectsAsWritten(projects: seq<Project>): (r: Result<seq<Project>, string>)
    ensures r.Ok? <==> projects == []
  {
    if projects == [] then Ok([]) else Err(TdzError)
  }

  /** As written, the dashboard of any member fails whenever there is a project at all. */
  lemma AsWrittenFailsOnAnyProject(projects: seq<Project>, evaluations: seq<Evaluation>, userId: string)
    requires projects != []
    ensures AssignedProjectsAsWritten(projects) == Err(TdzError)
    ensures AssignedProjectsAsWritten(projects) != Ok(AssignedProjects(projects, MyEvaluations(evaluations, userId)))
  {
  }

  /** `evaluatedProjectIds`. */
  function EvaluatedProjectIds(myEvaluations: seq<Evaluation>): (r: seq<string>)
    ensures |r| == |myEvaluations|
    ensures forall i | 0 <= i < |r| :: r[i] == myEvaluations[i].projectId
  {
    seq(|myEvaluations|, i requires 0 <= i < |myEvaluations| => myEvaluations[i].projectId)
  }

  function IsEvaluated(myEvaluations: seq<Evaluation>, projectId: string): (b: bool)
    ensures b <==> HasEvaluation(myEvaluations, projectId)
  {
    projectId in EvaluatedProjectIds(myEvaluations)
  }

  /** Every project this member has evaluated is among the assigned ones. */
  lemma EvaluatedAreAssigned(projects: seq<Project>, myEvaluations: seq<Evaluation>, k: nat)
    requires k < |projects| && IsEvaluated(myEvaluations, projects[k].id)
    ensures projects[k] in AssignedProjects(projects, myEvaluations)
  {
  }

  /** `assignedProjects.length - myEvaluations.length`. */
  function PendingCount(projects: seq<Project>, myEvaluations: seq<Evaluation>): int {
    |AssignedProjects(projects, myEvaluations)| - |myEvaluations|
  }

  function ProjectIds(ps: seq<Project>): (r: seq<string>)
    ensures |r| == |ps| && forall i | 0 <= i < |ps| :: r[i] == ps[i].id
  {
    seq(|ps|, i requires 0 <= i < |ps| => ps[i].id)
  }

  /**
   * The pending count is never negative when the member evaluated each
   * project at most once, and only existing projects.
   */
  lemma PendingCountNonNegative(projects: seq<Project>, myEvaluations: seq<Evaluation>)
    requires Seqs.Distinct(EvaluatedProjectIds(myEvaluations))
    requires forall i | 0 <= i < |myEvaluations| :: myEvaluations[i].projectId in ProjectIds(projects)
    ensures PendingCount(projects, myEvaluations) >= 0
  {
    var chosen := AssignedProjects(projects, myEvaluations);
    var ids := EvaluatedProjectIds(myEvaluations);
    forall i | 0 <= i < |ids|
      ensures ids[i] in ProjectIds(chosen)
    {
      var k :| 0 <= k < |projects| && ProjectIds(projects)[k] == ids[i];
      assert Assigned(projects[k], myEvaluations);
      assert projects[k] in chosen;
      var j :| 0 <= j < |chosen| && chosen[j] == projects[k];
      assert ProjectIds(chosen)[j] == ids[i];
    }
    DistinctIncluded(ids, ProjectIds(chosen));
  }

  /** A list without repeats whose elements all occur in `t` is no longer than `t`. */
  lemma {:induction false} DistinctIncluded(s: seq<string>, t: seq<string>)
    requires Seqs.Distinct(s)
    requires forall i | 0 <= i < |s| :: s[i] in t
    ensures |s| <= |t|
    decreases |s|
  {
    if s != [] {
      var k :| 0 <= k < |t| && t[k] == s[0];
      var t' := t[..k] + t[k + 1..];
      forall i | 1 <= i < |s|
        ensures s[i] in t'
      {
        assert s[i] != s[0];
        var j :| 0 <= j < |t| && t[j] == s[i];
        if j < k {
          assert t'[j] == s[i];
        } else {
          assert t'[j - 1] == s[i];
        }
      }
      assert Seqs.Distinct(s[1..]);
      assert forall i | 0 <= i < |s[1..]| :: s[1..][i] in t' by {
        forall i | 0 <= i < |s[1..]| ensures s[1..][i] in t' { assert s[1..][i] == s[i + 1]; }
      }
      DistinctIncluded(s[1..], t');
    }
  }

  /** An evaluation's total and maximum, as the evaluations tab shows them. */
  function EvaluationTotals(e: Evaluation): (r: (int, int))
    ensures (forall i | 0 <= i < |e.scores| :: e.scores[i].score <= e.scores[i].maxScore) ==> r.0 <= r.1
  {
    TotalWithinMax(e.scores);
    (TotalScore(e.scores), MaxScore(e.scores))
  }
}
