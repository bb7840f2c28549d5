/**
 * The administrator dashboard's statistics over all projects, users and
 * sessions.
 */
module AdminDashboard {
  import opened Wrappers
  import opened Domain
  import Seqs

  function CountRole(users: seq<User>, role: UserRole): (n: nat)
    ensures n <= |users|
  {
    Seqs.Count(users, (u: User) => u.role == role)
  }

  /** A user added to the list counts exactly when it has the role. */
  lemma CountRoleAppend(users: seq<User>, u: User, role: UserRole)
    ensures CountRole(users + [u], role) == CountRole(users, role) + (if u.role == role then 1 else 0)
  {
    Seqs.CountAppend(users, u, (v: User) => v.role == role);
  }

  /** `totalStudents` and `totalAdvisors`: users counted by role; the two never overlap. */
  lemma StudentsAndAdvisorsDisjoint(users: seq<User>)
    ensures CountRole(users, Student) + CountRole(users, Advisor) <= |users|
  {
    Seqs.FilterPartition(users, (u: User) => u.role == Student, (u: User) => u.role != Student);
    var others := Seqs.Filter(users, (u: User) => u.role != Student);
    FilterOfFilter(users, (u: User) => u.role != Student, (u: User) => u.role == Advisor);
    assert Seqs.Filter(others, (u: User) => u.role == Advisor) == Seqs.Filter(users, (u: User) => u.role == Advisor);
  }

  /** Filtering twice with a test implied by the first keeps what the second alone keeps. */
  lemma {:induction false} FilterOfFilter(s: seq<User>, first: User -> bool, second: User -> bool)
    requires forall i | 0 <= i < |s| :: second(s[i]) ==> first(s[i])
    ensures Seqs.Filter(Seqs.Filter(s, first), second) == Seqs.Filter(s, second)
  {
    if s != [] {
      FilterOfFilter(s[1..], first, second);
    }
  }

  /** The number of projects in one status. */
  function CountStatus(projects: seq<Project>, status: ProjectStatus): (n: nat)
    ensures n <= |projects|
  {
    if projects == [] then 0
    else (if projects[0].status == status then 1 else 0) + CountStatus(projects[1..], status)
  }

  datatype StatusCounts = StatusCounts(proposal: nat, design: nat, implementation: nat,
                                       testing: nat, presentation: nat, completed: nat)

  /** `projectsByStatus`. */
  function ProjectsByStatus(projects: seq<Project>): StatusCounts {
    StatusCounts(CountStatus(projects, Proposal), CountStatus(projects, Design),
                 CountStatus(projects, Implementation), CountStatus(projects, Testing),
                 CountStatus(projects, Presentation), CountStatus(projects, Completed))
  }

  /** Every project has exactly one of the six statuses, so the counts add up to the total. */
  lemma {:induction false} StatusCountsSum(projects: seq<Project>)
    ensures var c := ProjectsByStatus(projects);
            c.proposal + c.design + c.implementation + c.testing + c.presentation + c.completed == |projects|
  {
    if projects != [] {
      StatusCountsSum(projects[1..]);
    }
  }

  /** `projectsAtRisk`: progress strictly below 50. */
  function ProjectsAtRisk(projects: seq<Project>): (r: seq<Project>)
    ensures forall i | 0 <= i < |r| :: r[i] in projects && r[i].progress < 50
    ensures forall i | 0 <= i < |projects| && projects[i].progress < 50 :: projects[i] in r
  {
    Seqs.Filter(projects, (p: Project) => p.progress < 50)
  }

  function ProgressSum(projects: seq<Project>): int {
    Seqs.Sum(projects, (p: Project) => p.progress)
  }

  /**
   * `Math.round(sum / count)`: the nearest integer, halves rounded up;
   * `None` for no projects, where the division gives NaN.
   */
  function AverageProgress(projects: seq<Project>): (r: Option<int>)
    ensures projects == [] <==> r.None?
    ensures r.Some? ==> var n := |projects|; var s := ProgressSum(projects);
            2 * n * r.value <= 2 * s + n < 2 * n * r.value + 2 * n
  {
    if projects == [] then None
    else Some((2 * ProgressSum(projects) + |projects|) / (2 * |projects|))
  }

  /** With every progress within 0..100, so is the average. */
  lemma AverageWithinRange(projects: seq<Project>)
    requires projects != []
    requires forall i | 0 <= i < |projects| :: 0 <= projects[i].progress <= 100
    ensures 0 <= AverageProgress(projects).value <= 100
  {
    var n := |projects|;
    Seqs.SumMonotone(projects, (p: Project) => 0, (p: Project) => p.progress);
    Seqs.SumMonotone(projects, (p: Project) => p.progress, (p: Project) => 100);
    SumConstant(projects, 0);
    SumConstant(projects, 100);
    RoundedAverageBounds(ProgressSum(projects), n, AverageProgress(projects).value);
  }

  lemma RoundedAverageBounds(s: int, n: int, r: int)
    requires n > 0 && 0 <= s <= 100 * n
    requires 2 * n * r <= 2 * s + n < 2 * n * r + 2 * n
    ensures 0 <= r <= 100
  {
    if r < 0 {
      MulMonotone(n, r + 1, 0);
    }
    if r > 100 {
      MulMonotone(n, 101, r);
    }
  }

  lemma MulMonotone(n: int, a: int, b: int)
    requires n > 0 && a <= b
    ensures n * a <= n * b
  {
  }

  lemma {:induction false} SumConstant(projects: seq<Project>, c: int)
    ensures Seqs.Sum(projects, (p: Project) => c) == c * |projects|
  {
    if projects != [] {
      SumConstant(projects[1..], c);
    }
  }

  datatype Colour = Green | Blue | Yellow | Orange

  /** The progress bar's colour. */
  function ProgressColour(progress: int): (c: Colour)
    ensures c == Green <==> progress >= 80
    ensures c == Blue <==> 60 <= progress < 80
    ensures c == Yellow <==> 40 <= progress < 60
    ensures c == Orange <==> progress < 40
  {
    if progress >= 80 then Green
    else if progress >= 60 then Blue
    else if progress >= 40 then Yellow
    else Orange
  }

  /** A project's session count. */
  function SessionCount(sessions: seq<CoachingSession>, projectId: string): (n: nat)
    ensures n <= |sessions|
    ensures n == |Seqs.Filter(sessions, (s: CoachingSession) => s.projectId == projectId)|
  {
    Seqs.Count(sessions, (s: CoachingSession) => s.projectId == projectId)
  }
}
