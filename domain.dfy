/**
 * The records of the coaching-tracking dataset (users, projects, coaching
 * sessions, action items, evaluations). Dates are milliseconds since the epoch.
 */
module Domain {
  import opened Wrappers
  import Seqs

  datatype UserRole = Student | Advisor | Admin | Committee

  /** The role's spelling in the data and in tokens. */
  function RoleName(r: UserRole): string {
    match r
    case Student => "student"
    case Advisor => "advisor"
    case Admin => "admin"
    case Committee => "committee"
  }

  /** Reading a role name back; any other text is not a role. */
  function RoleFromName(s: string): (r: Option<UserRole>)
    ensures r.Some? ==> RoleName(r.value) == s
  {
    if s == "student" then Some(Student)
    else if s == "advisor" then Some(Advisor)
    else if s == "admin" then Some(Admin)
    else if s == "committee" then Some(Committee)
    else None
  }

  lemma RoleNameRoundTrip(r: UserRole)
    ensures RoleFromName(RoleName(r)) == Some(r)
  {
  }

  datatype User = User(id: string, name: string, email: string, role: UserRole, avatar: Option<string>)

  datatype ProjectStatus = Proposal | Design | Implementation | Testing | Presentation | Completed

  datatype Project = Project(
    id: string,
    name: string,
    description: string,
    teamMembers: seq<string>,
    advisorId: string,
    status: ProjectStatus,
    progress: int,
    startDate: int,
    endDate: int,
    techStack: seq<string>)

  datatype ItemStatus = ItemPending | ItemInProgress | ItemCompleted

  datatype Priority = Low | Medium | High

  datatype ActionItem = ActionItem(
    id: string,
    description: string,
    assignedTo: string,
    dueDate: int,
    status: ItemStatus,
    priority: Priority)

  datatype Evidence = Evidence(
    id: string,
    fileName: string,
    fileUrl: string,
    fileType: string,
    uploadedBy: string,
    uploadedAt: int,
    description: Option<string>)

  datatype CoachingSession = CoachingSession(
    id: string,
    projectId: string,
    studentIds: seq<string>,
    advisorId: string,
    date: int,
    duration: int,
    topics: seq<string>,
    summary: string,
    actionItems: seq<ActionItem>,
    evidenceFiles: seq<Evidence>,
    notes: string,
    nextSessionDate: Option<int>)

  datatype ScoreEntry = ScoreEntry(category: string, score: int, maxScore: int)

  datatype Evaluation = Evaluation(
    id: string,
    projectId: string,
    committeeId: string,
    scores: seq<ScoreEntry>,
    comments: string,
    strengths: seq<string>,
    improvements: seq<string>,
    createdAt: int)

  /** `scores.reduce((sum, s) => sum + s.score, 0)`. */
  function TotalScore(scores: seq<ScoreEntry>): int {
    Seqs.Sum(scores, (e: ScoreEntry) => e.score)
  }

  /** `scores.reduce((sum, s) => sum + s.maxScore, 0)`. */
  function MaxScore(scores: seq<ScoreEntry>): int {
    Seqs.Sum(scores, (e: ScoreEntry) => e.maxScore)
  }

  /** When no entry is above its maximum, neither is the total. */
  lemma TotalWithinMax(scores: seq<ScoreEntry>)
    ensures (forall i | 0 <= i < |scores| :: scores[i].score <= scores[i].maxScore) ==>
            TotalScore(scores) <= MaxScore(scores)
  {
    if forall i | 0 <= i < |scores| :: scores[i].score <= scores[i].maxScore {
      Seqs.SumMonotone(scores, (e: ScoreEntry) => e.score, (e: ScoreEntry) => e.maxScore);
    }
  }
}
