/**
 * What the student dashboard derives for the signed-in student.
 */
module StudentDashboard {
  import opened Domain
  import opened Projections
  import Seqs

  /** The student's projects: those whose team lists the student, in order. */
  function MyProjects(projects: seq<Project>, userId: string): (r: seq<Project>)
    ensures forall i | 0 <= i < |r| :: r[i] in projects && userId in r[i].teamMembers
    ensures forall i | 0 <= i < |projects| && userId in projects[i].teamMembers :: projects[i] in r
  {
    Seqs.Filter(projects, (p: Project) => userId in p.teamMembers)
  }

  function MySessions(sessions: seq<CoachingSession>, userId: string): (r: seq<CoachingSession>)
    ensures forall i | 0 <= i < |r| :: r[i] in sessions && userId in r[i].studentIds
    ensures forall i | 0 <= i < |sessions| && userId in sessions[i].studentIds :: sessions[i] in r
  {
    SessionsWithStudent(sessions, userId)
  }

  /** The items assigned to the student in the student's sessions, in session order. */
  function MyActionItems(sessions: seq<CoachingSession>, userId: string): (r: seq<ActionItem>)
    ensures forall i | 0 <= i < |r| :: r[i].assignedTo == userId
  {
    ItemsAssignedTo(MySessions(sessions, userId), userId)
  }

  /** An item is the student's exactly when it is assigned to them in a session that lists them. */
  lemma MyActionItemsExactly(sessions: seq<CoachingSession>, userId: string, x: ActionItem)
    ensures x in MyActionItems(sessions, userId) <==>
            x.assignedTo == userId &&
            exists i | 0 <= i < |sessions| :: userId in sessions[i].studentIds && x in sessions[i].actionItems
  {
    var mine := MySessions(sessions, userId);
    ItemsAssignedToMembership(mine, userId, x);
    if x in MyActionItems(sessions, userId) {
      var i :| 0 <= i < |mine| && x in mine[i].actionItems;
      var j :| 0 <= j < |sessions| && sessions[j] == mine[i];
    }
    if x.assignedTo == userId &&
       exists i | 0 <= i < |sessions| :: userId in sessions[i].studentIds && x in sessions[i].actionItems {
      var i :| 0 <= i < |sessions| && userId in sessions[i].studentIds && x in sessions[i].actionItems;
      var j :| 0 <= j < |mine| && mine[j] == sessions[i];
    }
  }

  function PendingTasks(sessions: seq<CoachingSession>, userId: string): (r: seq<ActionItem>)
    ensures forall i | 0 <= i < |r| :: r[i] in MyActionItems(sessions, userId) && r[i].status != ItemCompleted
    ensures forall i | 0 <= i < |MyActionItems(sessions, userId)| && MyActionItems(sessions, userId)[i].status != ItemCompleted ::
              MyActionItems(sessions, userId)[i] in r
  {
    NotCompleted(MyActionItems(sessions, userId))
  }

  function CompletedTasks(sessions: seq<CoachingSession>, userId: string): (r: seq<ActionItem>)
    ensures forall i | 0 <= i < |r| :: r[i] in MyActionItems(sessions, userId) && r[i].status == ItemCompleted
    ensures forall i | 0 <= i < |MyActionItems(sessions, userId)| && MyActionItems(sessions, userId)[i].status == ItemCompleted ::
              MyActionItems(sessions, userId)[i] in r
  {
    CompletedItems(MyActionItems(sessions, userId))
  }

  /** Pending (including in progress) and completed tasks split the student's items. */
  lemma TasksPartition(sessions: seq<CoachingSession>, userId: string)
    ensures |PendingTasks(sessions, userId)| + |CompletedTasks(sessions, userId)| == |MyActionItems(sessions, userId)|
    ensures forall i | 0 <= i < |PendingTasks(sessions, userId)| ::
              PendingTasks(sessions, userId)[i] !in CompletedTasks(sessions, userId)
  {
    OpenCompletedPartition(MyActionItems(sessions, userId));
  }

  /** The overview lists the first five pending tasks. */
  function OverviewTasks(sessions: seq<CoachingSession>, userId: string): (r: seq<ActionItem>)
    ensures var p := PendingTasks(sessions, userId);
            r == if |p| <= 5 then p else p[..5]
  {
    Seqs.SlicePrefix(PendingTasks(sessions, userId), 5);
    Seqs.Slice(PendingTasks(sessions, userId), 0, 5)
  }
}
