/**
 * What the advisor dashboard derives for the signed-in advisor.
 */
module AdvisorDashboard {
  import opened Domain
  import opened Projections
  import ActionItems
  import Seqs

  const WeekMs := 7 * 24 * 60 * 60 * 1000

  function MyProjects(projects: seq<Project>, userId: string): (r: seq<Project>)
    ensures forall i | 0 <= i < |r| :: r[i] in projects && r[i].advisorId == userId
    ensures forall i | 0 <= i < |projects| && projects[i].advisorId == userId :: projects[i] in r
  {
    Seqs.Filter(projects, (p: Project) => p.advisorId == userId)
  }

  function MySessions(sessions: seq<CoachingSession>, userId: string): (r: seq<CoachingSession>)
    ensures forall i | 0 <= i < |r| :: r[i] in sessions && r[i].advisorId == userId
    ensures forall i | 0 <= i < |sessions| && sessions[i].advisorId == userId :: sessions[i] in r
  {
    Seqs.Filter(sessions, (s: CoachingSession) => s.advisorId == userId)
  }

  predicate OnSomeTeam(u: User, projects: seq<Project>) {
    exists k | 0 <= k < |projects| :: u.id in projects[k].teamMembers
  }

  /** The students on the team of at least one of the advisor's projects, in user-list order. */
  function MyStudents(users: seq<User>, myProjects: seq<Project>): (r: seq<User>)
    ensures forall i | 0 <= i < |r| :: r[i] in users && r[i].role == Student && OnSomeTeam(r[i], myProjects)
    ensures forall i | 0 <= i < |users| && users[i].role == Student && OnSomeTeam(users[i], myProjects) :: users[i] in r
  {
    Seqs.Filter(users, (u: User) => u.role == Student && OnSomeTeam(u, myProjects))
  }

  /** A student on several of the advisor's teams is still listed once. */
  lemma MyStudentsOnce(users: seq<User>, myProjects: seq<Project>)
    requires Seqs.Distinct(users)
    ensures Seqs.Distinct(MyStudents(users, myProjects))
  {
    Seqs.FilterDistinct(users, (u: User) => u.role == Student && OnSomeTeam(u, myProjects));
  }

  /** Sessions dated no earlier than a week before `now`; future sessions count too. */
  function SessionsThisWeek(mySessions: seq<CoachingSession>, now: int): (n: nat)
    ensures n <= |mySessions|
  {
    Seqs.Count(mySessions, (s: CoachingSession) => s.date >= now - WeekMs)
  }

  lemma SessionsThisWeekBounds(mySessions: seq<CoachingSession>, now: int)
    ensures (forall i | 0 <= i < |mySessions| :: mySessions[i].date >= now - WeekMs) ==>
            SessionsThisWeek(mySessions, now) == |mySessions|
    ensures (forall i | 0 <= i < |mySessions| :: mySessions[i].date < now - WeekMs) ==>
            SessionsThisWeek(mySessions, now) == 0
  {
    Seqs.FilterAllOrNone(mySessions, (s: CoachingSession) => s.date >= now - WeekMs);
  }

  /** A session added to the list counts exactly when it is dated within the week. */
  lemma SessionsThisWeekAppend(mySessions: seq<CoachingSession>, x: CoachingSession, now: int)
    ensures SessionsThisWeek(mySessions + [x], now) ==
            SessionsThisWeek(mySessions, now) + (if x.date >= now - WeekMs then 1 else 0)
  {
    Seqs.CountAppend(mySessions, x, (s: CoachingSession) => s.date >= now - WeekMs);
  }

  /** Items with status pending only; in-progress items are not counted. */
  function PendingItems(mySessions: seq<CoachingSession>): (r: seq<ActionItem>)
    ensures forall i | 0 <= i < |r| :: r[i] in AllItems(mySessions) && r[i].status == ItemPending
    ensures forall i | 0 <= i < |AllItems(mySessions)| && AllItems(mySessions)[i].status == ItemPending ::
              AllItems(mySessions)[i] in r
  {
    Seqs.Filter(AllItems(mySessions), (item: ActionItem) => item.status == ItemPending)
  }

  function OverdueItems(mySessions: seq<CoachingSession>, now: int): (r: seq<ActionItem>)
    ensures forall i | 0 <= i < |r| :: r[i] in AllItems(mySessions) && r[i].status != ItemCompleted && r[i].dueDate < now
    ensures forall i | 0 <= i < |AllItems(mySessions)| && ActionItems.IsOverdue(AllItems(mySessions)[i], now) ::
              AllItems(mySessions)[i] in r
  {
    Seqs.Filter(AllItems(mySessions), (item: ActionItem) => ActionItems.IsOverdue(item, now))
  }

  /** A student's open tasks: assigned to them, not completed, in the advisor's sessions listing them. */
  function StudentPendingTasks(mySessions: seq<CoachingSession>, studentId: string): (r: seq<ActionItem>)
    ensures forall i | 0 <= i < |r| :: r[i].assignedTo == studentId && r[i].status != ItemCompleted
  {
    NotCompleted(ItemsAssignedTo(SessionsWithStudent(mySessions, studentId), studentId))
  }

  /**
   * An item is among a student's open tasks exactly when it is assigned to
   * them, not completed, and held by one of the advisor's sessions that
   * lists the student.
   */
  lemma StudentPendingTasksMembership(mySessions: seq<CoachingSession>, studentId: string, x: ActionItem)
    ensures x in StudentPendingTasks(mySessions, studentId) <==>
            x.assignedTo == studentId && x.status != ItemCompleted &&
            exists i | 0 <= i < |mySessions| :: studentId in mySessions[i].studentIds && x in mySessions[i].actionItems
  {
    var withStudent := SessionsWithStudent(mySessions, studentId);
    var assignedItems := ItemsAssignedTo(withStudent, studentId);
    ItemsAssignedToMembership(withStudent, studentId, x);
    if x in StudentPendingTasks(mySessions, studentId) {
      assert x in assignedItems;
      var j :| 0 <= j < |withStudent| && x in withStudent[j].actionItems;
      var i :| 0 <= i < |mySessions| && mySessions[i] == withStudent[j];
      assert studentId in mySessions[i].studentIds && x in mySessions[i].actionItems;
    }
    if x.assignedTo == studentId && x.status != ItemCompleted &&
       exists i | 0 <= i < |mySessions| :: studentId in mySessions[i].studentIds && x in mySessions[i].actionItems
    {
      var i :| 0 <= i < |mySessions| && studentId in mySessions[i].studentIds && x in mySessions[i].actionItems;
      var j :| 0 <= j < |withStudent| && withStudent[j] == mySessions[i];
      assert x in assignedItems;
      var k :| 0 <= k < |assignedItems| && assignedItems[k] == x;
    }
  }

  /** The recent-sessions panel: the first three in list order, not sorted by date. */
  function RecentSessions(mySessions: seq<CoachingSession>): (r: seq<CoachingSession>)
    ensures r == if |mySessions| <= 3 then mySessions else mySessions[..3]
  {
    Seqs.SlicePrefix(mySessions, 3);
    Seqs.Slice(mySessions, 0, 3)
  }
}
