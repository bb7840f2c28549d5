/**
 * The top-level application: one piece of state, the signed-in user, and a
 * screen chosen from it.
 */
module App {
  import opened Wrappers
  import opened Domain

  datatype Dashboard = StudentDashboard | AdvisorDashboard | AdminDashboard | CommitteeDashboard

  datatype Screen = LoginPage | Dashboards(shown: seq<Dashboard>)

  /** The dashboard meant for each role. */
  function DashboardFor(role: UserRole): Dashboard {
    match role
    case Student => StudentDashboard
    case Advisor => AdvisorDashboard
    case Admin => AdminDashboard
    case Committee => CommitteeDashboard
  }

  /** The four independent `role === ...` conditionals, in page order. */
  function Render(user: Option<User>): (s: Screen)
    ensures user.None? <==> s == LoginPage
  {
    match user
    case None => LoginPage
    case Some(u) =>
      Dashboards((if u.role == Student then [StudentDashboard] else []) +
                 (if u.role == Advisor then [AdvisorDashboard] else []) +
                 (if u.role == Admin then [AdminDashboard] else []) +
                 (if u.role == Committee then [CommitteeDashboard] else []))
  }

  /** Different roles are shown different dashboards. */
  lemma DashboardForInjective(a: UserRole, b: UserRole)
    ensures DashboardFor(a) == DashboardFor(b) ==> a == b
  {
  }

  class App {
    var currentUser: Option<User>

    constructor()
      ensures currentUser == None
    {
      currentUser := None;
    }

    method HandleLogin(user: User)
      modifies this
      ensures currentUser == Some(user)
    {
      currentUser := Some(user);
    }

    method HandleLogout()
      modifies this
      ensures currentUser == None
    {
      currentUser := None;
    }

    function View(): (s: Screen)
      reads this
      ensures s == Render(currentUser)
    {
      Render(currentUser)
    }
  }

  /** A signed-in user sees exactly one dashboard, the one meant for their role. */
  lemma RenderShowsOwnDashboard(user: User)
    ensures Render(Some(user)) == Dashboards([DashboardFor(user.role)])
  {
    match user.role
    case Student =>
      assert Render(Some(user)).shown == [StudentDashboard] + [] + [] + [];
    case Advisor =>
      assert Render(Some(user)).shown == [] + [AdvisorDashboard] + [] + [];
    case Admin =>
      assert Render(Some(user)).shown == [] + [] + [AdminDashboard] + [];
    case Committee =>
      assert Render(Some(user)).shown == [] + [] + [] + [CommitteeDashboard];
  }
}
