/**
 * The coaching-history timeline: sessions newest first, with per-session
 * action-item counts and a preview of at most three items.
 */
module Timeline {
  import opened Wrappers
  import opened Text
  import opened Domain
  import ActionItems
  import Seqs

  /** Places `x` before the first session that is not newer than it. */
  function Insert(x: CoachingSession, sorted: seq<CoachingSession>): (r: seq<CoachingSession>)
    ensures |r| == |sorted| + 1
    ensures multiset(r) == multiset(sorted) + multiset{x}
  {
    if sorted == [] || sorted[0].date <= x.date then [x] + sorted
    else
      assert sorted == [sorted[0]] + sorted[1..];
      [sorted[0]] + Insert(x, sorted[1..])
  }

  /**
   * `[...sessions].sort((a, b) => b.date - a.date)`: a copy sorted newest
   * first; the sort is stable, so sessions on the same date keep their order.
   */
  function SortNewestFirst(sessions: seq<CoachingSession>): (r: seq<CoachingSession>)
    ensures |r| == |sessions|
    ensures multiset(r) == multiset(sessions)
  {
    if sessions == [] then []
    else
      assert sessions == [sessions[0]] + sessions[1..];
      Insert(sessions[0], SortNewestFirst(sessions[1..]))
  }

  predicate NewestFirst(s: seq<CoachingSession>) {
    forall i, j | 0 <= i < j < |s| :: s[i].date >= s[j].date
  }

  /** Inserting a session no later than `d` among sessions no later than `d` keeps that bound. */
  lemma {:induction false} InsertBounded(x: CoachingSession, sorted: seq<CoachingSession>, d: int)
    requires x.date <= d && forall k | 0 <= k < |sorted| :: sorted[k].date <= d
    ensures forall k | 0 <= k < |Insert(x, sorted)| :: Insert(x, sorted)[k].date <= d
  {
    if sorted != [] && sorted[0].date > x.date {
      InsertBounded(x, sorted[1..], d);
    }
  }

  lemma {:induction false} InsertSorted(x: CoachingSession, sorted: seq<CoachingSession>)
    requires NewestFirst(sorted)
    ensures NewestFirst(Insert(x, sorted))
  {
    if sorted != [] && sorted[0].date > x.date {
      InsertSorted(x, sorted[1..]);
      InsertBounded(x, sorted[1..], sorted[0].date);
    }
  }

  /** The sorted copy is in non-increasing date order. */
  lemma {:induction false} SortIsNewestFirst(sessions: seq<CoachingSession>)
    ensures NewestFirst(SortNewestFirst(sessions))
  {
    if sessions != [] {
      SortIsNewestFirst(sessions[1..]);
      InsertSorted(sessions[0], SortNewestFirst(sessions[1..]));
    }
  }

  /** The sessions on date `d`, in order. */
  function OnDate(s: seq<CoachingSession>, d: int): (r: seq<CoachingSession>)
    ensures forall i | 0 <= i < |r| :: r[i].date == d
  {
    if s == [] then [] else (if s[0].date == d then [s[0]] else []) + OnDate(s[1..], d)
  }

  lemma {:induction false} InsertOnDate(x: CoachingSession, sorted: seq<CoachingSession>, d: int)
    requires NewestFirst(sorted)
    ensures OnDate(Insert(x, sorted), d) == if x.date == d then [x] + OnDate(sorted, d) else OnDate(sorted, d)
  {
    if sorted == [] || sorted[0].date <= x.date {
      if x.date == d && sorted != [] && sorted[0].date < x.date {
        NoneOnLaterDate(sorted, d);
      }
    } else {
      InsertOnDate(x, sorted[1..], d);
      if x.date == d {
        assert sorted[0].date != d;
      }
    }
  }

  /** In a newest-first list whose head is older than `d`, nothing is on `d`. */
  lemma {:induction false} NoneOnLaterDate(sorted: seq<CoachingSession>, d: int)
    requires NewestFirst(sorted) && sorted != [] && sorted[0].date < d
    ensures OnDate(sorted, d) == []
  {
    if |sorted| > 1 {
      NoneOnLaterDate(sorted[1..], d);
    }
  }

  /** Stability: for every date, the sessions on it appear in their input order. */
  lemma {:induction false} SortIsStable(sessions: seq<CoachingSession>, d: int)
    ensures OnDate(SortNewestFirst(sessions), d) == OnDate(sessions, d)
  {
    if sessions != [] {
      SortIsStable(sessions[1..], d);
      SortIsNewestFirst(sessions[1..]);
      InsertOnDate(sessions[0], SortNewestFirst(sessions[1..]), d);
    }
  }

  datatype TimelineView = EmptyTimeline | Entries(sessions: seq<CoachingSession>)

  function Render(sessions: seq<CoachingSession>): (r: TimelineView)
    ensures r == EmptyTimeline <==> sessions == []
    ensures r.Entries? ==> r.sessions == SortNewestFirst(sessions)
  {
    var sorted := SortNewestFirst(sessions);
    if |sorted| == 0 then EmptyTimeline else Entries(sorted)
  }

  /** `completedItems`: never more than `totalItems`. */
  function CompletedCount(session: CoachingSession): (n: nat)
    ensures n <= |session.actionItems|
  {
    Seqs.Count(session.actionItems, (item: ActionItem) => item.status == ItemCompleted)
  }

  /** The preview shows the first three items. */
  function PreviewItems(session: CoachingSession): (r: seq<ActionItem>)
    ensures var items := session.actionItems;
            r == if |items| <= 3 then items else items[..3]
  {
    Seqs.SlicePrefix(session.actionItems, 3);
    Seqs.Slice(session.actionItems, 0, 3)
  }

  /** The "+n more" line, shown exactly when more than three items exist. */
  function MoreLabel(session: CoachingSession): (r: Option<string>)
    ensures r.Some? <==> |session.actionItems| > 3
    ensures r.Some? ==> r.value == "+" + IntToString(|session.actionItems| - 3) + " รายการเพิ่มเติม"
  {
    var n := |session.actionItems|;
    if n > 3 then Some("+" + IntToString(n - 3) + " รายการเพิ่มเติม") else None
  }

  datatype PreviewIcon = DoneIcon | LateIcon | PlainIcon

  /** A previewed item's icon: completed, then overdue, then plain. */
  function PreviewIconFor(item: ActionItem, now: int): (i: PreviewIcon)
    ensures i == DoneIcon <==> item.status == ItemCompleted
    ensures i == LateIcon <==> ActionItems.IsOverdue(item, now)
  {
    if item.status == ItemCompleted then DoneIcon
    else if ActionItems.IsOverdue(item, now) then LateIcon
    else PlainIcon
  }
}
