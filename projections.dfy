/**
 * The list projections the dashboards share: sessions of a student,
 * action items gathered across sessions with `flatMap`, and open items.
 */
module Projections {
  import opened Domain
  import Seqs

  /** `sessions.filter(s => s.studentIds.includes(userId))`. */
  function SessionsWithStudent(sessions: seq<CoachingSession>, userId: string): (r: seq<CoachingSession>)
    ensures forall i | 0 <= i < |r| :: r[i] in sessions && userId in r[i].studentIds
    ensures forall i | 0 <= i < |sessions| && userId in sessions[i].studentIds :: sessions[i] in r
  {
    Seqs.Filter(sessions, (s: CoachingSession) => userId in s.studentIds)
  }

  /** `sessions.flatMap(s => s.actionItems.filter(item => item.assignedTo === userId))`. */
  function ItemsAssignedTo(sessions: seq<CoachingSession>, userId: string): (r: seq<ActionItem>)
    ensures forall i | 0 <= i < |r| :: r[i].assignedTo == userId
  {
    if sessions == [] then []
    else Seqs.Filter(sessions[0].actionItems, (item: ActionItem) => item.assignedTo == userId) +
         ItemsAssignedTo(sessions[1..], userId)
  }

  /** An item is gathered exactly when some session holds it and it is assigned to the user. */
  lemma {:induction false} ItemsAssignedToMembership(sessions: seq<CoachingSession>, userId: string, x: ActionItem)
    ensures x in ItemsAssignedTo(sessions, userId) <==>
            x.assignedTo == userId && exists i | 0 <= i < |sessions| :: x in sessions[i].actionItems
  {
    if sessions != [] {
      ItemsAssignedToMembership(sessions[1..], userId, x);
      var first := Seqs.Filter(sessions[0].actionItems, (item: ActionItem) => item.assignedTo == userId);
      if x.assignedTo == userId && x in sessions[0].actionItems {
        var k :| 0 <= k < |sessions[0].actionItems| && sessions[0].actionItems[k] == x;
        assert x in first;
      }
      if exists i | 0 <= i < |sessions| :: x in sessions[i].actionItems {
        var i :| 0 <= i < |sessions| && x in sessions[i].actionItems;
        if i > 0 {
          assert x in sessions[1..][i - 1].actionItems;
        }
      }
      if exists i | 0 <= i < |sessions[1..]| :: x in sessions[1..][i].actionItems {
        var i :| 0 <= i < |sessions[1..]| && x in sessions[1..][i].actionItems;
        assert x in sessions[i + 1].actionItems;
      }
    }
  }

  /** `sessions.flatMap(s => s.actionItems)`. */
  function AllItems(sessions: seq<CoachingSession>): (r: seq<ActionItem>)
  {
    if sessions == [] then [] else sessions[0].actionItems + AllItems(sessions[1..])
  }

  /** The gathered list holds every item of every session, in session order. */
  lemma {:induction false} AllItemsLength(sessions: seq<CoachingSession>)
    ensures |AllItems(sessions)| == Seqs.Sum(sessions, (s: CoachingSession) => |s.actionItems|)
  {
    if sessions != [] {
      AllItemsLength(sessions[1..]);
    }
  }

  /** `items.filter(item => item.status !== 'completed')`. */
  function NotCompleted(items: seq<ActionItem>): (r: seq<ActionItem>)
    ensures forall i | 0 <= i < |r| :: r[i] in items && r[i].status != ItemCompleted
    ensures forall i | 0 <= i < |items| && items[i].status != ItemCompleted :: items[i] in r
  {
    Seqs.Filter(items, (item: ActionItem) => item.status != ItemCompleted)
  }

  /** `items.filter(item => item.status === 'completed')`. */
  function CompletedItems(items: seq<ActionItem>): (r: seq<ActionItem>)
    ensures forall i | 0 <= i < |r| :: r[i] in items && r[i].status == ItemCompleted
    ensures forall i | 0 <= i < |items| && items[i].status == ItemCompleted :: items[i] in r
  {
    Seqs.Filter(items, (item: ActionItem) => item.status == ItemCompleted)
  }

  /** Open and completed items split a list: nothing is in both and the lengths add up. */
  lemma OpenCompletedPartition(items: seq<ActionItem>)
    ensures |NotCompleted(items)| + |CompletedItems(items)| == |items|
    ensures forall i | 0 <= i < |NotCompleted(items)| :: NotCompleted(items)[i] !in CompletedItems(items)
  {
    Seqs.FilterPartition(items, (item: ActionItem) => item.status != ItemCompleted,
                         (item: ActionItem) => item.status == ItemCompleted);
  }
}
