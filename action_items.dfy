/**
 * How one action item is shown: overdue, days left until it is due, the
 * colour of its card, and its badges. Times are milliseconds.
 */
module ActionItems {
  import opened Wrappers
  import opened Text
  import opened Domain

  const DayMs := 1000 * 60 * 60 * 24

  /** Due strictly before `now` and not completed. */
  predicate IsOverdue(item: ActionItem, now: int) {
    item.dueDate < now && item.status != ItemCompleted
  }

  /** `Math.ceil((due - now) / DayMs)`. */
  function DaysUntilDue(due: int, now: int): (d: int)
    ensures DayMs * (d - 1) < due - now <= DayMs * d
  {
    0 - (now - due) / DayMs
  }

  lemma DaysUntilDueFacts(due: int, now: int)
    ensures due == now ==> DaysUntilDue(due, now) == 0
    ensures now < due <= now + DayMs ==> DaysUntilDue(due, now) == 1
    ensures now - DayMs < due < now ==> DaysUntilDue(due, now) == 0
    ensures due < now - DayMs + 1 ==> DaysUntilDue(due, now) < 0
  {
  }

  datatype Card = CompletedCard | OverdueCard | DueSoonCard | NormalCard

  /** The card colour: completed, then overdue, then due within three days, then normal. */
  function CardFor(item: ActionItem, now: int): (c: Card)
    ensures c == CompletedCard <==> item.status == ItemCompleted
    ensures c == OverdueCard <==> IsOverdue(item, now)
    ensures c == DueSoonCard <==> item.status != ItemCompleted && !IsOverdue(item, now) && DaysUntilDue(item.dueDate, now) <= 3
  {
    if item.status == ItemCompleted then CompletedCard
    else if IsOverdue(item, now) then OverdueCard
    else if DaysUntilDue(item.dueDate, now) <= 3 then DueSoonCard
    else NormalCard
  }

  datatype Icon = CheckedIcon | AlertIcon | OpenBox(inProgress: bool)

  function IconFor(item: ActionItem, now: int): (i: Icon)
    ensures i == CheckedIcon <==> item.status == ItemCompleted
    ensures i == AlertIcon <==> IsOverdue(item, now)
    ensures i.OpenBox? ==> (i.inProgress <==> item.status == ItemInProgress)
  {
    if item.status == ItemCompleted then CheckedIcon
    else if IsOverdue(item, now) then AlertIcon
    else OpenBox(item.status == ItemInProgress)
  }

  /** The days-left label: shown only for an open, not overdue item that is not past due. */
  function DaysLabel(item: ActionItem, now: int): (r: Option<string>)
    ensures r.Some? <==> !IsOverdue(item, now) && item.status != ItemCompleted && DaysUntilDue(item.dueDate, now) >= 0
    ensures r.Some? && DaysUntilDue(item.dueDate, now) == 0 ==> r.value == "วันนี้"
    ensures r.Some? && DaysUntilDue(item.dueDate, now) > 0 ==>
            r.value == "อีก " + IntToString(DaysUntilDue(item.dueDate, now)) + " วัน"
  {
    var days := DaysUntilDue(item.dueDate, now);
    if !IsOverdue(item, now) && item.status != ItemCompleted && days >= 0 then
      Some(if days == 0 then "วันนี้" else "อีก " + IntToString(days) + " วัน")
    else None
  }

  datatype ItemView = ItemView(card: Card, icon: Icon, daysLabel: Option<string>, overdueTag: bool, inProgressBadge: bool)

  function ViewOf(item: ActionItem, now: int): (v: ItemView)
    ensures v.overdueTag <==> IsOverdue(item, now)
    ensures v.inProgressBadge <==> item.status == ItemInProgress
    ensures v.overdueTag ==> v.daysLabel.None?
  {
    ItemView(CardFor(item, now), IconFor(item, now), DaysLabel(item, now), IsOverdue(item, now), item.status == ItemInProgress)
  }

  datatype ListView = EmptyState | Items(views: seq<ItemView>)

  /** `ActionItemsList`: the empty state for no items, otherwise one view per item in order. */
  function RenderList(items: seq<ActionItem>, now: int): (r: ListView)
    ensures r == EmptyState <==> items == []
    ensures r.Items? ==> |r.views| == |items| && forall i | 0 <= i < |items| :: r.views[i] == ViewOf(items[i], now)
  {
    if items == [] then EmptyState
    else Items(seq(|items|, i requires 0 <= i < |items| => ViewOf(items[i], now)))
  }

  /** A completed item is never shown as overdue, whatever its due date. */
  lemma CompletedNeverOverdue(item: ActionItem, now: int)
    requires item.status == ItemCompleted
    ensures CardFor(item, now) == CompletedCard && !ViewOf(item, now).overdueTag
  {
  }

  /**
   * Since an open item is overdue as soon as its due time has passed, the
   * "today" label appears only at the due instant itself; an item due
   * later today reads "1 day left".
   */
  lemma TodayOnlyAtDueInstant(item: ActionItem, now: int)
    requires item.status != ItemCompleted
    ensures DaysLabel(item, now) == Some("วันนี้") <==> item.dueDate == now
    ensures now < item.dueDate <= now + DayMs ==> DaysLabel(item, now) == Some("อีก 1 วัน")
  {
    if now < item.dueDate <= now + DayMs {
      DaysUntilDueFacts(item.dueDate, now);
      assert IntToString(1) == "1";
      assert "อีก " + "1" + " วัน" == "อีก 1 วัน";
    }
  }
}
