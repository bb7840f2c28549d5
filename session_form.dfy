/**
 * The advisor's form for recording a coaching session: text fields, an
 * editable list of topics and an editable list of draft action items.
 */
module SessionForm {
  import opened Wrappers
  import opened Text
  import opened Domain
  import Seqs

  datatype FormData = FormData(
    projectId: string,
    date: string,
    time: string,
    /** `parseInt` of the duration field; `None` stands for NaN. */
    duration: Option<int>,
    topics: seq<string>,
    summary: string,
    notes: string,
    nextSessionDate: string,
    nextSessionTime: string)

  /** A draft action item; every field is the text of its input. */
  datatype DraftItem = DraftItem(description: string, assignedTo: string, dueDate: string, priority: string)

  /** The fields of a draft action item the form edits. */
  datatype DraftField = Description | AssignedTo | DueDate | PriorityField

  /** The plain text fields of the form. */
  datatype TextField = ProjectIdField | DateField | TimeField | SummaryField | NotesField
                     | NextDateField | NextTimeField

  const InitialForm := FormData("", "", "", Some(60), [""], "", "", "", "")

  const DefaultDraftItem := DraftItem("", "", "", "medium")

  /** `{ ...item, [field]: value }`: only the named field changes. */
  function SetDraftField(item: DraftItem, field: DraftField, value: string): (r: DraftItem)
    ensures field == Description ==> r == item.(description := value)
    ensures field == AssignedTo ==> r == item.(assignedTo := value)
    ensures field == DueDate ==> r == item.(dueDate := value)
    ensures field == PriorityField ==> r == item.(priority := value)
  {
    match field
    case Description => item.(description := value)
    case AssignedTo => item.(assignedTo := value)
    case DueDate => item.(dueDate := value)
    case PriorityField => item.(priority := value)
  }

  /** The text held by one of the form's text fields. */
  function TextOf(d: FormData, field: TextField): string {
    match field
    case ProjectIdField => d.projectId
    case DateField => d.date
    case TimeField => d.time
    case SummaryField => d.summary
    case NotesField => d.notes
    case NextDateField => d.nextSessionDate
    case NextTimeField => d.nextSessionTime
  }

  /** `{ ...formData, [field]: value }`: the named field takes the value, every other field is kept. */
  function SetTextField(d: FormData, field: TextField, value: string): (r: FormData)
    ensures TextOf(r, field) == value
    ensures forall g: TextField | g != field :: TextOf(r, g) == TextOf(d, g)
    ensures r.duration == d.duration && r.topics == d.topics
  {
    match field
    case ProjectIdField => d.(projectId := value)
    case DateField => d.(date := value)
    case TimeField => d.(time := value)
    case SummaryField => d.(summary := value)
    case NotesField => d.(notes := value)
    case NextDateField => d.(nextSessionDate := value)
    case NextTimeField => d.(nextSessionTime := value)
  }

  /** The position of the first project with the given id. */
  function FindProject(projects: seq<Project>, id: string): (r: Option<nat>)
    ensures r.Some? ==> r.value < |projects| && projects[r.value].id == id &&
                        forall j | 0 <= j < r.value :: projects[j].id != id
    ensures r.None? ==> forall j | 0 <= j < |projects| :: projects[j].id != id
  {
    if projects == [] then None
    else if projects[0].id == id then Some(0)
    else match FindProject(projects[1..], id)
      case None => None
      case Some(k) => Some(k + 1)
  }

  /** `students`: the users on the selected project's team, in user-list order; none without a selection. */
  function Students(projects: seq<Project>, users: seq<User>, projectId: string): (r: seq<User>)
    ensures FindProject(projects, projectId).None? ==> r == []
    ensures FindProject(projects, projectId).Some? ==>
            r == Seqs.Filter(users, (u: User) => u.id in projects[FindProject(projects, projectId).value].teamMembers)
  {
    match FindProject(projects, projectId)
    case None => []
    case Some(k) => Seqs.Filter(users, (u: User) => u.id in projects[k].teamMembers)
  }

  /** Every listed student is on the selected team. */
  lemma StudentsOnTeam(projects: seq<Project>, users: seq<User>, projectId: string)
    ensures var r := Students(projects, users, projectId);
            forall i | 0 <= i < |r| :: r[i] in users &&
              exists k | 0 <= k < |projects| :: projects[k].id == projectId && r[i].id in projects[k].teamMembers
  {
    match FindProject(projects, projectId)
    case None =>
    case Some(k) =>
      var r := Students(projects, users, projectId);
      forall i | 0 <= i < |r|
        ensures r[i] in users && r[i].id in projects[k].teamMembers
      {
      }
  }

  class CoachingSessionForm {
    var formData: FormData
    var actionItems: seq<DraftItem>
    var closeRequested: bool

    /** What the form keeps true: at least one topic line. */
    predicate Valid()
      reads this
    {
      |formData.topics| >= 1
    }

    constructor()
      ensures formData == InitialForm && actionItems == [DefaultDraftItem] && !closeRequested
      ensures Valid()
    {
      formData := InitialForm;
      actionItems := [DefaultDraftItem];
      closeRequested := false;
    }

    method SetText(field: TextField, value: string)
      modifies this
      ensures formData == SetTextField(old(formData), field, value)
      ensures actionItems == old(actionItems) && closeRequested == old(closeRequested)
      ensures old(Valid()) ==> Valid()
    {
      formData := SetTextField(formData, field, value);
    }

    /** The duration input stores `parseInt` of its text. */
    method SetDuration(text: string)
      modifies this
      ensures formData == old(formData).(duration := ParseInt(text))
      ensures actionItems == old(actionItems) && closeRequested == old(closeRequested)
      ensures old(Valid()) ==> Valid()
    {
      formData := formData.(duration := ParseInt(text));
    }

    method AddTopic()
      modifies this
      ensures formData == old(formData).(topics := old(formData).topics + [""])
      ensures actionItems == old(actionItems) && closeRequested == old(closeRequested)
      ensures old(Valid()) ==> Valid()
    {
      formData := formData.(topics := formData.topics + [""]);
    }

    method UpdateTopic(index: nat, value: string)
      requires index < |formData.topics|
      modifies this
      ensures formData == old(formData).(topics := old(formData).topics[index := value])
      ensures actionItems == old(actionItems) && closeRequested == old(closeRequested)
      ensures old(Valid()) ==> Valid()
    {
      formData := formData.(topics := formData.topics[index := value]);
    }

    /** `removeTopic(index)`; offered only while more than one topic is listed. */
    method RemoveTopic(index: int)
      modifies this
      ensures formData == old(formData).(topics := Seqs.RemoveAt(old(formData).topics, index))
      ensures actionItems == old(actionItems) && closeRequested == old(closeRequested)
      ensures old(Valid()) && old(|formData.topics|) > 1 ==> Valid()
    {
      Seqs.RemoveAtSpec(formData.topics, index);
      formData := formData.(topics := Seqs.RemoveAt(formData.topics, index));
    }

    method AddActionItem()
      modifies this
      ensures actionItems == old(actionItems) + [DefaultDraftItem]
      ensures formData == old(formData) && closeRequested == old(closeRequested)
    {
      actionItems := actionItems + [DefaultDraftItem];
    }

    method UpdateActionItem(index: nat, field: DraftField, value: string)
      requires index < |actionItems|
      modifies this
      ensures actionItems == old(actionItems)[index := SetDraftField(old(actionItems)[index], field, value)]
      ensures formData == old(formData) && closeRequested == old(closeRequested)
    {
      actionItems := actionItems[index := SetDraftField(actionItems[index], field, value)];
    }

    /** `removeActionItem(index)`; offered for every item, even the last one. */
    method RemoveActionItem(index: int)
      modifies this
      ensures actionItems == Seqs.RemoveAt(old(actionItems), index)
      ensures formData == old(formData) && closeRequested == old(closeRequested)
    {
      actionItems := Seqs.RemoveAt(actionItems, index);
    }

    /** `handleSubmit`: nothing is saved; the form only asks to be closed. */
    method HandleSubmit()
      modifies this
      ensures closeRequested
      ensures formData == old(formData) && actionItems == old(actionItems)
    {
      closeRequested := true;
    }
  }

  /** Removing the only action item empties the list, which the form allows. */
  lemma LastActionItemRemovable(item: DraftItem)
    ensures Seqs.RemoveAt([item], 0) == []
  {
  }

  /** Updating one draft field leaves the other three as they were. */
  lemma SetDraftFieldOnlyThatField(item: DraftItem, field: DraftField, value: string)
    ensures var r := SetDraftField(item, field, value);
            (field != Description ==> r.description == item.description) &&
            (field != AssignedTo ==> r.assignedTo == item.assignedTo) &&
            (field != DueDate ==> r.dueDate == item.dueDate) &&
            (field != PriorityField ==> r.priority == item.priority)
  {
  }
}
