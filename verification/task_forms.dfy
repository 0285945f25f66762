/**
 * The two submit handlers that turn form fields into store commands — the modal
 * (`AddTaskModal`, which also edits) and the inline form (`AddTaskForm`) — and the
 * modal's prefill on opening. They are where blank titles are rejected.
 * `parseDate` stands for `new Date("YYYY-MM-DD")`, `formatDate` for the prefill's
 * `toISOString().split('T')[0]`.
 */
module TaskForms {
  import opened Wrappers
  import opened Text
  import opened TaskStore

  /** The controlled inputs shared by both forms. */
  datatype Fields = Fields(title: string, description: string, priority: Priority, dueDate: string)

  function EmptyFields(): (f: Fields)
    ensures f.title == "" && f.description == "" && f.priority == Media && f.dueDate == ""
  {
    Fields("", "", Media, "")
  }

  /** `description.trim() || undefined`. */
  function NormalizeDescription(d: string): (r: Option<string>)
    ensures r.None? <==> IsBlank(d)
    ensures r.Some? ==> r.value == Trim(d) && !IsBlank(r.value)
  {
    var t := Trim(d);
    TrimIdempotent(d);
    if t == "" then None else Some(t)
  }

  /** `dueDate ? new Date(dueDate) : undefined`. */
  function NormalizeDueDate(d: string, parseDate: string -> Time): (r: Option<Time>)
    ensures r.None? <==> d == ""
    ensures r.Some? ==> r.value == parseDate(d)
  {
    if d == "" then None else Some(parseDate(d))
  }

  /** A draft as the forms emit it: trimmed title, and a description that is absent or trimmed and non-blank. */
  predicate IsCleanDraft(d: Draft) {
    && Trim(d.title) == d.title && !IsBlank(d.title)
    && (d.description.Some? ==> Trim(d.description.value) == d.description.value && !IsBlank(d.description.value))
  }

  /** The new-task object both handlers pass to `onAddTask`. */
  function DraftFrom(f: Fields, parseDate: string -> Time): (d: Draft)
    ensures d.title == Trim(f.title) && d.priority == f.priority && d.status == Pendente
    ensures d.description == NormalizeDescription(f.description)
    ensures d.dueDate == NormalizeDueDate(f.dueDate, parseDate)
  {
    Draft(Trim(f.title), NormalizeDescription(f.description), f.priority, Pendente, NormalizeDueDate(f.dueDate, parseDate))
  }

  /** A draft made from a non-blank title is clean. */
  lemma DraftFromIsClean(f: Fields, parseDate: string -> Time)
    requires !IsBlank(f.title)
    ensures IsCleanDraft(DraftFrom(f, parseDate))
  {
    TrimIdempotent(f.title);
    TrimKeepsBlankness(f.title);
  }

  /** The updates the modal passes to `onUpdateTask`: every edited field, never the status. */
  function PatchFrom(f: Fields, parseDate: string -> Time): (p: Patch)
    ensures p.title == Some(Trim(f.title)) && p.priority == Some(f.priority) && p.status.None?
    ensures p.description == Some(NormalizeDescription(f.description))
    ensures p.dueDate == Some(NormalizeDueDate(f.dueDate, parseDate))
  {
    Patch(Some(Trim(f.title)), Some(NormalizeDescription(f.description)), Some(f.priority), None,
          Some(NormalizeDueDate(f.dueDate, parseDate)))
  }

  // ---------------------------------------------------------------- the modal

  datatype Modal = Modal(fields: Fields, open: bool)

  /** What a submit produces: the command sent to the store, if any, and the modal afterwards. */
  datatype ModalSubmit = ModalSubmit(command: Option<Command>, after: Modal)

  /**
   * The modal's `handleSubmit`. `editTask` is the task being edited, `hasUpdateHandler`
   * whether `onUpdateTask` was supplied.
   */
  function SubmitModal(m: Modal, editTask: Option<Task>, hasUpdateHandler: bool, parseDate: string -> Time): (o: ModalSubmit)
    ensures o.command.None? <==> IsBlank(m.fields.title)
    ensures o.command.None? ==> o.after == m
    ensures o.command.Some? ==> o.after == Modal(EmptyFields(), false)
    ensures o.command.Some? && editTask.Some? && hasUpdateHandler ==>
      o.command.value == Update(editTask.value.id, PatchFrom(m.fields, parseDate))
    ensures o.command.Some? && !(editTask.Some? && hasUpdateHandler) ==>
      o.command.value == Add(DraftFrom(m.fields, parseDate))
    ensures o.command.Some? ==> KeepsTitlesNonBlank(o.command.value)
  {
    if Trim(m.fields.title) == "" then ModalSubmit(None, m)
    else
      var cmd :=
        if editTask.Some? && hasUpdateHandler then Update(editTask.value.id, PatchFrom(m.fields, parseDate))
        else Add(DraftFrom(m.fields, parseDate));
      ModalSubmit(Some(cmd), Modal(EmptyFields(), false))
  }

  /** The modal's effect on `[editTask, open]`: prefill from the edited task, or reset for a new one. */
  function OnOpen(fields: Fields, editTask: Option<Task>, open: bool, formatDate: Time -> string): (f: Fields)
    ensures !open ==> f == fields
    ensures open && editTask.None? ==> f == EmptyFields()
    ensures open && editTask.Some? ==>
      && f.title == editTask.value.title
      && f.description == editTask.value.description.GetOr("")
      && f.priority == editTask.value.priority
      && f.dueDate == (if editTask.value.dueDate.Some? then formatDate(editTask.value.dueDate.value) else "")
  {
    if !open then fields
    else if editTask.Some? then
      var t := editTask.value;
      Fields(t.title, t.description.GetOr(""), t.priority,
             if t.dueDate.Some? then formatDate(t.dueDate.value) else "")
    else EmptyFields()
  }

  /**
   * Opening a clean task for editing and saving it untouched rewrites it with itself:
   * only `updatedAt` changes, provided the date formatting and parsing round-trip.
   */
  lemma EditWithoutChangesKeepsTask(t: Task, before: Fields, now: Time, parseDate: string -> Time, formatDate: Time -> string)
    requires IsCleanDraft(Draft(t.title, t.description, t.priority, t.status, t.dueDate))
    requires t.dueDate.Some? ==> formatDate(t.dueDate.value) != "" && parseDate(formatDate(t.dueDate.value)) == t.dueDate.value
    ensures var o := SubmitModal(Modal(OnOpen(before, Some(t), true, formatDate), true), Some(t), true, parseDate);
      && o.command.Some? && o.command.value.Update? && o.command.value.id == t.id
      && ApplyPatch(t, o.command.value.patch, now) == t.(updatedAt := now)
  {
  }

  /** A command from the modal keeps every title in the store non-blank. */
  lemma ModalCommandKeepsTitlesNonBlank(tasks: seq<Task>, m: Modal, editTask: Option<Task>, hasUpdateHandler: bool,
                                        parseDate: string -> Time, env: Env)
    requires TitlesNonBlank(tasks)
    ensures var o := SubmitModal(m, editTask, hasUpdateHandler, parseDate);
      o.command.Some? ==> TitlesNonBlank(Apply(tasks, o.command.value, env))
  {
    var o := SubmitModal(m, editTask, hasUpdateHandler, parseDate);
    if o.command.Some? {
      ApplyKeepsTitlesNonBlank(tasks, o.command.value, env);
    }
  }

  // ---------------------------------------------------------------- the inline form

  datatype InlineForm = InlineForm(fields: Fields, expanded: bool)

  /** The inline form's initial state: empty fields, priority `media`, collapsed. */
  function InitialInlineForm(): (s: InlineForm)
    ensures s.fields == EmptyFields() && !s.expanded
  {
    InlineForm(EmptyFields(), false)
  }

  datatype InlineSubmit = InlineSubmit(draft: Option<Draft>, after: InlineForm)

  /** The inline form's `handleSubmit`: only ever adds, then resets and collapses. */
  function SubmitInlineForm(s: InlineForm, parseDate: string -> Time): (o: InlineSubmit)
    ensures o.draft.None? <==> IsBlank(s.fields.title)
    ensures o.draft.None? ==> o.after == s
    ensures o.draft.Some? ==> o.after == InitialInlineForm()
    ensures o.draft.Some? ==> IsCleanDraft(o.draft.value) && o.draft.value.status == Pendente
    ensures o.draft.Some? ==> o.draft.value == DraftFrom(s.fields, parseDate)
  {
    if Trim(s.fields.title) == "" then InlineSubmit(None, s)
    else
      DraftFromIsClean(s.fields, parseDate);
      InlineSubmit(Some(DraftFrom(s.fields, parseDate)), InitialInlineForm())
  }

  /** Both forms turn the same fields into the same new task. */
  lemma FormsAgreeOnNewTasks(f: Fields, expanded: bool, open: bool, parseDate: string -> Time)
    ensures var inline := SubmitInlineForm(InlineForm(f, expanded), parseDate);
      var modal := SubmitModal(Modal(f, open), None, false, parseDate);
      && (inline.draft.Some? <==> modal.command.Some?)
      && (inline.draft.Some? ==> modal.command.value == Add(inline.draft.value))
  {
  }
}
