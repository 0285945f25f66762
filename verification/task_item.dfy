/**
 * The per-task display logic of `TaskItem`: the overdue and due-soon flags, the
 * due-date badge, and the priority labels. `now` is the clock reading of the render.
 */
module TaskItem {
  import opened Wrappers
  import opened TaskStore

  /** One day in milliseconds. */
  const DayMs: int := 24 * 60 * 60 * 1000

  /** `isOverdue`: a pending task whose due instant has passed. */
  predicate IsOverdue(t: Task, now: Time): (b: bool)
    ensures b ==> t.status == Pendente && t.dueDate.Some? && t.dueDate.value < now
    ensures t.status == Pendente && t.dueDate.Some? && t.dueDate.value < now ==> b
  {
    t.dueDate.Some? && now > t.dueDate.value && t.status == Pendente
  }

  /** `isDueSoon`: a pending task due within the next day, or already past due. */
  predicate IsDueSoon(t: Task, now: Time): (b: bool)
    ensures b ==> t.status == Pendente && t.dueDate.Some? && now + DayMs >= t.dueDate.value
    ensures t.status == Pendente && t.dueDate.Some? && now + DayMs >= t.dueDate.value ==> b
  {
    t.dueDate.Some? && t.status == Pendente && t.dueDate.value - DayMs <= now
  }

  /** Every overdue task is also due soon, and a finished task is neither. */
  lemma OverdueImpliesDueSoon(t: Task, now: Time)
    ensures IsOverdue(t, now) ==> IsDueSoon(t, now)
    ensures t.status == Concluida ==> !IsOverdue(t, now) && !IsDueSoon(t, now)
  {
  }

  /** The due-date badge: absent without a due date, else the most urgent applicable label. */
  function DueBadgeLabel(t: Task, now: Time, formatDate: Time -> string): (badge: Option<string>)
    ensures badge.None? <==> t.dueDate.None?
    ensures IsOverdue(t, now) ==> badge == Some("Atrasada")
    ensures !IsOverdue(t, now) && IsDueSoon(t, now) ==> badge == Some("Urgente")
    ensures t.dueDate.Some? && !IsDueSoon(t, now) ==> badge == Some(formatDate(t.dueDate.value))
  {
    if t.dueDate.None? then None
    else if IsOverdue(t, now) then Some("Atrasada")
    else if IsDueSoon(t, now) then Some("Urgente")
    else Some(formatDate(t.dueDate.value))
  }

  /** A completed task's badge always shows its date. */
  lemma CompletedBadgeShowsDate(t: Task, now: Time, formatDate: Time -> string)
    requires t.status == Concluida && t.dueDate.Some?
    ensures DueBadgeLabel(t, now, formatDate) == Some(formatDate(t.dueDate.value))
  {
  }

  /** More than a day before the due instant a pending task shows its date; from then on it shows "Urgente", then "Atrasada". */
  lemma BadgeFollowsTheClock(t: Task, now: Time, formatDate: Time -> string)
    requires t.status == Pendente && t.dueDate.Some?
    ensures var d := t.dueDate.value;
      && (now < d - DayMs ==> DueBadgeLabel(t, now, formatDate) == Some(formatDate(d)))
      && (d - DayMs <= now <= d ==> DueBadgeLabel(t, now, formatDate) == Some("Urgente"))
      && (d < now ==> DueBadgeLabel(t, now, formatDate) == Some("Atrasada"))
  {
  }

  /** The `label` of `getPriorityData`. */
  function PriorityLabel(p: Priority): (name: string)
    ensures p == Alta <==> name == "Alta"
    ensures p == Media <==> name == "Média"
    ensures p == Baixa <==> name == "Baixa"
  {
    match p
    case Alta => "Alta"
    case Media => "Média"
    case Baixa => "Baixa"
  }
}
