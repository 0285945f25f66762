/**
 * The derived view of `TaskList`: the search/status filter, the copy-and-sort by
 * date, priority or title in either direction, and the sort-toggle rule.
 * `collate` stands for `String.prototype.localeCompare(…, "pt-BR")`.
 */
module TaskList {
  import opened Seqs
  import opened Sorting
  import opened Text
  import opened TaskStore

  datatype FilterType = Todas | Pendentes | Concluidas

  datatype SortType = Data | Prioridade | Titulo

  datatype SortDirection = Asc | Desc

  datatype ViewState = ViewState(filter: FilterType, sort: SortType, searchTerm: string, direction: SortDirection)

  /** The state the list starts in. */
  function InitialView(): (v: ViewState)
    ensures v.filter == Todas && v.sort == Data && v.direction == Desc && v.searchTerm == ""
  {
    ViewState(Todas, Data, "", Desc)
  }

  // ---------------------------------------------------------------- filter

  /** Case-insensitive search in the title, or in the description when there is one. */
  predicate MatchesSearch(t: Task, term: string): (b: bool)
    ensures term == "" ==> b
    ensures Includes(ToLower(t.title), ToLower(term)) ==> b
    ensures t.description.Some? && Includes(ToLower(t.description.value), ToLower(term)) ==> b
    ensures b ==> || Includes(ToLower(t.title), ToLower(term))
                  || (t.description.Some? && Includes(ToLower(t.description.value), ToLower(term)))
    ensures b && t.description.None? ==> Includes(ToLower(t.title), ToLower(term))
  {
    || Includes(ToLower(t.title), ToLower(term))
    || (t.description.Some? && Includes(ToLower(t.description.value), ToLower(term)))
  }

  /** `todas` admits every task; each other filter admits exactly one status. */
  predicate MatchesFilter(t: Task, filter: FilterType): (b: bool)
    ensures filter == Todas ==> b
    ensures filter == Pendentes ==> (b <==> IsPending(t))
    ensures filter == Concluidas ==> (b <==> IsCompleted(t))
  {
    || filter == Todas
    || (filter == Pendentes && t.status == Pendente)
    || (filter == Concluidas && t.status == Concluida)
  }

  function Shows(filter: FilterType, term: string): Task -> bool {
    (t: Task) => MatchesSearch(t, term) && MatchesFilter(t, filter)
  }

  /** `filteredTasks`: the tasks passing both tests, in collection order. */
  function FilteredTasks(tasks: seq<Task>, filter: FilterType, term: string): (r: seq<Task>)
    ensures IsSubsequence(r, tasks)
    ensures forall t :: t in r <==> t in tasks && MatchesSearch(t, term) && MatchesFilter(t, filter)
    ensures forall t: Task ::
      multiset(r)[t] == (if MatchesSearch(t, term) && MatchesFilter(t, filter) then multiset(tasks)[t] else 0)
  {
    Filter(Shows(filter, term), tasks)
  }

  /** With no search term and filter `todas`, every task is shown, in collection order. */
  lemma ShowAllIsIdentity(tasks: seq<Task>)
    ensures FilteredTasks(tasks, Todas, "") == tasks
  {
    forall i | 0 <= i < |tasks| ensures Shows(Todas, "")(tasks[i]) {
      IncludesEmpty(ToLower(tasks[i].title));
    }
    FilterKeepsAll(Shows(Todas, ""), tasks);
  }

  /** The status filters keep exactly the tasks of the selected status. */
  lemma StatusFilterSelects(tasks: seq<Task>, term: string)
    ensures forall t | t in FilteredTasks(tasks, Pendentes, term) :: t.status == Pendente
    ensures forall t | t in FilteredTasks(tasks, Concluidas, term) :: t.status == Concluida
    ensures forall t | t in tasks && t.status == Pendente :: t in FilteredTasks(tasks, Pendentes, "")
    ensures forall t | t in tasks && t.status == Concluida :: t in FilteredTasks(tasks, Concluidas, "")
  {
    forall t | t in tasks ensures MatchesSearch(t, "") {
      IncludesEmpty(ToLower(t.title));
    }
  }

  /** The search ignores the case of ASCII letters in the search term. */
  lemma SearchIgnoresCase(t: Task, term: string, term': string)
    requires ToLower(term) == ToLower(term')
    ensures MatchesSearch(t, term) <==> MatchesSearch(t, term')
  {
  }

  // ---------------------------------------------------------------- sort

  function PriorityRank(p: Priority): int {
    match p
    case Alta => 3
    case Media => 2
    case Baixa => 1
  }

  /** What `localeCompare` is assumed to be: a consistent comparator, as sorting requires. */
  ghost predicate IsCollation(collate: (string, string) -> int) {
    && (forall a, b :: collate(a, b) < 0 <==> collate(b, a) > 0)
    && (forall a, b, c :: collate(a, b) <= 0 && collate(b, c) <= 0 ==> collate(a, c) <= 0)
  }

  /** The comparator passed to `sort`, before the direction is applied. */
  function Comparison(key: SortType, collate: (string, string) -> int, a: Task, b: Task): (c: int)
    ensures key == Prioridade ==> -2 <= c <= 2 && (c == 0 <==> a.priority == b.priority)
    ensures key == Prioridade ==> (c < 0 <==> PriorityRank(a.priority) < PriorityRank(b.priority))
    ensures key == Data ==> (c < 0 <==> a.createdAt < b.createdAt) && (c == 0 <==> a.createdAt == b.createdAt)
    ensures key == Titulo ==> c == collate(a.title, b.title)
  {
    match key
    case Prioridade => PriorityRank(a.priority) - PriorityRank(b.priority)
    case Titulo => collate(a.title, b.title)
    case Data => a.createdAt - b.createdAt
  }

  /** The comparator with the direction applied: descending reverses the sign, ties stay ties. */
  function Comparator(key: SortType, dir: SortDirection, collate: (string, string) -> int, a: Task, b: Task): (c: int)
    ensures c == 0 <==> Comparison(key, collate, a, b) == 0
    ensures dir == Asc ==> (c < 0 <==> Comparison(key, collate, a, b) < 0)
    ensures dir == Desc ==> (c < 0 <==> Comparison(key, collate, a, b) > 0)
  {
    var c := Comparison(key, collate, a, b);
    if dir == Desc then -c else c
  }

  /** `a` may stay ahead of `b`: the comparator does not put `b` first. */
  function Precedes(key: SortType, dir: SortDirection, collate: (string, string) -> int): (le: (Task, Task) -> bool)
    ensures key == Data ==> forall a: Task, b: Task ::
      le(a, b) <==> if dir == Asc then a.createdAt <= b.createdAt else b.createdAt <= a.createdAt
    ensures key == Prioridade ==> forall a: Task, b: Task ::
      le(a, b) <==> if dir == Asc then PriorityRank(a.priority) <= PriorityRank(b.priority)
                    else PriorityRank(b.priority) <= PriorityRank(a.priority)
    ensures key == Titulo ==> forall a: Task, b: Task ::
      le(a, b) <==> if dir == Asc then collate(a.title, b.title) <= 0 else collate(a.title, b.title) >= 0
  {
    (a: Task, b: Task) => Comparator(key, dir, collate, a, b) <= 0
  }

  lemma PrecedesIsTotalPreorder(key: SortType, dir: SortDirection, collate: (string, string) -> int)
    requires IsCollation(collate)
    ensures IsTotalPreorder(Precedes(key, dir, collate))
  {
    var le := Precedes(key, dir, collate);
    forall a, b ensures le(a, b) || le(b, a) {
      if key == Titulo {
        assert collate(a.title, b.title) < 0 <==> collate(b.title, a.title) > 0;
      }
    }
    forall a, b, c | le(a, b) && le(b, c) ensures le(a, c) {
      if key == Titulo && dir == Desc {
        assert collate(b.title, a.title) <= 0 && collate(c.title, b.title) <= 0;
      }
    }
  }

  /** `sortedTasks`: a stable sort of a copy of the filtered tasks. */
  function SortedTasks(filtered: seq<Task>, key: SortType, dir: SortDirection, collate: (string, string) -> int): (r: seq<Task>)
    requires IsCollation(collate)
    ensures multiset(r) == multiset(filtered)
    ensures SortedBy(Precedes(key, dir, collate), r)
    ensures StableFor(Precedes(key, dir, collate), filtered, r)
  {
    PrecedesIsTotalPreorder(key, dir, collate);
    InsertionSortStable(Precedes(key, dir, collate), filtered);
    InsertionSort(Precedes(key, dir, collate), filtered)
  }

  /** The list the user sees for a collection and a view state. */
  function VisibleTasks(tasks: seq<Task>, view: ViewState, collate: (string, string) -> int): (r: seq<Task>)
    requires IsCollation(collate)
    ensures multiset(r) == multiset(FilteredTasks(tasks, view.filter, view.searchTerm))
    ensures SortedBy(Precedes(view.sort, view.direction, collate), r)
    ensures StableFor(Precedes(view.sort, view.direction, collate), FilteredTasks(tasks, view.filter, view.searchTerm), r)
    ensures forall t :: t in r <==> t in tasks && MatchesSearch(t, view.searchTerm) && MatchesFilter(t, view.filter)
  {
    var r := SortedTasks(FilteredTasks(tasks, view.filter, view.searchTerm), view.sort, view.direction, collate);
    assert forall t :: t in r <==> t in multiset(r);
    r
  }

  /** Sorting by priority orders baixa, media, alta ascending and the reverse descending. */
  lemma PrioritySortOrders(filtered: seq<Task>, dir: SortDirection, collate: (string, string) -> int)
    requires IsCollation(collate)
    ensures var r := SortedTasks(filtered, Prioridade, dir, collate);
      forall i, j | 0 <= i < j < |r| ::
        if dir == Asc then PriorityRank(r[i].priority) <= PriorityRank(r[j].priority)
        else PriorityRank(r[i].priority) >= PriorityRank(r[j].priority)
  {
    var r := SortedTasks(filtered, Prioridade, dir, collate);
    forall i, j | 0 <= i < j < |r|
      ensures if dir == Asc then PriorityRank(r[i].priority) <= PriorityRank(r[j].priority)
              else PriorityRank(r[i].priority) >= PriorityRank(r[j].priority)
    {
      assert Precedes(Prioridade, dir, collate)(r[i], r[j]);
    }
  }

  /** Sorting by date orders by `createdAt`, ascending or descending per the direction. */
  lemma DateSortOrders(filtered: seq<Task>, dir: SortDirection, collate: (string, string) -> int)
    requires IsCollation(collate)
    ensures var r := SortedTasks(filtered, Data, dir, collate);
      forall i, j | 0 <= i < j < |r| ::
        if dir == Asc then r[i].createdAt <= r[j].createdAt else r[i].createdAt >= r[j].createdAt
  {
    var r := SortedTasks(filtered, Data, dir, collate);
    forall i, j | 0 <= i < j < |r|
      ensures if dir == Asc then r[i].createdAt <= r[j].createdAt else r[i].createdAt >= r[j].createdAt
    {
      assert Precedes(Data, dir, collate)(r[i], r[j]);
    }
  }

  /** Under the date comparator, in either direction, two tasks tie exactly when created together. */
  lemma DateTiesAreSameInstant(dir: SortDirection, collate: (string, string) -> int, x: Task, y: Task)
    ensures EquivalentTo(Precedes(Data, dir, collate), x)(y) == CreatedWith(x.createdAt)(y)
  {
  }

  /** Tasks created at the same instant keep their input order, in both directions. */
  lemma DateSortKeepsTies(filtered: seq<Task>, dir: SortDirection, collate: (string, string) -> int)
    requires IsCollation(collate)
    ensures var r := SortedTasks(filtered, Data, dir, collate);
      forall x | x in filtered ::
        Filter(CreatedWith(x.createdAt), r) == Filter(CreatedWith(x.createdAt), filtered)
  {
    var le := Precedes(Data, dir, collate);
    var r := SortedTasks(filtered, Data, dir, collate);
    forall x | x in filtered
      ensures Filter(CreatedWith(x.createdAt), r) == Filter(CreatedWith(x.createdAt), filtered)
    {
      assert Filter(EquivalentTo(le, x), r) == Filter(EquivalentTo(le, x), filtered);
      DateTieClass(dir, collate, x, r);
      DateTieClass(dir, collate, x, filtered);
    }
  }

  /** Filtering by date-equivalence to `x` is filtering by `x`'s creation instant. */
  lemma DateTieClass(dir: SortDirection, collate: (string, string) -> int, x: Task, s: seq<Task>)
    ensures Filter(EquivalentTo(Precedes(Data, dir, collate), x), s) == Filter(CreatedWith(x.createdAt), s)
  {
    forall i | 0 <= i < |s| {
      DateTiesAreSameInstant(dir, collate, x, s[i]);
    }
    FilterExtensional(EquivalentTo(Precedes(Data, dir, collate), x), CreatedWith(x.createdAt), s);
  }

  function CreatedWith(at: Time): Task -> bool {
    (t: Task) => t.createdAt == at
  }

  // ---------------------------------------------------------------- sort toggle

  /** `toggleSort`: the active key flips direction; another key becomes active, descending. */
  function ToggleSort(v: ViewState, key: SortType): (v': ViewState)
    ensures v'.sort == key && v'.filter == v.filter && v'.searchTerm == v.searchTerm
    ensures v.sort == key ==> v'.direction != v.direction
    ensures v.sort != key ==> v'.direction == Desc
  {
    if v.sort == key then v.(direction := if v.direction == Asc then Desc else Asc)
    else v.(sort := key, direction := Desc)
  }

  /** Pressing the same sort button twice restores the view. */
  lemma ToggleSortTwiceOnActiveKey(v: ViewState)
    ensures ToggleSort(ToggleSort(v, v.sort), v.sort) == v
  {
  }
}
