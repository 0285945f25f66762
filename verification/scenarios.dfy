/** Worked examples of the list view on small collections. */
module Scenarios {
  import opened Wrappers
  import opened Text
  import opened TaskStore
  import opened TaskList

  function Sample(id: TaskId, title: string, p: Priority, at: Time): Task {
    Task(id, title, None, p, Pendente, at, at, None)
  }

  /** Searching "ALP" among "Alpha" and "beta" finds only "Alpha": the term is lower-cased too. */
  lemma SearchFindsAlpha()
    ensures var alpha := Sample("1", "Alpha", Media, 0);
      var beta := Sample("2", "beta", Media, 1);
      FilteredTasks([alpha, beta], Todas, "ALP") == [alpha]
  {
    var alpha := Sample("1", "Alpha", Media, 0);
    var beta := Sample("2", "beta", Media, 1);
    assert ToLower("Alpha") == "alpha";
    assert ToLower("ALP") == "alp";
    assert ToLower("beta") == "beta";
    assert StartsWith("alpha", "alp");
    assert MatchesSearch(alpha, "ALP");
    assert !Includes("beta", "alp") by {
      assert "beta"[1..] == "eta" && "eta"[1..] == "ta" && "ta"[1..] == "a" && "a"[1..] == "";
      assert "eta"[..3] == "eta" && "eta"[0] != "alp"[0];
      assert !StartsWith("beta", "alp") && !StartsWith("eta", "alp");
      assert !StartsWith("ta", "alp") && !StartsWith("a", "alp") && !StartsWith("", "alp");
    }
    assert !MatchesSearch(beta, "ALP");
  }

  /** Sorting low, medium, high by priority, descending, gives high, medium, low. */
  lemma PriorityDescending(collate: (string, string) -> int)
    requires IsCollation(collate)
    ensures var low := Sample("1", "a", Baixa, 0);
      var mid := Sample("2", "b", Media, 1);
      var high := Sample("3", "c", Alta, 2);
      SortedTasks([low, mid, high], Prioridade, Desc, collate) == [high, mid, low]
  {
    var low := Sample("1", "a", Baixa, 0);
    var mid := Sample("2", "b", Media, 1);
    var high := Sample("3", "c", Alta, 2);
    var r := SortedTasks([low, mid, high], Prioridade, Desc, collate);
    PrioritySortOrders([low, mid, high], Desc, collate);
    OnlyDescendingArrangement(r, low, mid, high);
  }

  lemma OnlyDescendingArrangement(r: seq<Task>, low: Task, mid: Task, high: Task)
    requires low.priority == Baixa && mid.priority == Media && high.priority == Alta
    requires multiset(r) == multiset{low, mid, high}
    requires forall i, j | 0 <= i < j < |r| :: PriorityRank(r[i].priority) >= PriorityRank(r[j].priority)
    ensures r == [high, mid, low]
  {
    assert |r| == 3 by { assert |multiset(r)| == 3; }
    assert r == [r[0], r[1], r[2]];
    assert multiset{r[0], r[1], r[2]} == multiset{low, mid, high};
    assert r[0] in multiset{low, mid, high} && r[1] in multiset{low, mid, high} && r[2] in multiset{low, mid, high};
    assert PriorityRank(r[0].priority) >= PriorityRank(r[1].priority) >= PriorityRank(r[2].priority);
  }
}
