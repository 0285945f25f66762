/**
 * The derived figures of `TaskStats`: the completion percentage and the
 * motivational message chosen from it.
 */
module TaskStats {
  import opened Wrappers
  import opened TaskStore

  /**
   * `Math.round(completed / total * 100)`, or 0 without tasks, in exact integer
   * arithmetic: `r` is the nearest integer to 100·completed/total, halves rounding up.
   */
  function CompletionRate(stats: Stats): (r: int)
    ensures stats.total == 0 ==> r == 0
    ensures stats.total > 0 ==> IsRoundedPercent(stats.completed, stats.total, r)
    ensures stats.completed <= stats.total ==> 0 <= r <= 100
    ensures 0 < stats.total == stats.completed ==> r == 100
  {
    if stats.total > 0 then RoundedPercent(stats.completed, stats.total) else 0
  }

  /** `r - 1/2 <= 100·c/t < r + 1/2`, scaled by `2t`. */
  predicate IsRoundedPercent(c: nat, t: nat, r: int) {
    2 * t * r - t <= 200 * c < 2 * t * r + t
  }

  function RoundedPercent(c: nat, t: nat): (r: nat)
    requires t > 0
    ensures IsRoundedPercent(c, t, r)
    ensures c <= t ==> r <= 100
    ensures c == t ==> r == 100
  {
    var r := (200 * c + t) / (2 * t);
    DivBounds(200 * c + t, 2 * t);
    assert IsRoundedPercent(c, t, r);
    if c <= t then
      assert IsRoundedPercent(t, t, 100);
      RoundingOrder(t, c, t, r, 100);
      if c == t then RoundingOrder(t, t, t, 100, r); r else r
    else r
  }

  lemma DivBounds(n: nat, d: nat)
    requires d > 0
    ensures d * (n / d) <= n < d * (n / d) + d
  {
  }

  lemma MulCancelLess(t: int, a: int, b: int)
    requires t > 0 && t * a < t * b
    ensures a < b
  {
  }

  /** Rounding preserves order: a larger share never rounds to a smaller percentage. */
  lemma RoundingOrder(t: nat, c1: nat, c2: nat, r1: int, r2: int)
    requires t > 0 && c1 <= c2
    requires IsRoundedPercent(c1, t, r1) && IsRoundedPercent(c2, t, r2)
    ensures r1 <= r2
  {
    assert 2 * t * r1 - t <= 200 * c1 <= 200 * c2 < 2 * t * r2 + t;
    assert (2 * t) * (r1 - r2) == 2 * t * r1 - 2 * t * r2;
    MulCancelLess(2 * t, r1 - r2, 1);
  }

  /** More completed tasks out of the same total never lower the rate. */
  lemma CompletionRateMonotone(s1: Stats, s2: Stats)
    requires s1.total == s2.total && s1.completed <= s2.completed
    ensures CompletionRate(s1) <= CompletionRate(s2)
  {
    if s1.total > 0 {
      RoundingOrder(s1.total, s1.completed, s2.completed, CompletionRate(s1), CompletionRate(s2));
    }
  }

  /** The five messages, from the lowest bracket to the highest. */
  datatype Message = PrimeiroPasso | NoCaminho | BomProgresso | QuaseLa | Parabens

  /** Each message has its own leading emoji, so no two messages share a text. */
  function MessageText(m: Message): (text: string)
    ensures |text| > 0
    ensures text[0] == '🎉' <==> m == Parabens
    ensures text[0] == '🔥' <==> m == QuaseLa
    ensures text[0] == '💪' <==> m == BomProgresso
    ensures text[0] == '🚀' <==> m == NoCaminho
    ensures text[0] == '⭐' <==> m == PrimeiroPasso
  {
    match m
    case Parabens => "🎉" + " Parabéns! Todas as tarefas concluídas!"
    case QuaseLa => "🔥" + " Quase lá! Você está arrasando!"
    case BomProgresso => "💪" + " Bom progresso! Continue assim!"
    case NoCaminho => "🚀" + " Você está no caminho certo!"
    case PrimeiroPasso => "⭐" + " Todo grande progresso começa com o primeiro passo!"
  }

  function Bracket(m: Message): nat {
    match m
    case PrimeiroPasso => 0
    case NoCaminho => 1
    case BomProgresso => 2
    case QuaseLa => 3
    case Parabens => 4
  }

  /** The thresholds, tested in the order 100, 80, 50, 25; the first that holds wins. */
  function MessageForRate(rate: int): (m: Message)
    ensures m == Parabens <==> rate == 100
    ensures m == QuaseLa <==> 80 <= rate && rate != 100
    ensures m == BomProgresso <==> 50 <= rate < 80
    ensures m == NoCaminho <==> 25 <= rate < 50
    ensures m == PrimeiroPasso <==> rate < 25
  {
    if rate == 100 then Parabens
    else if rate >= 80 then QuaseLa
    else if rate >= 50 then BomProgresso
    else if rate >= 25 then NoCaminho
    else PrimeiroPasso
  }

  /** Within 0..100 a higher rate never selects a lower bracket. */
  lemma MessageMonotone(r1: int, r2: int)
    requires r1 <= r2 <= 100
    ensures Bracket(MessageForRate(r1)) <= Bracket(MessageForRate(r2))
  {
  }

  /** `getMotivationalMessage`: no message without tasks. */
  function MotivationalMessage(stats: Stats): (m: Option<Message>)
    ensures m.None? <==> stats.total == 0
    ensures m.Some? ==> m.value == MessageForRate(CompletionRate(stats))
  {
    if stats.total == 0 then None else Some(MessageForRate(CompletionRate(stats)))
  }

  /** The progress card is rendered when there is at least one task. */
  predicate ShowsProgressCard(stats: Stats): (b: bool)
    ensures b <==> MotivationalMessage(stats).Some?
    ensures b ==> IsRoundedPercent(stats.completed, stats.total, CompletionRate(stats))
  {
    stats.total > 0
  }
}
