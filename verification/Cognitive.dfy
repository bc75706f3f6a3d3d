/** The agent's loop and its context: internal/cognitive/engine.go and context.go. Planner,
    thinker, actor and reflector may return anything. */
module Cognitive {
  import opened Wrappers

  datatype Message = Message(role: string, content: string, toolCalls: seq<string>, toolCallID: string)

  datatype Plan = Plan(raw: string)

  datatype ActionKind = ToolCall | FinalAnswer | Other

  datatype Thought = Thought(content: string, action: Option<ActionKind>, toolCalls: seq<string>) {
    predicate IsFinalAnswer() {
      action.None? || action.value.FinalAnswer?
    }
  }

  datatype ToolOutput = ToolOutput(callID: string, output: string)

  datatype Signal = Continue | Retry | Replan | Stop

  datatype Reflection = Reflection(content: string, signal: Signal, newMemories: seq<string>)

  // ---- Costs ----

  /** One token for four characters, rounded down. */
  function TextCost(s: string): nat {
    |s| / 4
  }

  function MessageCost(m: Message): nat {
    TextCost(m.content)
  }

  function Total<T>(s: seq<T>, cost: T -> nat): nat {
    if s == [] then 0 else Total(s[..|s| - 1], cost) + cost(s[|s| - 1])
  }

  lemma {:induction false} TotalAppend<T>(a: seq<T>, b: seq<T>, cost: T -> nat)
    ensures Total(a + b, cost) == Total(a, cost) + Total(b, cost)
  {
    if b == [] {
      assert a + b == a;
    } else {
      assert (a + b)[..|a + b| - 1] == a + b[..|b| - 1];
      TotalAppend(a, b[..|b| - 1], cost);
    }
  }

  /** As many of the latest entries as fit, stopping at the first that does not. */
  function KeepLast<T>(s: seq<T>, cost: T -> nat, budget: int): seq<T> {
    if s == [] || cost(s[|s| - 1]) > budget then []
    else KeepLast(s[..|s| - 1], cost, budget - cost(s[|s| - 1])) + [s[|s| - 1]]
  }

  /** As many of the earliest entries as fit. */
  function KeepFirst<T>(s: seq<T>, cost: T -> nat, budget: int): seq<T> {
    if s == [] || cost(s[0]) > budget then [] else [s[0]] + KeepFirst(s[1..], cost, budget - cost(s[0]))
  }

  /** A suffix within the budget, and the longest one. */
  ghost predicate LongestSuffix<T>(k: seq<T>, s: seq<T>, cost: T -> nat, budget: int) {
    && |k| <= |s| && k == s[|s| - |k|..] && Total(k, cost) <= budget
    && (|k| < |s| ==> Total(s[|s| - |k| - 1..], cost) > budget)
  }

  ghost predicate LongestPrefix<T>(k: seq<T>, s: seq<T>, cost: T -> nat, budget: int) {
    && k <= s && Total(k, cost) <= budget
    && (|k| < |s| ==> Total(s[..|k| + 1], cost) > budget)
  }

  lemma LongestSuffixExtends<T>(k: seq<T>, s: seq<T>, last: T, cost: T -> nat, budget: int)
    requires LongestSuffix(k, s, cost, budget)
    ensures LongestSuffix(k + [last], s + [last], cost, budget + cost(last))
  {
    var t, l := s + [last], k + [last];
    TotalSnoc(k, last, cost);
    assert l == t[|t| - |l|..];
    if |k| < |s| {
      var longer := s[|s| - |k| - 1..];
      TotalSnoc(longer, last, cost);
      assert t[|t| - |l| - 1..] == longer + [last];
    }
  }

  lemma TotalSnoc<T>(s: seq<T>, last: T, cost: T -> nat)
    ensures Total(s + [last], cost) == Total(s, cost) + cost(last)
  {
    assert (s + [last])[..|s|] == s;
  }

  lemma NoSuffixFits<T>(s: seq<T>, cost: T -> nat, budget: int)
    requires budget >= 0 && (s != [] ==> cost(s[|s| - 1]) > budget)
    ensures LongestSuffix([], s, cost, budget)
  {
    if s != [] {
      assert s[|s| - 1..] == [s[|s| - 1]];
      TotalOne(s[|s| - 1], cost);
    }
  }

  lemma LongestFits<T>(k: seq<T>, s: seq<T>, cost: T -> nat, budget: int)
    ensures LongestSuffix(k, s, cost, budget) || LongestPrefix(k, s, cost, budget) ==> Total(k, cost) <= budget
  {
  }

  lemma {:induction false} KeepLastIsLongest<T>(s: seq<T>, cost: T -> nat, budget: int)
    requires budget >= 0
    ensures LongestSuffix(KeepLast(s, cost, budget), s, cost, budget) &&
            Total(KeepLast(s, cost, budget), cost) <= budget
    decreases |s|
  {
    hide LongestSuffix, Total;
    var k := KeepLast(s, cost, budget);
    if s == [] || cost(s[|s| - 1]) > budget {
      NoSuffixFits(s, cost, budget);
    } else {
      var m := |s| - 1;
      KeepLastIsLongest(s[..m], cost, budget - cost(s[m]));
      LongestSuffixExtends(KeepLast(s[..m], cost, budget - cost(s[m])), s[..m], s[m], cost, budget - cost(s[m]));
      assert s[..m] + [s[m]] == s;
    }
    LongestFits(k, s, cost, budget);
  }

  lemma {:induction false} KeepFirstIsLongest<T>(s: seq<T>, cost: T -> nat, budget: int)
    requires budget >= 0
    ensures LongestPrefix(KeepFirst(s, cost, budget), s, cost, budget) &&
            Total(KeepFirst(s, cost, budget), cost) <= budget
    decreases |s|
  {
    if s != [] {
      TotalOne(s[0], cost);
      if cost(s[0]) > budget {
        assert s[..1] == [s[0]];
      } else {
        var k := KeepFirst(s[1..], cost, budget - cost(s[0]));
        KeepFirstIsLongest(s[1..], cost, budget - cost(s[0]));
        TotalAppend([s[0]], k, cost);
        if |k| < |s| - 1 {
          assert s[..|k| + 2] == [s[0]] + s[1..][..|k| + 1];
          TotalAppend([s[0]], s[1..][..|k| + 1], cost);
        }
      }
    }
  }

  lemma TotalOne<T>(x: T, cost: T -> nat)
    ensures Total([x], cost) == cost(x)
  {
    assert [x][..0] == [];
  }

  /** What fits is kept whole. */
  lemma {:induction false} KeepLastAll<T>(s: seq<T>, cost: T -> nat, budget: int)
    requires Total(s, cost) <= budget
    ensures KeepLast(s, cost, budget) == s
    decreases |s|
  {
    if s != [] {
      var m := |s| - 1;
      assert Total(s, cost) == Total(s[..m], cost) + cost(s[m]);
      KeepLastAll(s[..m], cost, budget - cost(s[m]));
      assert KeepLast(s, cost, budget) == s[..m] + [s[m]];
    }
  }

  lemma {:induction false} KeepFirstAll<T>(s: seq<T>, cost: T -> nat, budget: int)
    requires Total(s, cost) <= budget
    ensures KeepFirst(s, cost, budget) == s
    decreases |s|
  {
    if s != [] {
      assert s == [s[0]] + s[1..];
      TotalAppend([s[0]], s[1..], cost);
      TotalOne(s[0], cost);
      KeepFirstAll(s[1..], cost, budget - cost(s[0]));
    }
  }

  // ---- The context ----

  datatype Context = Context(history: seq<Message>, memories: seq<string>, scratchpad: seq<string>, plan: Option<Plan>,
                             tokenBudget: int, tokenUsage: int)

  function PlanCost(c: Context): nat {
    if c.plan.Some? then TextCost(c.plan.value.raw) else 0
  }

  function ContextCost(c: Context): nat {
    PlanCost(c) + Total(c.scratchpad, TextCost) + Total(c.memories, TextCost) + Total(c.history, MessageCost)
  }

  function Pruned(c: Context): Context {
    if c.tokenBudget <= 0 then c
    else if PlanCost(c) > c.tokenBudget then
      c.(scratchpad := [], memories := [], history := [], tokenUsage := c.tokenBudget)
    else
      var scratchpad := KeepLast(c.scratchpad, TextCost, c.tokenBudget - PlanCost(c));
      var first := c.tokenBudget - PlanCost(c) - Total(scratchpad, TextCost);
      var memories := KeepFirst(c.memories, TextCost, first);
      var second := first - Total(memories, TextCost);
      var history := KeepLast(c.history, MessageCost, second);
      c.(scratchpad := scratchpad, memories := memories, history := history,
         tokenUsage := c.tokenBudget - (second - Total(history, MessageCost)))
  }

  /** For a positive budget the usage is the exact cost, and the cost is within the budget,
      exactly when the plan alone is. */
  lemma PrunedFits(c: Context)
    requires c.tokenBudget > 0
    ensures ContextCost(Pruned(c)) <= c.tokenBudget <==> PlanCost(c) <= c.tokenBudget
    ensures Pruned(c).tokenUsage == ContextCost(Pruned(c)) <==> PlanCost(c) <= c.tokenBudget
  {
    hide KeepLast, KeepFirst;
    if PlanCost(c) <= c.tokenBudget {
      PrunedIsGreedy(c);
    }
  }

  /** A plan of two tokens in a budget of one: the usage says one, the cost is two. */
  lemma PlanOverBudget()
    ensures var c := Context([], [], [], Some(Plan("12345678")), 1, 0);
      Pruned(c).tokenUsage == 1 && ContextCost(Pruned(c)) == 2
  {
    var c := Context([], [], [], Some(Plan("12345678")), 1, 0);
    assert |"12345678"| == 8 && PlanCost(c) == 2;
    PrunedFits(c);
  }

  /** The latest thoughts first, then the first memories, then the latest messages: each
      list keeps the most that the ones before it leave room for. */
  lemma PrunedIsGreedy(c: Context)
    requires 0 < c.tokenBudget && PlanCost(c) <= c.tokenBudget
    ensures var p := Pruned(c);
      var first := c.tokenBudget - PlanCost(c);
      var second := first - Total(p.scratchpad, TextCost);
      var third := second - Total(p.memories, TextCost);
      && LongestSuffix(p.scratchpad, c.scratchpad, TextCost, first)
      && LongestPrefix(p.memories, c.memories, TextCost, second)
      && LongestSuffix(p.history, c.history, MessageCost, third)
      && p.plan == c.plan && p.tokenBudget == c.tokenBudget
  {
    hide KeepLast, KeepFirst, LongestSuffix, LongestPrefix, Total, TextCost, MessageCost;
    var p, first := Pruned(c), c.tokenBudget - PlanCost(c);
    KeepLastIsLongest(c.scratchpad, TextCost, first);
    var second := first - Total(p.scratchpad, TextCost);
    KeepFirstIsLongest(c.memories, TextCost, second);
    KeepLastIsLongest(c.history, MessageCost, second - Total(p.memories, TextCost));
  }

  lemma PruneIsIdempotent(c: Context)
    ensures Pruned(Pruned(c)) == Pruned(c)
  {
    hide KeepLast, KeepFirst, Total, TextCost, MessageCost, LongestSuffix, LongestPrefix;
    if 0 < c.tokenBudget && PlanCost(c) <= c.tokenBudget {
      PrunedIsGreedy(c);
      var p, first := Pruned(c), c.tokenBudget - PlanCost(c);
      LongestFits(p.scratchpad, c.scratchpad, TextCost, first);
      KeepLastAll(p.scratchpad, TextCost, first);
      var second := first - Total(p.scratchpad, TextCost);
      LongestFits(p.memories, c.memories, TextCost, second);
      KeepFirstAll(p.memories, TextCost, second);
      LongestFits(p.history, c.history, MessageCost, second - Total(p.memories, TextCost));
      KeepLastAll(p.history, MessageCost, second - Total(p.memories, TextCost));
    }
  }

  /** The loops of `Prune`, from the back and from the front. */
  method KeepLatest<T>(s: seq<T>, cost: T -> nat, budget: int) returns (kept: seq<T>, remaining: int)
    ensures kept == KeepLast(s, cost, budget) && remaining == budget - Total(kept, cost)
  {
    kept, remaining := [], budget;
    var i := |s|;
    assert s[..i] == s;
    while i > 0
      invariant 0 <= i <= |s|
      invariant KeepLast(s, cost, budget) == KeepLast(s[..i], cost, remaining) + kept
      invariant remaining == budget - Total(kept, cost)
    {
      var entry := s[i - 1];
      assert s[..i][..i - 1] == s[..i - 1];
      if remaining < cost(entry) {
        return;
      }
      TotalAppend([entry], kept, cost);
      TotalOne(entry, cost);
      assert KeepLast(s[..i - 1], cost, remaining - cost(entry)) + [entry] + kept ==
             KeepLast(s[..i - 1], cost, remaining - cost(entry)) + ([entry] + kept);
      kept := [entry] + kept;
      remaining := remaining - cost(entry);
      i := i - 1;
    }
  }

  method KeepEarliest<T>(s: seq<T>, cost: T -> nat, budget: int) returns (kept: seq<T>, remaining: int)
    ensures kept == KeepFirst(s, cost, budget) && remaining == budget - Total(kept, cost)
  {
    kept, remaining := [], budget;
    var i := 0;
    while i < |s|
      invariant 0 <= i <= |s|
      invariant KeepFirst(s, cost, budget) == kept + KeepFirst(s[i..], cost, remaining)
      invariant remaining == budget - Total(kept, cost)
    {
      var entry := s[i];
      assert s[i..][0] == entry && s[i..][1..] == s[i + 1..];
      if remaining < cost(entry) {
        return;
      }
      TotalAppend(kept, [entry], cost);
      TotalOne(entry, cost);
      assert kept + ([entry] + KeepFirst(s[i + 1..], cost, remaining - cost(entry))) ==
             (kept + [entry]) + KeepFirst(s[i + 1..], cost, remaining - cost(entry));
      kept := kept + [entry];
      remaining := remaining - cost(entry);
      i := i + 1;
    }
  }

  class CognitiveContext {
    var history: seq<Message>
    var memories: seq<string>
    var scratchpad: seq<string>
    var currentPlan: Option<Plan>
    var tokenBudget: int
    var tokenUsage: int

    constructor (tokenBudget: int)
      ensures Value() == Context([], [], [], None, tokenBudget, 0)
    {
      history, memories, scratchpad, currentPlan, this.tokenBudget, tokenUsage := [], [], [], None, tokenBudget, 0;
    }

    ghost function Value(): Context
      reads this
    {
      Context(history, memories, scratchpad, currentPlan, tokenBudget, tokenUsage)
    }

    /** `Prune` */
    method Prune()
      modifies this
      ensures Value() == Pruned(old(Value()))
    {
      hide KeepLast, KeepFirst, TextCost, MessageCost, Total;
      if tokenBudget <= 0 {
        return;
      }
      var plan := if currentPlan.Some? then TextCost(currentPlan.value.raw) else 0;
      var remaining := tokenBudget - plan - Total(scratchpad, TextCost);
      if remaining < 0 {
        var budgetForScratchpad := tokenBudget - plan;
        if budgetForScratchpad < 0 {
          scratchpad, memories, history, tokenUsage := [], [], [], tokenBudget;
          return;
        }
        scratchpad, remaining := KeepLatest(scratchpad, TextCost, budgetForScratchpad);
      } else {
        KeepLastAll(scratchpad, TextCost, tokenBudget - plan);
      }
      memories, remaining := KeepEarliest(memories, TextCost, remaining);
      history, remaining := KeepLatest(history, MessageCost, remaining);
      tokenUsage := tokenBudget - remaining;
    }

    /** `Update` with a reflection */
    method Update(r: Reflection)
      modifies this
      ensures Value() == Updated(old(Value()), r)
    {
      if r.content != "" {
        scratchpad := scratchpad + [r.content];
      }
      if r.newMemories != [] {
        memories := memories + r.newMemories;
      } else {
        assert memories + r.newMemories == memories;
      }
      Prune();
    }
  }

  function Updated(c: Context, r: Reflection): Context {
    Pruned(c.(scratchpad := if r.content == "" then c.scratchpad else c.scratchpad + [r.content],
              memories := c.memories + r.newMemories))
  }

  // ---- The loop ----

  const MAX_RETRIES_PER_TURN := 3

  datatype Outcome =
    | Answered(content: string, turns: int)
    | StoppedByReflector(content: string, turns: int)
    | PlanningFailed | ThinkingFailed | ActionFailed | Cancelled | MaxTurnsReached

  /** How often the planner and the thinker were asked, how often the reflector asked for a
      retry, and every message ever appended. */
  datatype Trace = Trace(plans: nat, thoughts: nat, retries: nat, log: seq<Message>)

  ghost predicate SuffixOf<T>(s: seq<T>, t: seq<T>) {
    |s| <= |t| && s == t[|t| - |s|..]
  }

  lemma SuffixTransitive<T>(r: seq<T>, s: seq<T>, t: seq<T>)
    requires SuffixOf(r, s) && SuffixOf(s, t)
    ensures SuffixOf(r, t)
  {
  }

  lemma SuffixAppend<T>(s: seq<T>, t: seq<T>, x: seq<T>)
    requires SuffixOf(s, t)
    ensures SuffixOf(s + x, t + x)
  {
  }

  lemma PrunedHistory(c: Context)
    ensures SuffixOf(Pruned(c).history, c.history) && Pruned(c).tokenBudget == c.tokenBudget && Pruned(c).plan == c.plan
  {
    hide KeepLast, KeepFirst;
    if 0 < c.tokenBudget && PlanCost(c) <= c.tokenBudget {
      PrunedIsGreedy(c);
    }
  }

  /** The lists that pruning governs fit beside the plan that was current when they were pruned. */
  ghost predicate Fits(c: Context, planned: nat) {
    0 < c.tokenBudget && planned <= c.tokenBudget ==>
      planned + Total(c.scratchpad, TextCost) + Total(c.memories, TextCost) +
        Total(c.history, MessageCost) <= c.tokenBudget
  }

  lemma PrunedLeavesRoom(c: Context)
    ensures Fits(Pruned(c), PlanCost(c))
  {
    hide KeepLast, KeepFirst;
    if 0 < c.tokenBudget && PlanCost(c) <= c.tokenBudget {
      PrunedFits(c);
    }
  }

  // ---- One turn ----

  /** What the others answer in one turn: cancellation, thinker, actor, reflector, planner. */
  datatype Answers = Answers(cancelled: bool, thought: Option<Thought>, outputs: Option<seq<ToolOutput>>,
                             reflection: Option<Reflection>, newPlan: Option<Plan>)
  {
    predicate Thinks() {
      !cancelled && thought.Some?
    }

    predicate Acts() {
      Thinks() && !thought.value.IsFinalAnswer() && outputs.Some?
    }

    predicate Reflects() {
      Acts() && reflection.Some?
    }

    predicate Replans() {
      Reflects() && reflection.value.signal.Replan?
    }
  }

  function OutputMessages(outputs: seq<ToolOutput>): seq<Message> {
    seq(|outputs|, n requires 0 <= n < |outputs| => Message("tool", outputs[n].output, [], outputs[n].callID))
  }

  /** The messages that the turn appends: the thought, and the outputs of tools it called. */
  function Said(a: Answers): seq<Message> {
    if !a.Thinks() then []
    else
      var t := a.thought.value;
      var thought := [Message("assistant", t.content, if t.action == Some(ToolCall) then t.toolCalls else [], "")];
      if a.Acts() && a.thought.value.action == Some(ToolCall) then thought + OutputMessages(a.outputs.value)
      else thought
  }

  /** The context after the turn: the messages, a prune, the reflection with another prune,
      and at last a new plan, which is not pruned for. */
  function TurnContext(c: Context, a: Answers): Context {
    var said := c.(history := c.history + Said(a));
    if !a.Acts() then said
    else if !a.Reflects() then Pruned(said)
    else
      var updated := Updated(Pruned(said), a.reflection.value);
      if a.Replans() && a.newPlan.Some? then updated.(plan := a.newPlan) else updated
  }

  function TurnOutcome(i: int, a: Answers): Option<Outcome> {
    if a.cancelled then Some(Cancelled)
    else if a.thought.None? then Some(ThinkingFailed)
    else if a.thought.value.IsFinalAnswer() then Some(Answered(a.thought.value.content, i + 1))
    else if a.outputs.None? then Some(ActionFailed)
    else if a.Reflects() && a.reflection.value.signal.Stop? then
      Some(StoppedByReflector("Stopped by reflector: " + a.reflection.value.content, i + 1))
    else None
  }

  /** The next turn and its retry count: a retry stays in the turn, up to three times; a
      failed reflection moves on without resetting the count. */
  function NextTurn(i: int, retryCount: int, a: Answers): (int, int) {
    if !a.Reflects() then (i + 1, retryCount)
    else if a.reflection.value.signal.Retry? && retryCount < MAX_RETRIES_PER_TURN then (i, retryCount + 1)
    else (i + 1, 0)
  }

  /** How many thoughts and plans there can be at the head of the loop. */
  ghost predicate Bounded(maxTurns: int, i: int, retryCount: int, thoughts: int, plans: int) {
    && 0 <= i && (i == 0 || i <= maxTurns) && 0 <= retryCount <= MAX_RETRIES_PER_TURN
    && i <= thoughts <= 4 * i + retryCount && 1 <= plans <= 1 + i
    && (i >= maxTurns ==> thoughts <= 4 * i)
  }

  lemma BoundedStep(maxTurns: int, i: int, retryCount: int, thoughts: int, plans: int, a: Answers)
    requires Bounded(maxTurns, i, retryCount, thoughts, plans) && i < maxTurns
    ensures var (j, retries) := NextTurn(i, retryCount, a);
      TurnOutcome(i, a).None? ==>
        && Bounded(maxTurns, j, retries, thoughts + 1, plans + if a.Replans() then 1 else 0)
        && 4 * (maxTurns - j) - retries < 4 * (maxTurns - i) - retryCount
    ensures TurnOutcome(i, a).Some? ==> !a.Replans() && thoughts + 1 <= 4 * maxTurns && plans <= 1 + maxTurns
  {
  }

  lemma TurnKeepsSuffix(c: Context, a: Answers, log: seq<Message>)
    requires SuffixOf(c.history, log)
    ensures SuffixOf(TurnContext(c, a).history, log + Said(a))
  {
    hide Pruned, SuffixOf, Said;
    var said := c.(history := c.history + Said(a));
    SuffixAppend(c.history, log, Said(a));
    PrunedHistory(said);
    SuffixTransitive(Pruned(said).history, said.history, log + Said(a));
    if a.Reflects() {
      UpdateKeeps(Pruned(said), a.reflection.value, log + Said(a));
    }
  }

  /** After a turn that acted, what pruning governs fits beside the plan of that turn. */
  lemma TurnFits(c: Context, a: Answers)
    requires a.Acts()
    ensures Fits(TurnContext(c, a), PlanCost(c))
  {
    hide Pruned, SuffixOf, Said, Fits;
    var said := c.(history := c.history + Said(a));
    PrunedHistory(said);
    PrunedLeavesRoom(said);
    if a.Reflects() {
      assert SuffixOf(Pruned(said).history, Pruned(said).history) by { SuffixItself(Pruned(said).history); }
      UpdateKeeps(Pruned(said), a.reflection.value, Pruned(said).history);
      ReplanFits(Updated(Pruned(said), a.reflection.value), a.newPlan, PlanCost(c));
    }
  }

  lemma SuffixItself(s: seq<Message>)
    ensures SuffixOf(s, s)
  {
  }

  lemma UpdateKeeps(c: Context, r: Reflection, log: seq<Message>)
    requires SuffixOf(c.history, log)
    ensures SuffixOf(Updated(c, r).history, log) && Fits(Updated(c, r), PlanCost(c))
  {
    hide Pruned, Fits;
    var u :=
      c.(scratchpad := if r.content == "" then c.scratchpad else c.scratchpad + [r.content],
         memories := c.memories + r.newMemories);
    PrunedHistory(u);
    PrunedLeavesRoom(u);
    SuffixTransitive(Pruned(u).history, c.history, log);
  }

  lemma ReplanFits(c: Context, plan: Option<Plan>, planned: nat)
    ensures Fits(c.(plan := plan), planned) == Fits(c, planned)
  {
  }

  class Engine {
    const maxTurns: int
    const tokenBudget: int

    /** `NewEngine`, with the defaults of the configuration passed in. */
    constructor (maxTurns: int, tokenBudget: int, defaultMaxTurns: int, defaultTokenBudget: int)
      requires defaultMaxTurns > 0 && defaultTokenBudget > 0
      ensures this.maxTurns == (if maxTurns <= 0 then defaultMaxTurns else maxTurns) > 0
      ensures this.tokenBudget == (if tokenBudget <= 0 then defaultTokenBudget else tokenBudget) > 0
    {
      this.maxTurns := if maxTurns <= 0 then defaultMaxTurns else maxTurns;
      this.tokenBudget := if tokenBudget <= 0 then defaultTokenBudget else tokenBudget;
    }

    /** The loop that appends the outputs of tools. */
    method AppendOutputs(c: CognitiveContext, outputs: seq<ToolOutput>)
      modifies c
      ensures c.Value() == old(c.Value()).(history := old(c.history) + OutputMessages(outputs))
    {
      var n := 0;
      assert old(c.history) + OutputMessages(outputs[..0]) == old(c.history);
      while n < |outputs|
        invariant 0 <= n <= |outputs|
        invariant c.Value() == old(c.Value()).(history := old(c.history) + OutputMessages(outputs[..n]))
      {
        var m := Message("tool", outputs[n].output, [], outputs[n].callID);
        assert OutputMessages(outputs[..n + 1]) == OutputMessages(outputs[..n]) + [m];
        c.history := c.history + [m];
        n := n + 1;
      }
      assert outputs[..n] == outputs;
    }

    /** The body of the loop; `i` is the turn, and the new `i` the turn that comes next. */
    method Turn(c: CognitiveContext, i: int, retryCount: int, a: Answers)
      returns (done: Option<Outcome>, i': int, retryCount': int)
      modifies c
      ensures c.Value() == TurnContext(old(c.Value()), a)
      ensures done == TurnOutcome(i, a)
      ensures done.None? ==> (i', retryCount') == NextTurn(i, retryCount, a)
    {
      hide Pruned, Updated, OutputMessages;
      done, i', retryCount' := None, i, retryCount;
      if a.cancelled {
        assert c.history + [] == c.history;
        return Some(Cancelled), i', retryCount';
      }
      if a.thought.None? {
        assert c.history + [] == c.history;
        return Some(ThinkingFailed), i', retryCount';
      }
      var thought := a.thought.value;
      var message := Message("assistant", thought.content,
                             if thought.action == Some(ToolCall) then thought.toolCalls else [], "");
      c.history := c.history + [message];
      if thought.IsFinalAnswer() {
        return Some(Answered(thought.content, i + 1)), i', retryCount';
      }
      if a.outputs.None? {
        return Some(ActionFailed), i', retryCount';
      }
      if thought.action == Some(ToolCall) {
        AppendOutputs(c, a.outputs.value);
        assert c.history == old(c.history) + ([message] + OutputMessages(a.outputs.value));
      }
      c.Prune();
      i' := i + 1;
      if a.reflection.Some? {
        c.Update(a.reflection.value);
        match a.reflection.value.signal {
          case Retry =>
            if retryCount >= MAX_RETRIES_PER_TURN {
              retryCount' := 0;
            } else {
              retryCount' := retryCount + 1;
              i' := i;
            }
          case Replan =>
            retryCount' := 0;
            if a.newPlan.Some? {
              c.currentPlan := a.newPlan;
            }
          case Stop =>
            done := Some(StoppedByReflector("Stopped by reflector: " + a.reflection.value.content, i + 1));
          case Continue =>
            retryCount' := 0;
        }
      }
    }

    /** `Run`, whatever the others answer. Retries hold the turn counter back, yet the measure
        falls at every pass: there are at most four thoughts a turn, and one plan more than turns. */
    method Run(c: CognitiveContext) returns (outcome: Outcome, ghost trace: Trace)
      modifies c
      ensures maxTurns >= 0 ==> trace.thoughts <= 4 * maxTurns && 1 <= trace.plans <= 1 + maxTurns
      ensures SuffixOf(c.history, trace.log)
      ensures outcome.MaxTurnsReached? ==> trace.thoughts >= maxTurns
      ensures outcome.Answered? || outcome.StoppedByReflector? ==>
              1 <= outcome.turns <= maxTurns && outcome.turns <= trace.thoughts
      ensures (outcome.MaxTurnsReached? && maxTurns >= 0) || outcome.Answered? || outcome.StoppedByReflector? ==>
        var held := trace.thoughts - if outcome.MaxTurnsReached? then maxTurns else outcome.turns;
        held <= trace.retries && 3 * (trace.retries - held) <= held
      ensures outcome.PlanningFailed? ==> trace == Trace(1, 0, 0, old(c.history))
      ensures old(c.history) <= trace.log
    {
      hide AtHead, Logged, TurnOutcome, NextTurn, TurnContext, Answers.Acts, Answers.Replans;
      var plan: Option<Plan> :| true;
      trace := Trace(1, 0, 0, c.history);
      if plan.None? {
        return PlanningFailed, trace;
      }
      c.currentPlan := plan;
      var retryCount, i := 0, 0;
      ghost var planned: nat := 0;
      StartsAtHead(maxTurns, c.Value());
      while i < maxTurns
        invariant AtHead(maxTurns, c.Value(), i, retryCount, trace, planned) && old(c.history) <= trace.log
        decreases 4 * (maxTurns - i) - retryCount
      {
        var a: Answers :| true;
        HeadMeans(maxTurns, c.Value(), i, retryCount, trace, planned);
        HeadStep(maxTurns, c.Value(), i, retryCount, trace, planned, a);
        planned := PlanCost(c.Value());
        trace := Logged(trace, a);
        var done;
        done, i, retryCount := Turn(c, i, retryCount, a);
        if done.Some? {
          return done.value, trace;
        }
      }
      HeadMeans(maxTurns, c.Value(), i, retryCount, trace, planned);
      outcome := MaxTurnsReached;
    }
  }

  function Logged(trace: Trace, a: Answers): Trace {
    Trace(trace.plans + if a.Replans() then 1 else 0, trace.thoughts + if a.cancelled then 0 else 1,
          trace.retries + if a.Reflects() && a.reflection.value.signal.Retry? then 1 else 0,
          trace.log + Said(a))
  }

  /** Of the retries asked for, those that held the turn back are the thoughts beyond one a
      turn; one is refused after every third in a row. */
  ghost predicate RetriesAddUp(i: int, retryCount: int, thoughts: int, retries: int) {
    var held := thoughts - i;
    held <= retries && 3 * (retries - held) + retryCount <= held
  }

  lemma RetriesStep(i: int, retryCount: int, thoughts: int, retries: int, a: Answers)
    requires RetriesAddUp(i, retryCount, thoughts, retries) && 0 <= retryCount <= 3 && !a.cancelled
    ensures var (j, n) := NextTurn(i, retryCount, a);
      RetriesAddUp(j, n, thoughts + 1, retries + if a.Reflects() && a.reflection.value.signal.Retry? then 1 else 0)
  {
  }

  /** What holds at the head of the loop; `planned` is the cost of the plan that the lists
      were last pruned for. */
  ghost predicate AtHead(maxTurns: int, c: Context, i: int, retryCount: int, trace: Trace, planned: nat) {
    && Bounded(maxTurns, i, retryCount, trace.thoughts, trace.plans)
    && RetriesAddUp(i, retryCount, trace.thoughts, trace.retries)
    && SuffixOf(c.history, trace.log) && (trace.thoughts > 0 ==> Fits(c, planned))
  }

  lemma StartsAtHead(maxTurns: int, c: Context)
    ensures AtHead(maxTurns, c, 0, 0, Trace(1, 0, 0, c.history), 0)
  {
  }

  lemma HeadStep(maxTurns: int, c: Context, i: int, retryCount: int, trace: Trace, planned: nat, a: Answers)
    requires AtHead(maxTurns, c, i, retryCount, trace, planned) && i < maxTurns
    ensures var o, l := TurnOutcome(i, a), Logged(trace, a);
      var (j, retries) := NextTurn(i, retryCount, a);
      && SuffixOf(TurnContext(c, a).history, l.log) && trace.log <= l.log
      && (o.None? ==> AtHead(maxTurns, TurnContext(c, a), j, retries, l, PlanCost(c)) &&
                      4 * (maxTurns - j) - retries < 4 * (maxTurns - i) - retryCount)
      && (o.Some? ==> l.thoughts <= 4 * maxTurns && 1 <= l.plans <= 1 + maxTurns &&
                      !o.value.MaxTurnsReached? && !o.value.PlanningFailed?)
      && (o.Some? && (o.value.Answered? || o.value.StoppedByReflector?) ==>
            o.value.turns == i + 1 <= l.thoughts && RetriesAddUp(i + 1, 0, l.thoughts, l.retries))
  {
    hide SuffixOf, Fits, TurnContext, Said, PlanCost, NextTurn, Bounded, TurnOutcome, Answers.Acts, Answers.Replans;
    BoundedMeans(maxTurns, i, retryCount, trace.thoughts, trace.plans);
    BoundedStep(maxTurns, i, retryCount, trace.thoughts, trace.plans, a);
    OutcomeShape(i, a);
    if !a.cancelled {
      RetriesStep(i, retryCount, trace.thoughts, trace.retries, a);
    }
    TurnKeepsSuffix(c, a, trace.log);
    if a.Acts() {
      TurnFits(c, a);
    }
  }

  lemma HeadMeans(maxTurns: int, c: Context, i: int, retryCount: int, trace: Trace, planned: nat)
    requires AtHead(maxTurns, c, i, retryCount, trace, planned)
    ensures 0 <= i <= trace.thoughts && 0 <= retryCount <= 3 && SuffixOf(c.history, trace.log)
    ensures RetriesAddUp(i, retryCount, trace.thoughts, trace.retries)
    ensures 1 <= trace.plans <= 1 + i && (i == 0 || i <= maxTurns) && (i >= maxTurns ==> trace.thoughts <= 4 * i)
  {
  }

  lemma OutcomeShape(i: int, a: Answers)
    ensures var o := TurnOutcome(i, a);
      && (o.None? ==> a.Acts() && !a.cancelled)
      && (o.Some? ==> !o.value.MaxTurnsReached? && !o.value.PlanningFailed?)
      && (o.Some? && (o.value.Answered? || o.value.StoppedByReflector?) ==>
            o.value.turns == i + 1 && !a.cancelled && (a.Reflects() ==> !a.reflection.value.signal.Retry?))
  {
  }

  lemma BoundedMeans(maxTurns: int, i: int, retryCount: int, thoughts: int, plans: int)
    requires Bounded(maxTurns, i, retryCount, thoughts, plans)
    ensures 0 <= i <= thoughts && 1 <= plans <= 1 + i && thoughts <= 4 * i + 3 && 0 <= retryCount <= 3
    ensures i == 0 || i <= maxTurns
    ensures i >= maxTurns ==> thoughts <= 4 * i
  {
  }

  // ---- The same, case by case ----

  /** Four characters cost one token. */
  lemma TextCostMeans(s: string)
    ensures 4 * TextCost(s) <= |s| < 4 * TextCost(s) + 4
  {
  }

  /** Without a budget nothing is pruned, and a plan over the budget leaves room for nothing. */
  lemma PrunedOtherwise(c: Context)
    ensures c.tokenBudget <= 0 ==> Pruned(c) == c
    ensures 0 < c.tokenBudget < PlanCost(c) ==>
      Pruned(c) == Context([], [], [], c.plan, c.tokenBudget, c.tokenBudget)
  {
    hide KeepLast, KeepFirst;
  }

  /** A thought is appended first, with the tool calls it makes; the outputs of these calls
      follow, one for each, in order. */
  lemma SaidMeans(a: Answers)
    ensures a.cancelled || a.thought.None? ==> Said(a) == []
    ensures !a.cancelled && a.thought.Some? ==>
      var t, calls := a.thought.value, a.thought.value.action == Some(ToolCall);
      && |Said(a)| == 1 + (if calls && a.outputs.Some? then |a.outputs.value| else 0)
      && Said(a)[0] == Message("assistant", t.content, if calls then t.toolCalls else [], "")
      && (calls && a.outputs.Some? ==> forall n :: 0 <= n < |a.outputs.value| ==>
            Said(a)[1 + n] == Message("tool", a.outputs.value[n].output, [], a.outputs.value[n].callID))
  {
  }

  /** What becomes of a turn: an answer ends it at once, a tool call and what follows do not
      unless the reflector says stop; a retry stays in the turn three times in a row. */
  lemma TurnMeans(i: int, retryCount: int, a: Answers)
    ensures var o := TurnOutcome(i, a);
      && (o == Some(Cancelled) <==> a.cancelled)
      && (o == Some(ThinkingFailed) <==> !a.cancelled && a.thought.None?)
      && (!a.cancelled && a.thought.Some? ==>
            var t := a.thought.value;
            if t.action.None? || t.action == Some(FinalAnswer) then o == Some(Answered(t.content, i + 1))
            else if a.outputs.None? then o == Some(ActionFailed)
            else if a.reflection.Some? && a.reflection.value.signal == Stop then
              o == Some(StoppedByReflector("Stopped by reflector: " + a.reflection.value.content, i + 1))
            else o == None)
    ensures TurnOutcome(i, a).None? ==>
      NextTurn(i, retryCount, a) ==
        if a.reflection.None? then (i + 1, retryCount)
        else if a.reflection.value.signal == Retry && retryCount < 3 then (i, retryCount + 1)
        else (i + 1, 0)
  {
  }

  /** The context after a turn that neither ended nor failed. */
  lemma TurnContextMeans(c: Context, a: Answers)
    requires !a.cancelled && a.thought.Some? && a.outputs.Some?
    requires a.thought.value.action.Some? && a.thought.value.action != Some(FinalAnswer)
    ensures var acted := Pruned(c.(history := c.history + Said(a)));
      TurnContext(c, a) ==
        if a.reflection.None? then acted
        else
          var r := a.reflection.value;
          var updated := Pruned(acted.(scratchpad := acted.scratchpad + if r.content == "" then [] else [r.content],
                                       memories := acted.memories + r.newMemories));
          if r.signal == Replan && a.newPlan.Some? then updated.(plan := a.newPlan) else updated
  {
    hide Pruned, Said;
    assert forall s: seq<string> {:trigger s + []} :: s + [] == s;
  }
}
