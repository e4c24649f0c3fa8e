/** The stress-test binary src/bin/mass-events.rs: ten thousand agents that run Collatz
    sequences through the runner's event rounds, and a game that counts the events it sees.
    Machine integers are taken as unbounded: the source's `u64` arithmetic never wraps in
    this model. */
module MassEvents {
  import opened Agents
  import opened Options
  import opened Game
  import opened Scheduling

  /** The number of agents, and the modulus that decides which agent answers an event. */
  const AGENTS: nat := 10000

  datatype TinyAgent = TinyAgent(factor: nat)

  /** The Collatz successor of `v`. */
  function Collatz(v: nat): (w: nat)
    ensures v % 2 == 0 ==> 2 * w == v
    ensures v % 2 == 1 ==> w == 3 * v + 1
  {
    if v % 2 == 0 then v / 2 else v * 3 + 1
  }

  /** Whether the agent with this factor answers event `v`: the sequence has not reached 1
      and `v` falls in the agent's residue class. */
  predicate Answers(factor: nat, v: nat) {
    v > 1 && v % AGENTS == factor % AGENTS
  }

  /** `TinyAgent::start`: queue the agent's own factor, the start of its sequence. */
  function TinyStart(a: TinyAgent): (st: Step<nat, TinyAgent>)
    ensures st.cf == Continue && st.agent == a
    ensures st.queued == [a.factor] && |st.spawned| == 0
  {
    Step(a, Continue, [a.factor], [])
  }

  /** `TinyAgent::react`: the agent whose residue class holds `v` queues the next element of
      the sequence; a finished sequence (`v <= 1`) and other agents' events are ignored. */
  function TinyReact(a: TinyAgent, v: nat): (st: Step<nat, TinyAgent>)
    ensures st.cf == Continue && st.agent == a && |st.spawned| == 0
    ensures v <= 1 ==> |st.queued| == 0
    ensures Answers(a.factor, v) ==> st.queued == [Collatz(v)]
    ensures !Answers(a.factor, v) ==> |st.queued| == 0
  {
    if v <= 1 then Step(a, Continue, [], [])
    else if v % AGENTS == a.factor % AGENTS then Step(a, Continue, [Collatz(v)], [])
    else Step(a, Continue, [], [])
  }

  function TinyBehaviour(): Behaviour<nat, TinyAgent> {
    Behaviour((a: TinyAgent) => TinyStart(a), (a: TinyAgent, v: nat) => TinyReact(a, v))
  }

  /** The agent among factors `1..=AGENTS` whose residue class holds `v`. */
  function Responder(v: nat): (f: nat)
    ensures 1 <= f <= AGENTS
  {
    if v % AGENTS == 0 then AGENTS else v % AGENTS
  }

  /** Each event above 1 is answered by exactly one of the agents `1..=AGENTS`, so every
      sequence runs as a single chain of events. */
  lemma ExactlyOneAnswers(v: nat)
    requires v > 1
    ensures (set f: nat | 1 <= f <= AGENTS && Answers(f, v)) == {Responder(v)}
  {
    var s := set f: nat | 1 <= f <= AGENTS && Answers(f, v);
    forall f: nat | 1 <= f <= AGENTS
      ensures Answers(f, v) <==> f == Responder(v)
    {
      if f < AGENTS {
        assert f % AGENTS == f;
      } else {
        assert f % AGENTS == 0;
      }
    }
    assert Responder(v) in s;
  }

  // ---------------------------------------------------------------------------------------
  // The game
  // ---------------------------------------------------------------------------------------

  /** `TinyGame`: events seen, the largest one, and sequences finished. */
  datatype TinyGame = TinyGame(count: nat, max: nat, complete: nat)

  /** `TinyGame::event`: count every non-zero event; a 1 ends a sequence, and the last
      sequence to end quits; a new maximum or every hundredth event asks for a redraw. */
  function TinyEvent(g: TinyGame, v: nat): (o: Observed<TinyGame>)
    ensures o.game.count == g.count + (if v != 0 then 1 else 0)
    ensures o.game.complete == g.complete + (if v == 1 then 1 else 0)
    ensures o.response.Quit? <==> v == 1 && o.game.complete == AGENTS
    ensures o.game.max >= g.max
    ensures v != 1 ==> o.game.max == (if v > g.max then v else g.max)
    ensures v == 1 ==> o.game.max == g.max
    ensures o.response.Nothing? <==> v != 1 && v <= g.max && o.game.count % (AGENTS / 100) != 0
  {
    var count := if v != 0 then g.count + 1 else g.count;
    if v == 1 then
      var complete := g.complete + 1;
      Observed(TinyGame(count, g.max, complete), if complete == AGENTS then Quit else Redraw)
    else if v > g.max then
      Observed(TinyGame(count, v, g.complete), Redraw)
    else
      Observed(TinyGame(count, g.max, g.complete), if count % (AGENTS / 100) == 0 then Redraw else Nothing)
  }

  /** `TinyGame::input`: ignores every action. */
  function TinyInput<I>(g: TinyGame, action: I): (gs: GameStep<TinyGame, nat, TinyAgent>)
    ensures gs.game == g && gs.response == Nothing && |gs.queued| == 0 && |gs.spawned| == 0
  {
    GameStep(g, Nothing, [], [])
  }

  function TinyHost<I>(): Host<TinyGame, nat, TinyAgent, I> {
    Host((g: TinyGame, a: I) => TinyInput(g, a), (g: TinyGame, v: nat) => TinyEvent(g, v))
  }

  // ---------------------------------------------------------------------------------------
  // Start-up and the first round
  // ---------------------------------------------------------------------------------------

  /** The agents with factors `1..=n`, in order. */
  function Factors(n: nat): (fs: seq<TinyAgent>)
    ensures |fs| == n
  {
    seq(n, i requires 0 <= i < n => TinyAgent(i + 1))
  }

  /** `main`'s start-up: a fresh game and one spawned agent per factor `1..=AGENTS`. */
  method Starter() returns (r: Runner<TinyGame, nat, TinyAgent>)
    ensures r.game == TinyGame(0, 0, 0) && |r.events| == 0
    ensures r.agents == Factors(AGENTS)
  {
    r := NewRunner(TinyGame(0, 0, 0));
    var factor := 1;
    while factor <= AGENTS
      invariant 1 <= factor <= AGENTS + 1
      invariant r.game == TinyGame(0, 0, 0) && |r.events| == 0
      invariant r.agents == Factors(factor - 1)
    {
      r := SpawnAtStartup(r, TinyAgent(factor));
      assert r.agents == Factors(factor);
      factor := factor + 1;
    }
  }

  /** The messages queued by a log of calls that each queued the next number. */
  lemma {:induction false} QueuedInCounts(trace: seq<Call<nat, TinyAgent>>, from: nat)
    requires forall j :: 0 <= j < |trace| ==> CallQueued(trace[j]) == [from + j]
    ensures |QueuedIn(trace)| == |trace|
    ensures forall i :: 0 <= i < |trace| ==> QueuedIn(trace)[i] == from + i
    decreases |trace|
  {
    if |trace| > 0 {
      QueuedInCounts(trace[1..], from + 1);
      assert QueuedIn(trace) == [from] + QueuedIn(trace[1..]);
    }
  }

  /** A log of calls none of which spawned anything spawned nothing. */
  lemma {:induction false} SpawnedInNothing(trace: seq<Call<nat, TinyAgent>>)
    requires forall j :: 0 <= j < |trace| ==> CallSpawned(trace[j]) == []
    ensures SpawnedIn(trace) == []
    decreases |trace|
  {
    if |trace| > 0 {
      SpawnedInNothing(trace[1..]);
    }
  }

  /** The loop state `run_game` starts from with `n` agents and no events. */
  function FirstLoop(n: nat): Loop<TinyGame, nat, TinyAgent> {
    StartLoop(Runner(TinyGame(0, 0, 0), [], Factors(n)))
  }

  /** With no input and no events, the first round's only calls are the admissions. */
  lemma FirstRoundStages<I>(n: nat, st: Stages<TinyGame, nat, TinyAgent>)
    requires st == StagesOf(TinyBehaviour(), TinyHost<I>(), FirstLoop(n), None)
    ensures !st.inp.quit && |st.inp.trace| == 0 && st.inp.game == TinyGame(0, 0, 0)
    ensures !st.d.quit && |st.d.trace| == 0 && st.d.agents == st.adm.agents && st.d.game == TinyGame(0, 0, 0)
    ensures |st.adm.trace| == n
    ensures forall j :: 0 <= j < n ==> CallQueued(st.adm.trace[j]) == [1 + j]
    ensures forall j :: 0 <= j < n ==> CallSpawned(st.adm.trace[j]) == []
    ensures |st.adm.agents| == n
    ensures forall j :: 0 <= j < n ==> st.adm.agents[j] == Entry(Continue, TinyAgent(j + 1))
  {
    var lp := FirstLoop(n);
    FirstAdmissions(n, lp.agents, lp.replies, st.adm);
  }

  /** Starting the agents with factors `1..=n` into an empty list. */
  lemma FirstAdmissions(n: nat, agents: seq<Entry<TinyAgent>>, r: Replies<nat, TinyAgent>,
                        adm: Admission<nat, TinyAgent>)
    requires |agents| == 0
    requires AdmitsAs(TinyBehaviour(), agents, Factors(n), r, adm)
    ensures |adm.trace| == n && |adm.agents| == n
    ensures forall j :: 0 <= j < n ==> CallQueued(adm.trace[j]) == [1 + j]
    ensures forall j :: 0 <= j < n ==> CallSpawned(adm.trace[j]) == []
    ensures forall j :: 0 <= j < n ==> adm.agents[j] == Entry(Continue, TinyAgent(j + 1))
  {
    var b := TinyBehaviour();
    var pending := Factors(n);
    forall j | 0 <= j < n
      ensures CallQueued(adm.trace[j]) == [1 + j] && CallSpawned(adm.trace[j]) == []
      ensures adm.agents[j] == Entry(Continue, TinyAgent(j + 1))
    {
      assert pending[j] == TinyAgent(j + 1);
      assert adm.trace[|agents| + j] == Started(|agents| + j, b.start(pending[j]));
      assert adm.agents[|agents| + j] == EntryOf(b.start(pending[j]));
    }
  }

  /** The first round's log is exactly the admissions, and the next round's events and
      admissions are what they queued and spawned. */
  lemma FirstRoundLog<I>(n: nat, res: RoundResult<TinyGame, nat, TinyAgent>)
    requires res == Round(TinyBehaviour(), TinyHost<I>(), FirstLoop(n), None, false)
    ensures |res.trace| == n
    ensures forall j :: 0 <= j < n ==> CallQueued(res.trace[j]) == [1 + j] && CallSpawned(res.trace[j]) == []
    ensures |res.dispatched| == n
    ensures forall j :: 0 <= j < n ==> res.dispatched[j] == Entry(Continue, TinyAgent(j + 1))
    ensures res.outcome.Continuing? && res.outcome.next.game == TinyGame(0, 0, 0)
    ensures res.outcome.next.events == QueuedIn(res.trace) && res.outcome.next.newAgents == SpawnedIn(res.trace)
  {
    var b, h, lp := TinyBehaviour(), TinyHost<I>(), FirstLoop(n);
    var st := StagesOf(b, h, lp, None);
    FirstRoundStages<I>(n, st);
    RoundStopsAt(b, h, lp, None, false, st, res);
    RoundContinues(b, h, lp, None, false, st, res);
    RoundTrace(b, h, lp, None, false, st, res);
    RoundSwapsBuffers(b, h, lp, None, false, res);
    FirstRoundFromStages(n, st, lp.replies, res);
  }

  /** The stage facts of the first round, put together. */
  lemma FirstRoundFromStages(n: nat, st: Stages<TinyGame, nat, TinyAgent>, r: Replies<nat, TinyAgent>,
                             res: RoundResult<TinyGame, nat, TinyAgent>)
    requires !st.inp.quit && |st.inp.trace| == 0
    requires !st.d.quit && |st.d.trace| == 0 && st.d.agents == st.adm.agents && st.d.game == TinyGame(0, 0, 0)
    requires |st.adm.trace| == n
    requires forall j :: 0 <= j < n ==> CallQueued(st.adm.trace[j]) == [1 + j]
    requires forall j :: 0 <= j < n ==> CallSpawned(st.adm.trace[j]) == []
    requires |st.adm.agents| == n
    requires forall j :: 0 <= j < n ==> st.adm.agents[j] == Entry(Continue, TinyAgent(j + 1))
    requires res.trace == st.adm.trace + st.inp.trace + Dispatched(st)
    requires res.outcome.Stopped? <==> st.inp.quit || st.d.quit
    requires res.outcome.Continuing? ==> res.outcome.next.game == st.d.game
    requires res.outcome.Continuing? ==> res.dispatched == st.d.agents
    requires r.messages == [] && r.agents == []
    requires res.outcome.Continuing? ==> res.outcome.next.events == r.messages + QueuedIn(res.trace)
    requires res.outcome.Continuing? ==> res.outcome.next.newAgents == r.agents + SpawnedIn(res.trace)
    ensures |res.trace| == n
    ensures forall j :: 0 <= j < n ==> CallQueued(res.trace[j]) == [1 + j] && CallSpawned(res.trace[j]) == []
    ensures |res.dispatched| == n
    ensures forall j :: 0 <= j < n ==> res.dispatched[j] == Entry(Continue, TinyAgent(j + 1))
    ensures res.outcome.Continuing? && res.outcome.next.game == TinyGame(0, 0, 0)
    ensures res.outcome.next.events == QueuedIn(res.trace) && res.outcome.next.newAgents == SpawnedIn(res.trace)
  {
    assert res.trace == st.adm.trace;
  }

  /** The first round after start-up: every agent is started once, in order, nobody reacts
      (there are no events yet), the game is untouched, and the next round's events are the
      factors `1..=n` in order. */
  lemma FirstRound<I>(n: nat, res: RoundResult<TinyGame, nat, TinyAgent>)
    requires res == Round(TinyBehaviour(), TinyHost<I>(), FirstLoop(n), None, false)
    ensures res.outcome.Continuing?
    ensures res.outcome.next.game == TinyGame(0, 0, 0)
    ensures |res.outcome.next.events| == n
    ensures forall i :: 0 <= i < n ==> res.outcome.next.events[i] == i + 1
    ensures |res.outcome.next.newAgents| == 0
    ensures forall i :: 0 <= i < n ==> res.dispatched[i] == Entry(Continue, TinyAgent(i + 1))
  {
    FirstRoundLog<I>(n, res);
    NextRoundCounts(n, res);
  }

  /** What a round whose log is the admissions of factors `1..=n` hands to the next round. */
  lemma NextRoundCounts(n: nat, res: RoundResult<TinyGame, nat, TinyAgent>)
    requires |res.trace| == n
    requires forall j :: 0 <= j < n ==> CallQueued(res.trace[j]) == [1 + j] && CallSpawned(res.trace[j]) == []
    requires res.outcome.Continuing?
    requires res.outcome.next.events == QueuedIn(res.trace) && res.outcome.next.newAgents == SpawnedIn(res.trace)
    ensures |res.outcome.next.events| == n
    ensures forall i :: 0 <= i < n ==> res.outcome.next.events[i] == i + 1
    ensures |res.outcome.next.newAgents| == 0
  {
    QueuedInCounts(res.trace, 1);
    SpawnedInNothing(res.trace);
  }
}
