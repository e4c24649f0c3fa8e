/** The round scheduler of src/game.rs: the reply buffer agents write into, the runner
    builder, and one round of `Runner::run_game`'s main loop as a pure function.

    Drawing, the screen and the backend are not modelled: a round is told whether the
    screen was resized and which input, if any, arrived during its bounded wait. */
module Game {
  import opened Agents
  import opened Options

  // ---------------------------------------------------------------------------------------
  // Replies
  // ---------------------------------------------------------------------------------------

  /** `Replies`: the agents requested for spawning and the messages queued this round. */
  datatype Replies<M, S> = Replies(agents: seq<S>, messages: seq<M>)

  function SpawnLen<M, S>(r: Replies<M, S>): nat {
    |r.agents|
  }

  function QueueLen<M, S>(r: Replies<M, S>): nat {
    |r.messages|
  }

  /** `Replies::default()`. */
  function EmptyReplies<M, S>(): (r: Replies<M, S>)
    ensures SpawnLen(r) == 0 && QueueLen(r) == 0
  {
    Replies([], [])
  }

  /** `spawn` and `spawn_boxed` (boxing is invisible here): one more agent, messages untouched. */
  function Spawn<M, S>(r: Replies<M, S>, agent: S): (r': Replies<M, S>)
    ensures r'.messages == r.messages
    ensures SpawnLen(r') == SpawnLen(r) + 1
    ensures r'.agents[..SpawnLen(r)] == r.agents && r'.agents[SpawnLen(r)] == agent
  {
    Replies(r.agents + [agent], r.messages)
  }

  /** `queue`: one more message at the end, spawns untouched. */
  function Queue<M, S>(r: Replies<M, S>, msg: M): (r': Replies<M, S>)
    ensures r'.agents == r.agents
    ensures QueueLen(r') == QueueLen(r) + 1
    ensures r'.messages[..QueueLen(r)] == r.messages && r'.messages[QueueLen(r)] == msg
  {
    Replies(r.agents, r.messages + [msg])
  }

  /** `queue_all`: `extend` pushes the messages one at a time. */
  function QueueAll<M, S>(r: Replies<M, S>, msgs: seq<M>): (r': Replies<M, S>)
    decreases |msgs|
    ensures r'.agents == r.agents
    ensures r'.messages == r.messages + msgs
    ensures QueueLen(r') == QueueLen(r) + |msgs|
  {
    if |msgs| == 0 then r
    else
      assert msgs == [msgs[0]] + msgs[1..];
      QueueAll(Queue(r, msgs[0]), msgs[1..])
  }

  /** A sequence of `spawn` calls, in order. */
  function SpawnAll<M, S>(r: Replies<M, S>, agents: seq<S>): (r': Replies<M, S>)
    decreases |agents|
    ensures r'.messages == r.messages
    ensures r'.agents == r.agents + agents
  {
    if |agents| == 0 then r
    else
      assert agents == [agents[0]] + agents[1..];
      SpawnAll(Spawn(r, agents[0]), agents[1..])
  }

  /** The effect of a call that queued `queued` and spawned `spawned`. */
  function Append<M, S>(r: Replies<M, S>, queued: seq<M>, spawned: seq<S>): (r': Replies<M, S>)
    ensures r'.messages == r.messages + queued && r'.agents == r.agents + spawned
  {
    SpawnAll(QueueAll(r, queued), spawned)
  }

  // ---------------------------------------------------------------------------------------
  // The host boundary
  // ---------------------------------------------------------------------------------------

  /** `Response`: what a `Game` asks of the engine. */
  datatype Response = Nothing | Redraw | Quit

  /** What `Game::input` did: the game afterwards, its response and its replies. */
  datatype GameStep<G, M, S> = GameStep(game: G, response: Response, queued: seq<M>, spawned: seq<S>)

  /** What `Game::event` did: the game afterwards and its response. It cannot reply. */
  datatype Observed<G> = Observed(game: G, response: Response)

  /** One `Game`: its `input` and `event` callbacks as pure functions. */
  datatype Host<!G, !M, !S, !I> = Host(input: (G, I) -> GameStep<G, M, S>, event: (G, M) -> Observed<G>)

  /** The input the bounded wait produced: the window closed, a redraw request, or another action. */
  datatype Input<I> = Closed | RedrawRequest | Act(action: I)

  // ---------------------------------------------------------------------------------------
  // The runner builder
  // ---------------------------------------------------------------------------------------

  /** `Runner`: the game with its start-up events and start-up agents. */
  datatype Runner<G, M, S> = Runner(game: G, events: seq<M>, agents: seq<S>)

  /** `Runner::new`: nothing queued and nothing spawned yet. */
  function NewRunner<G, M, S>(game: G): (r: Runner<G, M, S>)
    ensures r.game == game && |r.events| == 0 && |r.agents| == 0
  {
    Runner(game, [], [])
  }

  /** `Runner::spawn`: one more start-up agent at the end. */
  function SpawnAtStartup<G, M, S>(r: Runner<G, M, S>, agent: S): (r': Runner<G, M, S>)
    ensures r'.game == r.game && r'.events == r.events
    ensures |r'.agents| == |r.agents| + 1
    ensures r'.agents[..|r.agents|] == r.agents && r'.agents[|r.agents|] == agent
  {
    r.(agents := r.agents + [agent])
  }

  /** `Runner::queue`: one more first-round event at the end. */
  function QueueAtStartup<G, M, S>(r: Runner<G, M, S>, event: M): (r': Runner<G, M, S>)
    ensures r'.game == r.game && r'.agents == r.agents
    ensures |r'.events| == |r.events| + 1
    ensures r'.events[..|r.events|] == r.events && r'.events[|r.events|] == event
  {
    r.(events := r.events + [event])
  }

  // ---------------------------------------------------------------------------------------
  // The main loop's state and the log of calls a round makes
  // ---------------------------------------------------------------------------------------

  /** One live agent with the control flow it last returned. */
  datatype Entry<S> = Entry(cf: ControlFlow, agent: S)

  /** The locals of `run_game` at the top of the main loop. */
  datatype Loop<G, M, S> = Loop(
    game: G,
    events: seq<M>,
    newAgents: seq<S>,
    agents: seq<Entry<S>>,
    replies: Replies<M, S>,
    tainted: bool)

  /** The state `run_game` enters its loop with. */
  function StartLoop<G, M, S>(r: Runner<G, M, S>): (lp: Loop<G, M, S>)
    ensures lp.game == r.game && lp.events == r.events && lp.newAgents == r.agents
    ensures |lp.agents| == 0 && lp.replies == EmptyReplies() && lp.tainted
  {
    Loop(r.game, r.events, r.agents, [], EmptyReplies(), true)
  }

  /** One callback the round made. Agents are numbered by their position in the live list
      after admission, events by their position in the round's event list. */
  datatype Call<M, S> =
    | Started(agent: nat, step: Step<M, S>)
    | Reacted(agent: nat, event: nat, step: Step<M, S>)
    | HostInput(queued: seq<M>, spawned: seq<S>)

  function CallQueued<M, S>(c: Call<M, S>): seq<M> {
    match c
    case Started(_, st) => st.queued
    case Reacted(_, _, st) => st.queued
    case HostInput(q, _) => q
  }

  function CallSpawned<M, S>(c: Call<M, S>): seq<S> {
    match c
    case Started(_, st) => st.spawned
    case Reacted(_, _, st) => st.spawned
    case HostInput(_, s) => s
  }

  /** Everything the logged calls queued, in call order. */
  function QueuedIn<M, S>(trace: seq<Call<M, S>>): seq<M>
    decreases |trace|
  {
    if |trace| == 0 then [] else CallQueued(trace[0]) + QueuedIn(trace[1..])
  }

  /** Everything the logged calls spawned, in call order. */
  function SpawnedIn<M, S>(trace: seq<Call<M, S>>): seq<S>
    decreases |trace|
  {
    if |trace| == 0 then [] else CallSpawned(trace[0]) + SpawnedIn(trace[1..])
  }

  /** `r1` is `r0` after exactly the appends the calls in `trace` made. */
  ghost predicate Extends<M, S>(r0: Replies<M, S>, r1: Replies<M, S>, trace: seq<Call<M, S>>) {
    r1.messages == r0.messages + QueuedIn(trace) && r1.agents == r0.agents + SpawnedIn(trace)
  }

  lemma {:induction false} QueuedInAppend<M, S>(a: seq<Call<M, S>>, b: seq<Call<M, S>>)
    ensures QueuedIn(a + b) == QueuedIn(a) + QueuedIn(b)
    ensures SpawnedIn(a + b) == SpawnedIn(a) + SpawnedIn(b)
    decreases |a|
  {
    if |a| == 0 {
      assert a + b == b;
    } else {
      assert (a + b)[0] == a[0];
      assert (a + b)[1..] == a[1..] + b;
      QueuedInAppend(a[1..], b);
    }
  }

  /** Appending the effects of two logs in turn is appending the effect of the joined log. */
  lemma ExtendsChain<M, S>(r0: Replies<M, S>, r1: Replies<M, S>, r2: Replies<M, S>,
                           t1: seq<Call<M, S>>, t2: seq<Call<M, S>>)
    requires Extends(r0, r1, t1) && Extends(r1, r2, t2)
    ensures Extends(r0, r2, t1 + t2)
  {
    QueuedInAppend(t1, t2);
    AppendAssoc(r0.messages, QueuedIn(t1), QueuedIn(t2), r1.messages, r2.messages);
    AppendAssoc(r0.agents, SpawnedIn(t1), SpawnedIn(t2), r1.agents, r2.agents);
  }

  lemma AppendAssoc<T>(x: seq<T>, a: seq<T>, b: seq<T>, xa: seq<T>, xab: seq<T>)
    requires xa == x + a && xab == xa + b
    ensures xab == x + (a + b)
  {
  }

  /** Appending a call's effect in front of a log's effect. */
  lemma ExtendsCons<M, S>(r0: Replies<M, S>, r2: Replies<M, S>, c: Call<M, S>, t: seq<Call<M, S>>)
    requires Extends(Append(r0, CallQueued(c), CallSpawned(c)), r2, t)
    ensures Extends(r0, r2, [c] + t)
  {
    assert ([c] + t)[0] == c;
    assert ([c] + t)[1..] == t;
  }

  // ---------------------------------------------------------------------------------------
  // Admission
  // ---------------------------------------------------------------------------------------

  /** The live entry an agent gets from the step it just took. */
  function EntryOf<M, S>(st: Step<M, S>): Entry<S> {
    Entry(st.cf, st.agent)
  }

  datatype Admission<M, S> = Admission(agents: seq<Entry<S>>, replies: Replies<M, S>, trace: seq<Call<M, S>>)

  /** `a` is the admission of `pending` into `agents`: each pending agent started once, in
      order, joining the end of the live list with the control flow `start` returned, and the
      buffer grown by exactly what the starts appended. */
  ghost predicate AdmitsAs<M, S>(b: Behaviour<M, S>, agents: seq<Entry<S>>, pending: seq<S>, r: Replies<M, S>,
                                 a: Admission<M, S>) {
    && |a.agents| == |agents| + |pending|
    && a.agents[..|agents|] == agents
    && |a.trace| == |pending|
    && (forall j :: 0 <= j < |pending| ==>
          a.trace[j] == Started(|agents| + j, b.start(pending[j]))
          && a.agents[|agents| + j] == EntryOf(b.start(pending[j])))
    && Extends(r, a.replies, a.trace)
  }

  /** Top of the loop: each pending agent is started, in order, and joins the live list with
      the control flow `start` returned. */
  function Admit<M, S>(b: Behaviour<M, S>, agents: seq<Entry<S>>, pending: seq<S>, r: Replies<M, S>): (a: Admission<M, S>)
    decreases |pending|
    ensures AdmitsAs(b, agents, pending, r, a)
  {
    if |pending| == 0 then Admission(agents, r, [])
    else
      var st := b.start(pending[0]);
      var rest := Admit(b, agents + [EntryOf(st)], pending[1..], Append(r, st.queued, st.spawned));
      var a := Admission(rest.agents, rest.replies, [Started(|agents|, st)] + rest.trace);
      AdmitCons(b, agents, pending, r, rest, a);
      a
  }

  /** Admitting the first pending agent, then the rest. */
  lemma AdmitCons<M, S>(b: Behaviour<M, S>, agents: seq<Entry<S>>, pending: seq<S>, r: Replies<M, S>,
                        rest: Admission<M, S>, a: Admission<M, S>)
    requires |pending| > 0
    requires var st := b.start(pending[0]);
      && AdmitsAs(b, agents + [EntryOf(st)], pending[1..], Append(r, st.queued, st.spawned), rest)
      && a == Admission(rest.agents, rest.replies, [Started(|agents|, st)] + rest.trace)
    ensures AdmitsAs(b, agents, pending, r, a)
  {
    var st := b.start(pending[0]);
    var agents' := agents + [EntryOf(st)];
    ExtendsCons(r, rest.replies, Started(|agents|, st), rest.trace);
    assert a.agents[..|agents|] == agents by {
      assert a.agents[..|agents|] == a.agents[..|agents'|][..|agents|];
    }
    forall j | 0 <= j < |pending|
      ensures a.trace[j] == Started(|agents| + j, b.start(pending[j]))
      ensures a.agents[|agents| + j] == EntryOf(b.start(pending[j]))
    {
      if j == 0 {
        assert a.agents[|agents|] == a.agents[..|agents'|][|agents|];
      } else {
        assert pending[1..][j - 1] == pending[j];
        assert a.trace[j] == rest.trace[j - 1];
      }
    }
  }

  // ---------------------------------------------------------------------------------------
  // Dispatch
  // ---------------------------------------------------------------------------------------

  /** An agent's entry after one event: a ready agent reacts and takes the control flow it
      returns; an agent that is not ready is left alone. */
  function AfterReact<M, S>(b: Behaviour<M, S>, e: Entry<S>, ev: M): Entry<S> {
    if IsReady(e.cf) then EntryOf(b.react(e.agent, ev)) else e
  }

  datatype Reaction<M, S> = Reaction(agents: seq<Entry<S>>, replies: Replies<M, S>, trace: seq<Call<M, S>>)

  /** The inner loop over `&mut agents` for event number `k`; `base` numbers the first entry. */
  function ReactAll<M, S>(b: Behaviour<M, S>, agents: seq<Entry<S>>, ev: M, k: nat, base: nat,
                          r: Replies<M, S>): (d: Reaction<M, S>)
    decreases |agents|
    ensures |d.agents| == |agents|
    ensures forall i :: 0 <= i < |agents| ==> d.agents[i] == AfterReact(b, agents[i], ev)
    ensures Extends(r, d.replies, d.trace)
  {
    if |agents| == 0 then Reaction([], r, [])
    else
      var e := agents[0];
      if IsReady(e.cf) then
        var st := b.react(e.agent, ev);
        var rest := ReactAll(b, agents[1..], ev, k, base + 1, Append(r, st.queued, st.spawned));
        ExtendsCons(r, rest.replies, Reacted(base, k, st), rest.trace);
        Reaction([EntryOf(st)] + rest.agents, rest.replies, [Reacted(base, k, st)] + rest.trace)
      else
        var rest := ReactAll(b, agents[1..], ev, k, base + 1, r);
        Reaction([e] + rest.agents, rest.replies, rest.trace)
  }

  datatype Dispatch<G, M, S> = Dispatch(
    quit: bool,
    processed: nat,
    game: G,
    agents: seq<Entry<S>>,
    replies: Replies<M, S>,
    trace: seq<Call<M, S>>,
    redraw: bool)

  /** The loop over this round's events from number `k` on: the game observes the event
      first, a `Quit` ends the main loop there, otherwise every ready agent reacts to it.
      `processed` is the number of events the agents were given. */
  function DispatchAll<G, M, S, I>(b: Behaviour<M, S>, h: Host<G, M, S, I>, events: seq<M>, k: nat,
                                   game: G, agents: seq<Entry<S>>, r: Replies<M, S>): (d: Dispatch<G, M, S>)
    requires k <= |events|
    decreases |events| - k
    ensures |d.agents| == |agents|
    ensures Extends(r, d.replies, d.trace)
    ensures k <= d.processed <= |events|
    ensures d.quit ==> d.processed < |events|
    ensures !d.quit ==> d.processed == |events|
  {
    if k == |events| then Dispatch(false, k, game, agents, r, [], false)
    else
      var obs := h.event(game, events[k]);
      if obs.response.Quit? then Dispatch(true, k, obs.game, agents, r, [], false)
      else
        var re := ReactAll(b, agents, events[k], k, 0, r);
        var rest := DispatchAll(b, h, events, k + 1, obs.game, re.agents, re.replies);
        ExtendsChain(r, re.replies, rest.replies, re.trace, rest.trace);
        rest.(trace := re.trace + rest.trace, redraw := obs.response.Redraw? || rest.redraw)
  }

  // ---------------------------------------------------------------------------------------
  // Input, sweep and the whole round
  // ---------------------------------------------------------------------------------------

  datatype Inputted<G, M, S> = Inputted(quit: bool, game: G, replies: Replies<M, S>, trace: seq<Call<M, S>>, redraw: bool)

  /** The input step: `Closed` leaves the loop, a redraw request taints the screen, any other
      action goes to `Game::input`, which may reply, ask for a redraw or quit. */
  function HandleInput<G, M, S, I>(h: Host<G, M, S, I>, game: G, input: Option<Input<I>>,
                                   r: Replies<M, S>): (x: Inputted<G, M, S>)
    ensures Extends(r, x.replies, x.trace)
    ensures x.quit <==> input == Some(Closed) || (input.Some? && input.value.Act? && h.input(game, input.value.action).response.Quit?)
    ensures |x.trace| <= 1 && forall t :: 0 <= t < |x.trace| ==> x.trace[t].HostInput?
  {
    match input
    case None => Inputted(false, game, r, [], false)
    case Some(Closed) => Inputted(true, game, r, [], false)
    case Some(RedrawRequest) => Inputted(false, game, r, [], true)
    case Some(Act(a)) =>
      var gs := h.input(game, a);
      var c := HostInput(gs.queued, gs.spawned);
      ExtendsCons(r, Append(r, gs.queued, gs.spawned), c, []);
      Inputted(gs.response.Quit?, gs.game, Append(r, gs.queued, gs.spawned), [c], gs.response.Redraw?)
  }

  /** What the input step appends: an action's call to `Game::input` is the only entry it
      logs, and that call's queued messages and spawns are exactly what reaches the buffer;
      any other input logs nothing and leaves buffer and game alone. */
  lemma HandleInputCases<G, M, S, I>(h: Host<G, M, S, I>, game: G, input: Option<Input<I>>, r: Replies<M, S>)
    ensures var x := HandleInput(h, game, input, r);
      input.Some? && input.value.Act? ==>
        var gs := h.input(game, input.value.action);
        && x.trace == [HostInput(gs.queued, gs.spawned)]
        && x.replies.messages == r.messages + gs.queued && x.replies.agents == r.agents + gs.spawned
        && x.game == gs.game && (x.redraw <==> gs.response.Redraw?)
    ensures var x := HandleInput(h, game, input, r);
      !(input.Some? && input.value.Act?) ==>
        x.trace == [] && x.replies == r && x.game == game && (x.redraw <==> input == Some(RedrawRequest))
  {
  }

  /** The sweep's test: `Kill` never wakes, and a handle whose only reference is the agent's
      own can never be woken. */
  predicate Keep(cf: ControlFlow) {
    match cf
    case Kill => false
    case Handle(_, references) => references > 1
    case Continue => true
  }

  /** The sweep: the entries that pass `Keep`. `retain_unstable` may reorder them; this model
      keeps their order, which is one of the orders it may produce. */
  function Sweep<S>(agents: seq<Entry<S>>): (kept: seq<Entry<S>>)
    decreases |agents|
    ensures |kept| <= |agents|
    ensures forall i :: 0 <= i < |kept| ==> Keep(kept[i].cf) && kept[i] in agents
    ensures forall i :: 0 <= i < |agents| ==>
              multiset(kept)[agents[i]] == if Keep(agents[i].cf) then multiset(agents)[agents[i]] else 0
  {
    if |agents| == 0 then []
    else
      assert agents == [agents[0]] + agents[1..];
      (if Keep(agents[0].cf) then [agents[0]] else []) + Sweep(agents[1..])
  }

  datatype Outcome<G, M, S> = Stopped(game: G) | Continuing(next: Loop<G, M, S>)

  /** What a round did: how it ended, the calls it made, whether it drew the screen, and the
      live list as dispatch left it (before the sweep). */
  datatype RoundResult<G, M, S> = RoundResult(
    outcome: Outcome<G, M, S>,
    trace: seq<Call<M, S>>,
    drew: bool,
    dispatched: seq<Entry<S>>)

  /** One iteration of `run_game`'s main loop. */
  function Round<G, M, S, I>(b: Behaviour<M, S>, h: Host<G, M, S, I>, lp: Loop<G, M, S>,
                             input: Option<Input<I>>, resized: bool): (res: RoundResult<G, M, S>)
    ensures res.drew <==> lp.tainted || resized
  {
    var adm := Admit(b, lp.agents, lp.newAgents, lp.replies);
    // the screen is redrawn when tainted or resized, after which it is clean
    var drew := lp.tainted || resized;
    var inp := HandleInput(h, lp.game, input, adm.replies);
    if inp.quit then RoundResult(Stopped(inp.game), adm.trace + inp.trace, drew, adm.agents)
    else
      var d := DispatchAll(b, h, lp.events, 0, inp.game, adm.agents, inp.replies);
      var trace := adm.trace + inp.trace + d.trace;
      if d.quit then RoundResult(Stopped(d.game), trace, drew, d.agents)
      else
        // the double-buffer swap: queued messages become the events, requested spawns the
        // admissions, and the buffer is left empty (the drained admission list swapped in)
        var next := Loop(d.game, d.replies.messages, d.replies.agents, Sweep(d.agents),
                         EmptyReplies(), inp.redraw || d.redraw);
        RoundResult(Continuing(next), trace, drew, d.agents)
  }
}
