/** Properties of one round of the scheduler in src/game.rs, stated against independent
    descriptions: the log of calls a round makes, a pointwise description of how the live
    list evolves event by event, and the host's own fold over the round's events. */
module Scheduling {
  import opened Agents
  import opened Options
  import opened Game

  // ---------------------------------------------------------------------------------------
  // Reference descriptions
  // ---------------------------------------------------------------------------------------

  /** The live list after one event, agent by agent. */
  ghost function AfterEvent<M, S>(b: Behaviour<M, S>, agents: seq<Entry<S>>, ev: M): (r: seq<Entry<S>>)
    ensures |r| == |agents|
  {
    seq(|agents|, i requires 0 <= i < |agents| => AfterReact(b, agents[i], ev))
  }

  /** The live list after a sequence of events. */
  ghost function AfterEvents<M, S>(b: Behaviour<M, S>, agents: seq<Entry<S>>, evs: seq<M>): (r: seq<Entry<S>>)
    decreases |evs|
    ensures |r| == |agents|
  {
    if |evs| == 0 then agents else AfterEvents(b, AfterEvent(b, agents, evs[0]), evs[1..])
  }

  /** The game after it has observed the given events in order. */
  ghost function Observe<G, M, S, I>(h: Host<G, M, S, I>, g: G, evs: seq<M>): G
    decreases |evs|
  {
    if |evs| == 0 then g else Observe(h, h.event(g, evs[0]).game, evs[1..])
  }

  /** The game's response to event `n`, having observed the ones before it. */
  ghost function ResponseAt<G, M, S, I>(h: Host<G, M, S, I>, g: G, evs: seq<M>, n: nat): Response
    requires n < |evs|
  {
    h.event(Observe(h, g, evs[..n]), evs[n]).response
  }

  /** Some call in the log is agent `i` reacting to event `n`. */
  ghost predicate ReactedTo<M, S>(trace: seq<Call<M, S>>, i: nat, n: nat) {
    exists t :: 0 <= t < |trace| && trace[t].Reacted? && trace[t].agent == i && trace[t].event == n
  }

  /** The live list right after admission: the old agents, then each pending agent with the
      control flow its `start` returned. */
  ghost function Admitted<G, M, S>(b: Behaviour<M, S>, lp: Loop<G, M, S>): (r: seq<Entry<S>>)
    ensures |r| == |lp.agents| + |lp.newAgents|
  {
    lp.agents + seq(|lp.newAgents|, j requires 0 <= j < |lp.newAgents| => EntryOf(b.start(lp.newAgents[j])))
  }

  /** The game as it is when dispatch begins: changed only by `Game::input`. */
  ghost function GameAfterInput<G, M, S, I>(h: Host<G, M, S, I>, g: G, input: Option<Input<I>>): G {
    if input.Some? && input.value.Act? then h.input(g, input.value.action).game else g
  }

  // ---------------------------------------------------------------------------------------
  // Small facts
  // ---------------------------------------------------------------------------------------

  lemma ReactedToAppend<M, S>(a: seq<Call<M, S>>, c: seq<Call<M, S>>, i: nat, n: nat)
    ensures ReactedTo(a + c, i, n) <==> ReactedTo(a, i, n) || ReactedTo(c, i, n)
  {
    var ac := a + c;
    if ReactedTo(ac, i, n) {
      var t :| 0 <= t < |ac| && ac[t].Reacted? && ac[t].agent == i && ac[t].event == n;
      if t < |a| {
        assert a[t] == ac[t];
      } else {
        assert c[t - |a|] == ac[t];
      }
    }
    if ReactedTo(a, i, n) {
      var t :| 0 <= t < |a| && a[t].Reacted? && a[t].agent == i && a[t].event == n;
      assert ac[t] == a[t];
      assert 0 <= t < |ac| && ac[t].Reacted? && ac[t].agent == i && ac[t].event == n;
    }
    if ReactedTo(c, i, n) {
      var t :| 0 <= t < |c| && c[t].Reacted? && c[t].agent == i && c[t].event == n;
      assert ac[|a| + t] == c[t];
      assert 0 <= |a| + t < |ac| && ac[|a| + t].Reacted? && ac[|a| + t].agent == i && ac[|a| + t].event == n;
    }
  }

  /** A log none of whose reactions is to event `n` has no reaction to it by any agent. */
  lemma NoReactionTo<M, S>(trace: seq<Call<M, S>>, i: nat, n: nat)
    requires forall t :: 0 <= t < |trace| && trace[t].Reacted? ==> trace[t].event != n
    ensures !ReactedTo(trace, i, n)
  {
  }

  /** An agent that is not ready is a fixed point of any number of events. */
  lemma {:induction false} NotReadyStaysPut<M, S>(b: Behaviour<M, S>, agents: seq<Entry<S>>, evs: seq<M>, i: nat)
    requires i < |agents| && !IsReady(agents[i].cf)
    ensures AfterEvents(b, agents, evs)[i] == agents[i]
    decreases |evs|
  {
    if |evs| > 0 {
      NotReadyStaysPut(b, AfterEvent(b, agents, evs[0]), evs[1..], i);
    }
  }

  lemma {:induction false} AfterEventsSplit<M, S>(b: Behaviour<M, S>, agents: seq<Entry<S>>, evs: seq<M>, n: nat)
    requires n <= |evs|
    ensures AfterEvents(b, agents, evs) == AfterEvents(b, AfterEvents(b, agents, evs[..n]), evs[n..])
    decreases n
  {
    if n > 0 {
      assert evs[..n][0] == evs[0];
      assert evs[..n][1..] == evs[1..][..n - 1];
      assert evs[n..] == evs[1..][n - 1..];
      AfterEventsSplit(b, AfterEvent(b, agents, evs[0]), evs[1..], n - 1);
    } else {
      assert evs[n..] == evs;
    }
  }

  // ---------------------------------------------------------------------------------------
  // One event
  // ---------------------------------------------------------------------------------------

  /** The inner loop logs only reactions to event `k` by ready agents of the list, each
      with the step `react` produced for it. */
  ghost predicate ReactionOf<M, S>(b: Behaviour<M, S>, c: Call<M, S>, agents: seq<Entry<S>>, ev: M, k: nat, base: nat) {
    && c.Reacted? && c.event == k
    && base <= c.agent < base + |agents|
    && IsReady(agents[c.agent - base].cf)
    && c.step == b.react(agents[c.agent - base].agent, ev)
  }

  lemma {:induction false} ReactAllSound<M, S>(b: Behaviour<M, S>, agents: seq<Entry<S>>, ev: M, k: nat, base: nat,
                                               r: Replies<M, S>, d: Reaction<M, S>)
    requires d == ReactAll(b, agents, ev, k, base, r)
    ensures forall t :: 0 <= t < |d.trace| ==> ReactionOf(b, d.trace[t], agents, ev, k, base)
    decreases |agents|
  {
    if |agents| > 0 {
      var e := agents[0];
      var tail := agents[1..];
      if IsReady(e.cf) {
        var st := b.react(e.agent, ev);
        var r1 := Append(r, st.queued, st.spawned);
        var rest := ReactAll(b, tail, ev, k, base + 1, r1);
        ReactAllSound(b, tail, ev, k, base + 1, r1, rest);
        assert d.trace == [Reacted(base, k, st)] + rest.trace;
        forall t | 0 <= t < |d.trace|
          ensures ReactionOf(b, d.trace[t], agents, ev, k, base)
        {
          if t > 0 {
            var c := rest.trace[t - 1];
            assert d.trace[t] == c;
            assert ReactionOf(b, c, tail, ev, k, base + 1);
            assert agents[c.agent - base] == tail[c.agent - (base + 1)];
          }
        }
      } else {
        var rest := ReactAll(b, tail, ev, k, base + 1, r);
        ReactAllSound(b, tail, ev, k, base + 1, r, rest);
        assert d.trace == rest.trace;
        forall t | 0 <= t < |d.trace|
          ensures ReactionOf(b, d.trace[t], agents, ev, k, base)
        {
          var c := rest.trace[t];
          assert ReactionOf(b, c, tail, ev, k, base + 1);
          assert agents[c.agent - base] == tail[c.agent - (base + 1)];
        }
      }
    }
  }

  /** Within one event the reactions come in strictly increasing live-list order, so no
      agent reacts twice to the same event. */
  lemma {:induction false} ReactAllOrdered<M, S>(b: Behaviour<M, S>, agents: seq<Entry<S>>, ev: M, k: nat, base: nat,
                                                 r: Replies<M, S>, d: Reaction<M, S>)
    requires d == ReactAll(b, agents, ev, k, base, r)
    ensures forall t1, t2 :: 0 <= t1 < t2 < |d.trace| ==>
              d.trace[t1].Reacted? && d.trace[t2].Reacted? && d.trace[t1].agent < d.trace[t2].agent
    decreases |agents|
  {
    ReactAllSound(b, agents, ev, k, base, r, d);
    if |agents| > 0 {
      var e := agents[0];
      var tail := agents[1..];
      if IsReady(e.cf) {
        var st := b.react(e.agent, ev);
        var r1 := Append(r, st.queued, st.spawned);
        var rest := ReactAll(b, tail, ev, k, base + 1, r1);
        ReactAllSound(b, tail, ev, k, base + 1, r1, rest);
        ReactAllOrdered(b, tail, ev, k, base + 1, r1, rest);
        assert d.trace == [Reacted(base, k, st)] + rest.trace;
        forall t1, t2 | 0 <= t1 < t2 < |d.trace|
          ensures d.trace[t1].Reacted? && d.trace[t2].Reacted? && d.trace[t1].agent < d.trace[t2].agent
        {
          assert d.trace[t2] == rest.trace[t2 - 1];
          assert ReactionOf(b, rest.trace[t2 - 1], tail, ev, k, base + 1);
          if t1 > 0 {
            assert d.trace[t1] == rest.trace[t1 - 1];
          }
        }
      } else {
        var rest := ReactAll(b, tail, ev, k, base + 1, r);
        ReactAllOrdered(b, tail, ev, k, base + 1, r, rest);
        assert d.trace == rest.trace;
      }
    }
  }

  /** Every ready agent of the list reacts to event `k`, and only those. */
  lemma {:induction false} ReactAllComplete<M, S>(b: Behaviour<M, S>, agents: seq<Entry<S>>, ev: M, k: nat, base: nat,
                                                  r: Replies<M, S>, i: nat)
    requires i < |agents|
    ensures ReactedTo(ReactAll(b, agents, ev, k, base, r).trace, base + i, k) <==> IsReady(agents[i].cf)
    decreases |agents|
  {
    var d := ReactAll(b, agents, ev, k, base, r);
    ReactAllSound(b, agents, ev, k, base, r, d);
    var e := agents[0];
    var tail := agents[1..];
    if IsReady(e.cf) {
      var st := b.react(e.agent, ev);
      var r1 := Append(r, st.queued, st.spawned);
      var rest := ReactAll(b, tail, ev, k, base + 1, r1);
      assert d.trace == [Reacted(base, k, st)] + rest.trace;
      if i == 0 {
        assert d.trace[0].Reacted? && d.trace[0].agent == base + i && d.trace[0].event == k;
      } else {
        ReactAllComplete(b, tail, ev, k, base + 1, r1, i - 1);
        ReactedToAppend([Reacted(base, k, st)], rest.trace, base + i, k);
        assert tail[i - 1] == agents[i];
      }
    } else {
      var rest := ReactAll(b, tail, ev, k, base + 1, r);
      assert d.trace == rest.trace;
      if i > 0 {
        ReactAllComplete(b, tail, ev, k, base + 1, r, i - 1);
        assert tail[i - 1] == agents[i];
      }
    }
  }

  // ---------------------------------------------------------------------------------------
  // All events
  // ---------------------------------------------------------------------------------------

  /** Every call dispatch logs is a reaction to an event it processed, by an agent of the list. */
  lemma {:induction false} DispatchLogShape<G, M, S, I>(b: Behaviour<M, S>, h: Host<G, M, S, I>, events: seq<M>, k: nat,
                                                        game: G, agents: seq<Entry<S>>, r: Replies<M, S>,
                                                        d: Dispatch<G, M, S>)
    requires k <= |events| && d == DispatchAll(b, h, events, k, game, agents, r)
    ensures forall t :: 0 <= t < |d.trace| ==>
              d.trace[t].Reacted? && k <= d.trace[t].event < d.processed && d.trace[t].agent < |agents|
    decreases |events| - k
  {
    if k < |events| {
      var obs := h.event(game, events[k]);
      if !obs.response.Quit? {
        var re := ReactAll(b, agents, events[k], k, 0, r);
        var rest := DispatchAll(b, h, events, k + 1, obs.game, re.agents, re.replies);
        ReactAllSound(b, agents, events[k], k, 0, r, re);
        DispatchLogShape(b, h, events, k + 1, obs.game, re.agents, re.replies, rest);
        assert d.trace == re.trace + rest.trace && d.processed == rest.processed;
        LogShapeCons(b, agents, events[k], k, re.trace, rest.trace, d.processed);
      }
    }
  }

  /** The reactions to one event followed by reactions to later ones. */
  lemma LogShapeCons<M, S>(b: Behaviour<M, S>, agents: seq<Entry<S>>, ev: M, k: nat,
                           first: seq<Call<M, S>>, rest: seq<Call<M, S>>, hi: nat)
    requires k < hi
    requires forall t :: 0 <= t < |first| ==> ReactionOf(b, first[t], agents, ev, k, 0)
    requires forall t :: 0 <= t < |rest| ==>
               rest[t].Reacted? && k + 1 <= rest[t].event < hi && rest[t].agent < |agents|
    ensures forall t :: 0 <= t < |first + rest| ==>
              (first + rest)[t].Reacted? && k <= (first + rest)[t].event < hi && (first + rest)[t].agent < |agents|
  {
    var trace := first + rest;
    forall t | 0 <= t < |trace|
      ensures trace[t].Reacted? && k <= trace[t].event < hi && trace[t].agent < |agents|
    {
      if t < |first| {
        assert trace[t] == first[t];
        assert ReactionOf(b, first[t], agents, ev, k, 0);
      } else {
        assert trace[t] == rest[t - |first|];
      }
    }
  }

  /** Dispatch leaves the live list as `AfterEvents` describes it for the events processed. */
  lemma {:induction false} DispatchAgents<G, M, S, I>(b: Behaviour<M, S>, h: Host<G, M, S, I>, events: seq<M>, k: nat,
                                                      game: G, agents: seq<Entry<S>>, r: Replies<M, S>,
                                                      d: Dispatch<G, M, S>)
    requires k <= |events| && d == DispatchAll(b, h, events, k, game, agents, r)
    ensures d.agents == AfterEvents(b, agents, events[k..d.processed])
    decreases |events| - k
  {
    if k == |events| || h.event(game, events[k]).response.Quit? {
      assert events[k..d.processed] == [];
    } else {
      var obs := h.event(game, events[k]);
      var re := ReactAll(b, agents, events[k], k, 0, r);
      var rest := DispatchAll(b, h, events, k + 1, obs.game, re.agents, re.replies);
      DispatchAgents(b, h, events, k + 1, obs.game, re.agents, re.replies, rest);
      assert re.agents == AfterEvent(b, agents, events[k]);
      assert events[k..d.processed][0] == events[k];
      assert events[k..d.processed][1..] == events[k + 1..d.processed];
    }
  }

  /** Agent `i` reacts to event `n` exactly when it is ready after the events before `n`. */
  lemma {:induction false} DispatchReactedAt<G, M, S, I>(b: Behaviour<M, S>, h: Host<G, M, S, I>, events: seq<M>, k: nat,
                                                         game: G, agents: seq<Entry<S>>, r: Replies<M, S>,
                                                         d: Dispatch<G, M, S>, n: nat, i: nat)
    requires k <= |events| && d == DispatchAll(b, h, events, k, game, agents, r)
    requires k <= n < d.processed && i < |agents|
    ensures ReactedTo(d.trace, i, n) <==> IsReady(AfterEvents(b, agents, events[k..n])[i].cf)
    decreases |events| - k
  {
    var ev := events[k];
    var obs := h.event(game, ev);
    var re := ReactAll(b, agents, ev, k, 0, r);
    var rest := DispatchAll(b, h, events, k + 1, obs.game, re.agents, re.replies);
    assert d.trace == re.trace + rest.trace;
    if n == k {
      assert events[k..n] == [];
      DispatchLogShape(b, h, events, k + 1, obs.game, re.agents, re.replies, rest);
      ReactedAtFirst(b, agents, ev, k, r, re, rest.trace, i);
    } else {
      DispatchReactedAt(b, h, events, k + 1, obs.game, re.agents, re.replies, rest, n, i);
      assert events[k..n][0] == ev;
      assert events[k..n][1..] == events[k + 1..n];
      ReactedAtLater(b, agents, ev, k, r, re, rest.trace, events[k..n], i, n);
    }
  }

  /** The reactions to the first event of a dispatch: the inner loop's, since the rest of
      the log reacts only to later events. */
  lemma ReactedAtFirst<M, S>(b: Behaviour<M, S>, agents: seq<Entry<S>>, ev: M, k: nat, r: Replies<M, S>,
                             re: Reaction<M, S>, rest: seq<Call<M, S>>, i: nat)
    requires re == ReactAll(b, agents, ev, k, 0, r) && i < |agents|
    requires forall t :: 0 <= t < |rest| ==> rest[t].Reacted? && k + 1 <= rest[t].event
    ensures ReactedTo(re.trace + rest, i, k) <==> IsReady(agents[i].cf)
  {
    ReactedToAppend(re.trace, rest, i, k);
    NoReactionTo(rest, i, k);
    ReactAllComplete(b, agents, ev, k, 0, r, i);
  }

  /** The reactions to a later event of a dispatch: the rest of the log's, run on the list
      the first event left. */
  lemma ReactedAtLater<M, S>(b: Behaviour<M, S>, agents: seq<Entry<S>>, ev: M, k: nat, r: Replies<M, S>,
                             re: Reaction<M, S>, rest: seq<Call<M, S>>, evs: seq<M>, i: nat, n: nat)
    requires re == ReactAll(b, agents, ev, k, 0, r) && i < |agents| && k < n
    requires |evs| > 0 && evs[0] == ev
    requires ReactedTo(rest, i, n) <==> IsReady(AfterEvents(b, re.agents, evs[1..])[i].cf)
    ensures ReactedTo(re.trace + rest, i, n) <==> IsReady(AfterEvents(b, agents, evs)[i].cf)
  {
    ReactedToAppend(re.trace, rest, i, n);
    ReactAllSound(b, agents, ev, k, 0, r, re);
    forall t | 0 <= t < |re.trace| && re.trace[t].Reacted?
      ensures re.trace[t].event != n
    {
      assert ReactionOf(b, re.trace[t], agents, ev, k, 0);
    }
    NoReactionTo(re.trace, i, n);
    assert re.agents == AfterEvent(b, agents, ev);
  }

  /** A log none of whose reactions is by agent `i` has no reaction by it to any event. */
  lemma NoReactionBy<M, S>(trace: seq<Call<M, S>>, i: nat, n: nat)
    requires forall t :: 0 <= t < |trace| && trace[t].Reacted? ==> trace[t].agent != i
    ensures !ReactedTo(trace, i, n)
  {
  }

  /** The whole of dispatch's log: agent `i` reacts to event `n` exactly when `n` is among
      the processed events and `i` is ready after the ones before it. */
  lemma DispatchReactedTo<G, M, S, I>(b: Behaviour<M, S>, h: Host<G, M, S, I>, events: seq<M>, k: nat,
                                      game: G, agents: seq<Entry<S>>, r: Replies<M, S>,
                                      d: Dispatch<G, M, S>, n: nat, i: nat)
    requires k <= |events| && d == DispatchAll(b, h, events, k, game, agents, r)
    ensures ReactedTo(d.trace, i, n) <==>
              k <= n < d.processed && i < |agents| && IsReady(AfterEvents(b, agents, events[k..n])[i].cf)
  {
    DispatchLogShape(b, h, events, k, game, agents, r, d);
    if k <= n < d.processed && i < |agents| {
      DispatchReactedAt(b, h, events, k, game, agents, r, d, n, i);
    } else if i < |agents| {
      NoReactionTo(d.trace, i, n);
    } else {
      NoReactionBy(d.trace, i, n);
    }
  }

  /** The host's first response, and every later one as a response to the remaining events. */
  lemma ResponseAtCons<G, M, S, I>(h: Host<G, M, S, I>, g: G, evs: seq<M>, n: nat)
    requires n < |evs|
    ensures n == 0 ==> ResponseAt(h, g, evs, n) == h.event(g, evs[0]).response
    ensures n > 0 ==> ResponseAt(h, g, evs, n) == ResponseAt(h, h.event(g, evs[0]).game, evs[1..], n - 1)
  {
    if n == 0 {
      assert evs[..0] == [];
    } else {
      assert evs[..n][0] == evs[0];
      assert evs[..n][1..] == evs[1..][..n - 1];
    }
  }

  /** Dispatch stops at the first event the game answers with `Quit`, and nowhere else. */
  lemma {:induction false} DispatchHostQuit<G, M, S, I>(b: Behaviour<M, S>, h: Host<G, M, S, I>, events: seq<M>, k: nat,
                                                        game: G, agents: seq<Entry<S>>, r: Replies<M, S>,
                                                        d: Dispatch<G, M, S>)
    requires k <= |events| && d == DispatchAll(b, h, events, k, game, agents, r)
    ensures forall n :: 0 <= n < d.processed - k ==> !ResponseAt(h, game, events[k..], n).Quit?
    ensures d.quit ==> ResponseAt(h, game, events[k..], d.processed - k).Quit?
    decreases |events| - k
  {
    if k < |events| {
      var obs := h.event(game, events[k]);
      ResponseAtCons(h, game, events[k..], 0);
      if !obs.response.Quit? {
        var re := ReactAll(b, agents, events[k], k, 0, r);
        var rest := DispatchAll(b, h, events, k + 1, obs.game, re.agents, re.replies);
        DispatchHostQuit(b, h, events, k + 1, obs.game, re.agents, re.replies, rest);
        assert events[k..][1..] == events[k + 1..];
        forall n | 1 <= n < |events| - k
          ensures ResponseAt(h, game, events[k..], n) == ResponseAt(h, obs.game, events[k + 1..], n - 1)
        {
          ResponseAtCons(h, game, events[k..], n);
        }
      }
    }
  }

  /** A dispatch that runs to the end leaves the game as it is after observing every event. */
  lemma {:induction false} DispatchHostGame<G, M, S, I>(b: Behaviour<M, S>, h: Host<G, M, S, I>, events: seq<M>, k: nat,
                                                        game: G, agents: seq<Entry<S>>, r: Replies<M, S>,
                                                        d: Dispatch<G, M, S>)
    requires k <= |events| && d == DispatchAll(b, h, events, k, game, agents, r)
    ensures !d.quit ==> d.game == Observe(h, game, events[k..])
    decreases |events| - k
  {
    if k < |events| {
      var obs := h.event(game, events[k]);
      if !obs.response.Quit? {
        var re := ReactAll(b, agents, events[k], k, 0, r);
        var rest := DispatchAll(b, h, events, k + 1, obs.game, re.agents, re.replies);
        DispatchHostGame(b, h, events, k + 1, obs.game, re.agents, re.replies, rest);
        assert events[k..][0] == events[k];
        assert events[k..][1..] == events[k + 1..];
      }
    }
  }

  /** A dispatch that runs to the end asks for a redraw exactly when the game answered some
      event with `Redraw`. */
  lemma {:induction false} DispatchHostRedraw<G, M, S, I>(b: Behaviour<M, S>, h: Host<G, M, S, I>, events: seq<M>, k: nat,
                                                          game: G, agents: seq<Entry<S>>, r: Replies<M, S>,
                                                          d: Dispatch<G, M, S>)
    requires k <= |events| && d == DispatchAll(b, h, events, k, game, agents, r)
    ensures !d.quit ==> (d.redraw <==> exists n :: 0 <= n < |events| - k && ResponseAt(h, game, events[k..], n).Redraw?)
    decreases |events| - k
  {
    if k < |events| {
      var evs := events[k..];
      var obs := h.event(game, events[k]);
      ResponseAtCons(h, game, evs, 0);
      if !obs.response.Quit? {
        var re := ReactAll(b, agents, events[k], k, 0, r);
        var rest := DispatchAll(b, h, events, k + 1, obs.game, re.agents, re.replies);
        DispatchHostRedraw(b, h, events, k + 1, obs.game, re.agents, re.replies, rest);
        assert evs[1..] == events[k + 1..];
        if !d.quit {
          if d.redraw && !obs.response.Redraw? {
            var n :| 0 <= n < |events| - (k + 1) && ResponseAt(h, obs.game, events[k + 1..], n).Redraw?;
            ResponseAtCons(h, game, evs, n + 1);
          }
          if !d.redraw {
            forall n | 0 <= n < |evs|
              ensures !ResponseAt(h, game, evs, n).Redraw?
            {
              ResponseAtCons(h, game, evs, n);
            }
          }
        }
      }
    }
  }

  // ---------------------------------------------------------------------------------------
  // One round
  // ---------------------------------------------------------------------------------------

  /** The stages of a round, named once so that the lemmas below can refer to them. */
  datatype Stages<G, M, S> = Stages(adm: Admission<M, S>, inp: Inputted<G, M, S>, d: Dispatch<G, M, S>)

  ghost function StagesOf<G, M, S, I>(b: Behaviour<M, S>, h: Host<G, M, S, I>, lp: Loop<G, M, S>,
                                      input: Option<Input<I>>): (st: Stages<G, M, S>)
    ensures st.adm == Admit(b, lp.agents, lp.newAgents, lp.replies)
    ensures st.inp == HandleInput(h, lp.game, input, st.adm.replies)
    ensures st.d == DispatchAll(b, h, lp.events, 0, st.inp.game, st.adm.agents, st.inp.replies)
  {
    var adm := Admit(b, lp.agents, lp.newAgents, lp.replies);
    var inp := HandleInput(h, lp.game, input, adm.replies);
    Stages(adm, inp, DispatchAll(b, h, lp.events, 0, inp.game, adm.agents, inp.replies))
  }

  /** A log whose calls are all reactions. */
  ghost predicate Reactions<M, S>(trace: seq<Call<M, S>>) {
    forall t :: 0 <= t < |trace| ==> trace[t].Reacted?
  }

  /** A log whose calls are all starts. */
  ghost predicate Starts<M, S>(trace: seq<Call<M, S>>) {
    forall t :: 0 <= t < |trace| ==> trace[t].Started?
  }

  /** A log whose calls are all calls of `Game::input`. */
  ghost predicate InputCalls<M, S>(trace: seq<Call<M, S>>) {
    forall t :: 0 <= t < |trace| ==> trace[t].HostInput?
  }

  /** The layout of a round's log: the admissions, then at most one input call, then
      reactions only. */
  lemma {:induction false} LogLayout<M, S>(a: seq<Call<M, S>>, x: seq<Call<M, S>>, d: seq<Call<M, S>>, trace: seq<Call<M, S>>)
    requires trace == a + x + d
    requires Starts(a) && InputCalls(x) && Reactions(d)
    ensures |a| <= |trace| && trace[..|a|] == a
    ensures forall t :: |a| <= t < |trace| ==> !trace[t].Started?
    ensures forall i: nat, n: nat :: ReactedTo(trace, i, n) <==> ReactedTo(d, i, n)
  {
    assert trace[..|a|] == a;
    forall t | |a| <= t < |trace|
      ensures !trace[t].Started?
    {
      if t < |a| + |x| {
        assert trace[t] == x[t - |a|];
      } else {
        assert trace[t] == d[t - |a| - |x|];
      }
    }
    forall i: nat, n: nat
      ensures ReactedTo(trace, i, n) <==> ReactedTo(d, i, n)
    {
      ReactedToAppend(a + x, d, i, n);
      forall t | 0 <= t < |a + x|
        ensures !(a + x)[t].Reacted?
      {
        if t < |a| {
          assert (a + x)[t] == a[t];
        } else {
          assert (a + x)[t] == x[t - |a|];
        }
      }
      NoReactionTo(a + x, i, n);
    }
  }

  /** The reactions a round logs: dispatch's, or none when the input step quit. */
  ghost function Dispatched<G, M, S>(st: Stages<G, M, S>): seq<Call<M, S>> {
    if st.inp.quit then [] else st.d.trace
  }

  /** Admission, as the round performs it, yields the live list `Admitted` describes. */
  lemma AdmitIsAdmitted<G, M, S>(b: Behaviour<M, S>, lp: Loop<G, M, S>)
    ensures Admit(b, lp.agents, lp.newAgents, lp.replies).agents == Admitted(b, lp)
  {
    var adm := Admit(b, lp.agents, lp.newAgents, lp.replies);
    var a, want := adm.agents, Admitted(b, lp);
    forall i | 0 <= i < |a|
      ensures a[i] == want[i]
    {
      if i < |lp.agents| {
        assert a[i] == a[..|lp.agents|][i];
      } else {
        var j := i - |lp.agents|;
        assert a[|lp.agents| + j] == EntryOf(b.start(lp.newAgents[j]));
      }
    }
  }

  /** A round stops exactly when the input step or dispatch quit; one that goes on carries
      dispatch's game. */
  lemma RoundStopsAt<G, M, S, I>(b: Behaviour<M, S>, h: Host<G, M, S, I>, lp: Loop<G, M, S>,
                                 input: Option<Input<I>>, resized: bool, st: Stages<G, M, S>, res: RoundResult<G, M, S>)
    requires res == Round(b, h, lp, input, resized) && st == StagesOf(b, h, lp, input)
    ensures res.outcome.Stopped? <==> st.inp.quit || st.d.quit
    ensures res.outcome.Continuing? ==> res.outcome.next.game == st.d.game
  {
  }

  /** The loop state a round that goes on hands to the next one. */
  lemma RoundContinues<G, M, S, I>(b: Behaviour<M, S>, h: Host<G, M, S, I>, lp: Loop<G, M, S>,
                                   input: Option<Input<I>>, resized: bool, st: Stages<G, M, S>, res: RoundResult<G, M, S>)
    requires res == Round(b, h, lp, input, resized) && st == StagesOf(b, h, lp, input)
    requires res.outcome.Continuing?
    ensures !st.inp.quit && !st.d.quit && res.dispatched == st.d.agents
  {
  }

  /** The loop state itself. */
  lemma RoundNext<G, M, S, I>(b: Behaviour<M, S>, h: Host<G, M, S, I>, lp: Loop<G, M, S>,
                              input: Option<Input<I>>, resized: bool, st: Stages<G, M, S>, res: RoundResult<G, M, S>)
    requires res == Round(b, h, lp, input, resized) && st == StagesOf(b, h, lp, input)
    requires res.outcome.Continuing?
    ensures res.outcome.next == Loop(st.d.game, st.d.replies.messages, st.d.replies.agents, Sweep(st.d.agents),
                                     EmptyReplies(), st.inp.redraw || st.d.redraw)
  {
  }

  /** A round's log: the admissions, the input call, then dispatch's reactions. */
  lemma RoundTrace<G, M, S, I>(b: Behaviour<M, S>, h: Host<G, M, S, I>, lp: Loop<G, M, S>,
                               input: Option<Input<I>>, resized: bool, st: Stages<G, M, S>, res: RoundResult<G, M, S>)
    requires res == Round(b, h, lp, input, resized) && st == StagesOf(b, h, lp, input)
    ensures res.trace == st.adm.trace + st.inp.trace + Dispatched(st)
  {
  }

  /** Admission comes first in the log: each pending agent is started exactly once, in
      order, and no other call of the round is a `start`. */
  lemma RoundStartsFirst<G, M, S, I>(b: Behaviour<M, S>, h: Host<G, M, S, I>, lp: Loop<G, M, S>,
                                     input: Option<Input<I>>, resized: bool, res: RoundResult<G, M, S>)
    requires res == Round(b, h, lp, input, resized)
    ensures |lp.newAgents| <= |res.trace|
    ensures forall j :: 0 <= j < |lp.newAgents| ==> res.trace[j] == Started(|lp.agents| + j, b.start(lp.newAgents[j]))
    ensures forall t :: |lp.newAgents| <= t < |res.trace| ==> !res.trace[t].Started?
  {
    var st := StagesOf(b, h, lp, input);
    RoundTrace(b, h, lp, input, resized, st, res);
    RoundLogIsLaidOut(b, h, lp, input, st);
    StartsFirst(b, lp.agents, lp.newAgents, lp.replies, st.adm, st.inp.trace, Dispatched(st), res.trace);
  }

  /** A log made of the admissions' starts, then input calls, then reactions. */
  lemma StartsFirst<M, S>(b: Behaviour<M, S>, agents: seq<Entry<S>>, pending: seq<S>, r: Replies<M, S>,
                          adm: Admission<M, S>, x: seq<Call<M, S>>, d: seq<Call<M, S>>, trace: seq<Call<M, S>>)
    requires AdmitsAs(b, agents, pending, r, adm)
    requires InputCalls(x) && Reactions(d) && trace == adm.trace + x + d
    ensures |pending| <= |trace|
    ensures forall j :: 0 <= j < |pending| ==> trace[j] == Started(|agents| + j, b.start(pending[j]))
    ensures forall t :: |pending| <= t < |trace| ==> !trace[t].Started?
  {
    var a := adm.trace;
    assert Starts(a) by {
      forall t | 0 <= t < |a|
        ensures a[t].Started?
      {
        assert a[t] == Started(|agents| + t, b.start(pending[t]));
      }
    }
    LogLayout(a, x, d, trace);
    forall j | 0 <= j < |pending|
      ensures trace[j] == Started(|agents| + j, b.start(pending[j]))
    {
      assert trace[j] == trace[..|a|][j];
    }
  }

  /** The round's reactions are reactions. */
  lemma RoundLogIsLaidOut<G, M, S, I>(b: Behaviour<M, S>, h: Host<G, M, S, I>, lp: Loop<G, M, S>,
                                      input: Option<Input<I>>, st: Stages<G, M, S>)
    requires st == StagesOf(b, h, lp, input)
    ensures Reactions(Dispatched(st)) && Starts(st.adm.trace) && InputCalls(st.inp.trace)
    ensures AdmitsAs(b, lp.agents, lp.newAgents, lp.replies, st.adm)
  {
    if !st.inp.quit {
      DispatchLogShape(b, h, lp.events, 0, st.inp.game, st.adm.agents, st.inp.replies, st.d);
    }
  }

  /** The double-buffer swap: next round's events are exactly the messages this round
      queued, in call order, its admissions exactly the agents this round spawned, and the
      reply buffer is left empty. */
  lemma RoundSwapsBuffers<G, M, S, I>(b: Behaviour<M, S>, h: Host<G, M, S, I>, lp: Loop<G, M, S>,
                                      input: Option<Input<I>>, resized: bool, res: RoundResult<G, M, S>)
    requires res == Round(b, h, lp, input, resized)
    requires res.outcome.Continuing?
    ensures res.outcome.next.events == lp.replies.messages + QueuedIn(res.trace)
    ensures res.outcome.next.newAgents == lp.replies.agents + SpawnedIn(res.trace)
    ensures QueueLen(res.outcome.next.replies) == 0 && SpawnLen(res.outcome.next.replies) == 0
  {
    var st := StagesOf(b, h, lp, input);
    RoundTrace(b, h, lp, input, resized, st, res);
    RoundContinues(b, h, lp, input, resized, st, res);
    RoundNext(b, h, lp, input, resized, st, res);
    ExtendsChain(lp.replies, st.adm.replies, st.inp.replies, st.adm.trace, st.inp.trace);
    ExtendsChain(lp.replies, st.inp.replies, st.d.replies, st.adm.trace + st.inp.trace, st.d.trace);
  }

  /** A reaction in a round is a reaction during its dispatch: to an event the host let
      through, by an agent that was ready after the events before it. */
  lemma RoundReactedAt<G, M, S, I>(b: Behaviour<M, S>, h: Host<G, M, S, I>, lp: Loop<G, M, S>,
                                   input: Option<Input<I>>, resized: bool, res: RoundResult<G, M, S>, n: nat, i: nat)
    requires res == Round(b, h, lp, input, resized)
    ensures var st := StagesOf(b, h, lp, input);
      ReactedTo(res.trace, i, n) <==>
        !st.inp.quit && n < st.d.processed && i < |Admitted(b, lp)|
        && IsReady(AfterEvents(b, Admitted(b, lp), lp.events[..n])[i].cf)
  {
    var st := StagesOf(b, h, lp, input);
    RoundTrace(b, h, lp, input, resized, st, res);
    RoundLogIsLaidOut(b, h, lp, input, st);
    LogLayout(st.adm.trace, st.inp.trace, Dispatched(st), res.trace);
    if !st.inp.quit {
      AdmitIsAdmitted(b, lp);
      DispatchReactedTo(b, h, lp.events, 0, st.inp.game, st.adm.agents, st.inp.replies, st.d, n, i);
      if n <= |lp.events| {
        assert lp.events[0..n] == lp.events[..n];
      }
    } else {
      NoReactionTo(Dispatched(st), i, n);
    }
  }

  /** Dispatch in a round that runs to the end leaves the live list as the event-by-event
      description says. */
  lemma RoundDispatches<G, M, S, I>(b: Behaviour<M, S>, h: Host<G, M, S, I>, lp: Loop<G, M, S>,
                                    input: Option<Input<I>>, resized: bool, res: RoundResult<G, M, S>)
    requires res == Round(b, h, lp, input, resized)
    requires res.outcome.Continuing?
    ensures res.dispatched == AfterEvents(b, Admitted(b, lp), lp.events)
  {
    var st := StagesOf(b, h, lp, input);
    RoundContinues(b, h, lp, input, resized, st, res);
    StagesDispatch(b, h, lp, input, st);
    assert lp.events[..|lp.events|] == lp.events;
  }

  /** Dispatch, within the round, applied to the admitted list. */
  lemma StagesDispatch<G, M, S, I>(b: Behaviour<M, S>, h: Host<G, M, S, I>, lp: Loop<G, M, S>,
                                   input: Option<Input<I>>, st: Stages<G, M, S>)
    requires st == StagesOf(b, h, lp, input)
    ensures st.d.agents == AfterEvents(b, Admitted(b, lp), lp.events[..st.d.processed])
  {
    AdmitIsAdmitted(b, lp);
    DispatchAgents(b, h, lp.events, 0, st.inp.game, st.adm.agents, st.inp.replies, st.d);
    assert lp.events[0..st.d.processed] == lp.events[..st.d.processed];
  }

  /** In a round that runs to the end, agent `i` reacts to event `n` exactly when it is
      ready after the events before `n`: every ready agent sees every event. */
  lemma RoundReactions<G, M, S, I>(b: Behaviour<M, S>, h: Host<G, M, S, I>, lp: Loop<G, M, S>,
                                   input: Option<Input<I>>, resized: bool, res: RoundResult<G, M, S>)
    requires res == Round(b, h, lp, input, resized)
    requires res.outcome.Continuing?
    ensures forall n, i :: 0 <= n < |lp.events| && 0 <= i < |Admitted(b, lp)| ==>
              (ReactedTo(res.trace, i, n) <==> IsReady(AfterEvents(b, Admitted(b, lp), lp.events[..n])[i].cf))
  {
    RoundContinues(b, h, lp, input, resized, StagesOf(b, h, lp, input), res);
    forall n, i | 0 <= n < |lp.events| && 0 <= i < |Admitted(b, lp)|
      ensures ReactedTo(res.trace, i, n) <==> IsReady(AfterEvents(b, Admitted(b, lp), lp.events[..n])[i].cf)
    {
      RoundReactedAt(b, h, lp, input, resized, res, n, i);
    }
  }

  /** An agent that is not ready after admission is never reacted to in the round, and
      dispatch leaves its entry as it was. */
  lemma NotReadyNeverReacts<G, M, S, I>(b: Behaviour<M, S>, h: Host<G, M, S, I>, lp: Loop<G, M, S>,
                                        input: Option<Input<I>>, resized: bool, res: RoundResult<G, M, S>, i: nat)
    requires res == Round(b, h, lp, input, resized)
    requires i < |Admitted(b, lp)| && !IsReady(Admitted(b, lp)[i].cf)
    ensures forall n: nat :: !ReactedTo(res.trace, i, n)
    ensures res.outcome.Continuing? ==> res.dispatched[i] == Admitted(b, lp)[i]
  {
    if res.outcome.Continuing? {
      RoundDispatches(b, h, lp, input, resized, res);
      NotReadyStaysPut(b, Admitted(b, lp), lp.events, i);
    }
    forall n: nat
      ensures !ReactedTo(res.trace, i, n)
    {
      RoundReactedAt(b, h, lp, input, resized, res, n, i);
      if n <= |lp.events| {
        NotReadyStaysPut(b, Admitted(b, lp), lp.events[..n], i);
      }
    }
  }

  /** Once an agent is not ready after some event of the round, it reacts to no later event. */
  lemma NoReactAfterNotReady<G, M, S, I>(b: Behaviour<M, S>, h: Host<G, M, S, I>, lp: Loop<G, M, S>,
                                         input: Option<Input<I>>, resized: bool, res: RoundResult<G, M, S>,
                                         i: nat, n: nat)
    requires res == Round(b, h, lp, input, resized)
    requires n <= |lp.events| && i < |Admitted(b, lp)|
    requires !IsReady(AfterEvents(b, Admitted(b, lp), lp.events[..n])[i].cf)
    ensures forall m: nat :: n <= m ==> !ReactedTo(res.trace, i, m)
  {
    var mid := AfterEvents(b, Admitted(b, lp), lp.events[..n]);
    forall m: nat | n <= m
      ensures !ReactedTo(res.trace, i, m)
    {
      RoundReactedAt(b, h, lp, input, resized, res, m, i);
      if m <= |lp.events| {
        AfterEventsSplit(b, Admitted(b, lp), lp.events[..m], n);
        assert lp.events[..m][..n] == lp.events[..n];
        NotReadyStaysPut(b, mid, lp.events[..m][n..], i);
      }
    }
  }

  /** The sweep: next round's live agents are the dispatched ones that can still wake, with
      their multiplicities; every `Kill` and every orphaned handle is gone. */
  lemma RoundSweeps<G, M, S, I>(b: Behaviour<M, S>, h: Host<G, M, S, I>, lp: Loop<G, M, S>,
                                input: Option<Input<I>>, resized: bool, res: RoundResult<G, M, S>)
    requires res == Round(b, h, lp, input, resized) && res.outcome.Continuing?
    ensures |res.dispatched| == |lp.agents| + |lp.newAgents|
    ensures forall i :: 0 <= i < |res.outcome.next.agents| ==>
              Keep(res.outcome.next.agents[i].cf) && res.outcome.next.agents[i] in res.dispatched
    ensures forall i :: 0 <= i < |res.dispatched| ==>
              multiset(res.outcome.next.agents)[res.dispatched[i]]
                == if Keep(res.dispatched[i].cf) then multiset(res.dispatched)[res.dispatched[i]] else 0
  {
    var st := StagesOf(b, h, lp, input);
    RoundContinues(b, h, lp, input, resized, st, res);
    RoundNext(b, h, lp, input, resized, st, res);
    AdmitIsAdmitted(b, lp);
  }

  /** What dispatch does with the host's responses, stated against the round's own events. */
  lemma RoundHost<G, M, S, I>(b: Behaviour<M, S>, h: Host<G, M, S, I>, lp: Loop<G, M, S>,
                              input: Option<Input<I>>, st: Stages<G, M, S>)
    requires st == StagesOf(b, h, lp, input) && !st.inp.quit
    ensures var g := GameAfterInput(h, lp.game, input);
      && (forall n :: 0 <= n < st.d.processed ==> !ResponseAt(h, g, lp.events, n).Quit?)
      && (st.d.quit ==> ResponseAt(h, g, lp.events, st.d.processed).Quit?)
      && (!st.d.quit ==> st.d.game == Observe(h, g, lp.events))
      && (!st.d.quit ==> (st.d.redraw <==> exists n :: 0 <= n < |lp.events| && ResponseAt(h, g, lp.events, n).Redraw?))
  {
    assert st.inp.game == GameAfterInput(h, lp.game, input);
    DispatchHostQuit(b, h, lp.events, 0, st.inp.game, st.adm.agents, st.inp.replies, st.d);
    DispatchHostGame(b, h, lp.events, 0, st.inp.game, st.adm.agents, st.inp.replies, st.d);
    DispatchHostRedraw(b, h, lp.events, 0, st.inp.game, st.adm.agents, st.inp.replies, st.d);
    assert lp.events[0..] == lp.events;
  }

  /** When a round ends the loop: the window closed, `Game::input` quit, or the game
      answered some event with `Quit`. A round that goes on leaves the game as it is after
      observing every event in order. */
  lemma RoundStops<G, M, S, I>(b: Behaviour<M, S>, h: Host<G, M, S, I>, lp: Loop<G, M, S>,
                               input: Option<Input<I>>, resized: bool, res: RoundResult<G, M, S>)
    requires res == Round(b, h, lp, input, resized)
    ensures res.outcome.Stopped? <==>
              || input == Some(Closed)
              || (input.Some? && input.value.Act? && h.input(lp.game, input.value.action).response.Quit?)
              || exists n :: 0 <= n < |lp.events| && ResponseAt(h, GameAfterInput(h, lp.game, input), lp.events, n).Quit?
    ensures res.outcome.Continuing? ==> res.outcome.next.game == Observe(h, GameAfterInput(h, lp.game, input), lp.events)
  {
    var st := StagesOf(b, h, lp, input);
    RoundStopsAt(b, h, lp, input, resized, st, res);
    if !st.inp.quit {
      RoundHost(b, h, lp, input, st);
    }
  }

  /** No agent reacts to the event the game answers with `Quit`, or to any later one. */
  lemma NoReactAfterQuit<G, M, S, I>(b: Behaviour<M, S>, h: Host<G, M, S, I>, lp: Loop<G, M, S>,
                                     input: Option<Input<I>>, resized: bool, res: RoundResult<G, M, S>, n: nat)
    requires res == Round(b, h, lp, input, resized)
    requires n < |lp.events| && ResponseAt(h, GameAfterInput(h, lp.game, input), lp.events, n).Quit?
    ensures forall i: nat, m: nat :: ReactedTo(res.trace, i, m) ==> m < n
  {
    var st := StagesOf(b, h, lp, input);
    if !st.inp.quit {
      RoundHost(b, h, lp, input, st);
    }
    forall i: nat, m: nat | ReactedTo(res.trace, i, m)
      ensures m < n
    {
      RoundReactedAt(b, h, lp, input, resized, res, m, i);
    }
  }

  /** The screen is tainted for the next round exactly when a redraw was asked for: by the
      input step or by the game's response to some event. */
  lemma RoundTaints<G, M, S, I>(b: Behaviour<M, S>, h: Host<G, M, S, I>, lp: Loop<G, M, S>,
                                input: Option<Input<I>>, resized: bool, res: RoundResult<G, M, S>)
    requires res == Round(b, h, lp, input, resized) && res.outcome.Continuing?
    ensures res.outcome.next.tainted <==>
              || input == Some(RedrawRequest)
              || (input.Some? && input.value.Act? && h.input(lp.game, input.value.action).response.Redraw?)
              || exists n :: 0 <= n < |lp.events| && ResponseAt(h, GameAfterInput(h, lp.game, input), lp.events, n).Redraw?
  {
    var st := StagesOf(b, h, lp, input);
    RoundContinues(b, h, lp, input, resized, st, res);
    RoundNext(b, h, lp, input, resized, st, res);
    RoundHost(b, h, lp, input, st);
  }

  // ---------------------------------------------------------------------------------------
  // The stock agents under the runner
  // ---------------------------------------------------------------------------------------

  /** A `NopAgent` admitted in a round (at index `i` of the live list) is never reacted to,
      and the sweep removes it. */
  lemma NopAgentNeverReacts<G, M, I>(h: Host<G, M, Stock, I>, lp: Loop<G, M, Stock>,
                                     input: Option<Input<I>>, resized: bool, res: RoundResult<G, M, Stock>,
                                     j: nat, i: nat)
    requires res == Round(StockBehaviour(), h, lp, input, resized)
    requires j < |lp.newAgents| && lp.newAgents[j] == NopAgent && i == |lp.agents| + j
    ensures forall n: nat :: !ReactedTo(res.trace, i, n)
    ensures res.outcome.Continuing? ==>
              res.dispatched[i] == Entry(Kill, NopAgent) && Entry(Kill, NopAgent) !in res.outcome.next.agents
  {
    var b := StockBehaviour<M>();
    assert Admitted(b, lp)[i] == EntryOf(b.start(lp.newAgents[j]));
    NotReadyNeverReacts(b, h, lp, input, resized, res, i);
    if res.outcome.Continuing? {
      RoundSweeps(b, h, lp, input, resized, res);
      var next := res.outcome.next.agents;
      forall k | 0 <= k < |next|
        ensures next[k] != Entry(Kill, NopAgent)
      {
        assert Keep(next[k].cf);
      }
    }
  }
}
