/** The agent contract of src/agents/mod.rs, and the control flow an agent returns.

    `cf.rs` is not part of this model: a `WaitHandle` is reduced to the two things the
    runner asks of it, whether it is ready and how many strong references it has. */
module Agents {

  /** How an agent wants to be scheduled after a call of `start` or `react`. */
  datatype ControlFlow =
    | Continue
    | Kill
    | Handle(ready: bool, references: nat)

  /** `ControlFlow::is_ready`: `Continue` always, `Kill` never, a handle when it has fired. */
  predicate IsReady(cf: ControlFlow) {
    match cf
    case Continue => true
    case Kill => false
    case Handle(ready, _) => ready
  }

  /** `ControlFlow::sleep_for`: a timer-backed handle that has not fired yet. The timer keeps
      the second strong reference until it fires, so a sleeping agent is not an orphan.
      Wall-clock durations are not modelled. */
  function SleepFor(delay: nat): (cf: ControlFlow)
    ensures cf.Handle? && !IsReady(cf)
    ensures cf.references > 1
  {
    Handle(false, 2)
  }

  /** What one call of `start` or `react` did: the agent's state afterwards, the control flow
      it returned, and what it appended to the reply buffer. Agents may only append to the
      buffer, so the two appended sequences describe the call's whole effect on it. */
  datatype Step<M, S> = Step(agent: S, cf: ControlFlow, queued: seq<M>, spawned: seq<S>)

  /** One kind of agent: its `start` and `react` callbacks as pure step functions. */
  datatype Behaviour<!M, !S> = Behaviour(start: S -> Step<M, S>, react: (S, M) -> Step<M, S>)

  /** The trait's default `start`: keep the agent ready so that `react` is called, and reply nothing. */
  function DefaultStart<M, S>(agent: S): (st: Step<M, S>)
    ensures IsReady(st.cf) && st.cf == Continue
    ensures st.agent == agent && st.queued == [] && st.spawned == []
  {
    Step(agent, Continue, [], [])
  }

  /** The trait's default `react`: an agent without its own `react` has no reason to live. */
  function DefaultReact<M, S>(agent: S, event: M): (st: Step<M, S>)
    ensures !IsReady(st.cf) && st.cf == Kill
    ensures st.agent == agent && st.queued == [] && st.spawned == []
  {
    Step(agent, Kill, [], [])
  }

  /** The agents defined in src/agents/mod.rs: one that overrides nothing, and `NopAgent`. */
  datatype Stock = DefaultAgent | NopAgent

  /** `NopAgent::start`: dies on start, with nothing spawned or queued. */
  function NopStart<M>(agent: Stock): (st: Step<M, Stock>)
    ensures st.cf == Kill && !IsReady(st.cf)
    ensures |st.spawned| == 0 && |st.queued| == 0
  {
    Step(agent, Kill, [], [])
  }

  /** `NopAgent::react`: dies, with no replies. */
  function NopReact<M>(agent: Stock, event: M): (st: Step<M, Stock>)
    ensures st.cf == Kill && !IsReady(st.cf)
    ensures |st.spawned| == 0 && |st.queued| == 0
  {
    Step(agent, Kill, [], [])
  }

  /** Dispatch from an agent value to the callbacks its type implements. */
  function StockBehaviour<M>(): Behaviour<M, Stock> {
    Behaviour(
      (a: Stock) => if a.NopAgent? then NopStart(a) else DefaultStart(a),
      (a: Stock, ev: M) => if a.NopAgent? then NopReact(a, ev) else DefaultReact(a, ev))
  }
}
