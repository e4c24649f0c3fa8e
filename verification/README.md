# redshell core, modelled in Dafny

This project models the engine core of the redshell game (a terminal hacking game written
in Rust) and proves properties of the model. It covers:

- **The round scheduler** of `src/game.rs`. This includes the `Replies` buffer that agents
  append to, the `Runner` builder, and one iteration of `run_game`'s main loop. An
  iteration admits pending agents, handles input, dispatches the round's events, swaps the
  double buffer and sweeps dead agents.
  - Agents are pure: a call of `start` or `react` returns a `Step` holding the agent's new
    state, its `ControlFlow` and what it appended to the buffer.
  - One round (`Game.Round`) returns the log of every call that can append to the buffer
    (`start`, `react` and `Game::input`). The calls of `Game::event` and the readiness
    checks are not logged; `Scheduling.Observe` describes them instead. The scheduling
    properties are stated against that log and against independent event-by-event
    descriptions (`Scheduling.AfterEvents`, `Scheduling.Observe`).
- **The stock agents** of `src/agents/mod.rs`: the trait's default callbacks and `NopAgent`.
- **The stress-test binary** `src/bin/mass-events.rs`: the Collatz `TinyAgent` and the
  counting `TinyGame`.
- **The conversation-tree `NPC`** of `src/bin/redshell.rs`.
- **The `TextInput` line editor** of `src/io/helpers/text_input.rs`, with its bounded history.
- **The horizontal-rule widget** of `src/io/widgets/horizontal.rs`.

Files:

- `options.dfy`: `Option`.
- `agents.dfy`: `ControlFlow` and the agent contract.
- `game.dfy`: replies, the runner and one round.
- `scheduling.dfy`: the round's properties.
- `mass_events.dfy`, `npc.dfy`, `text_input.dfy`, `horizontal.dfy`: the rest of the core.

`ControlFlow` is defined in `cf.rs`, which is not part of this model. It is modelled as
`Continue | Kill | Handle(ready, references)`, which is exactly what the runner asks of it
(`is_ready` and `references`).

## Model

| member | source | states |
|---|---|---|
| Game.EmptyReplies | src/game.rs:41-48 | `Replies::default()` holds no agents and no messages |
| Game.Spawn | src/game.rs:60-67 | `spawn`/`spawn_boxed` append exactly one agent at the end; the messages are untouched and `spawn_len` grows by one |
| Game.Queue | src/game.rs:68-71 | `queue` appends one message at the end; the agents are untouched and `queue_len` grows by one |
| Game.QueueAll | src/game.rs:72-75 | `queue_all` appends the messages in order; the agents are untouched and `queue_len` grows by their number |
| Game.NewRunner | src/game.rs:136-142 | `Runner::new` keeps the game and starts with no events and no agents |
| Game.SpawnAtStartup | src/game.rs:145-148 | the builder's `spawn` appends one start-up agent and changes nothing else |
| Game.QueueAtStartup | src/game.rs:151-154 | the builder's `queue` appends one first-round event and changes nothing else |
| Game.StartLoop | src/game.rs:159-167 | the main loop starts with the runner's game, events and pending agents, no live agents, an empty buffer and a tainted screen |
| Game.Admit | src/game.rs:169 | each pending agent has `start` called once, in order; it joins the end of the live list with the control flow `start` returned; the buffer grows by exactly what the starts appended |
| Game.HandleInput | src/game.rs:183-194 | the loop ends exactly on `Closed` or on an action that `Game::input` answers with `Quit`; only `Game::input` appends to the buffer, in at most one call |
| Game.HandleInputCases | src/game.rs:183-194 | an action logs exactly one `Game::input` call, and its queued messages and spawns are exactly what is appended to the buffer; the game and the redraw flag are the ones that call returned. Any other input logs nothing and leaves the buffer and the game alone, and only a redraw request asks for a redraw |
| Game.DispatchAll | src/game.rs:196-209 | dispatch keeps the live list's length; it stops before the end exactly when it quits; the buffer grows by exactly what the logged calls appended |
| Game.Sweep | src/game.rs:215-223 | the survivors are exactly the entries that can still wake, each with its multiplicity; every `Kill` and every handle with at most one reference is dropped |
| Game.ReactAll | src/game.rs:203-208 | the inner loop keeps one entry per agent, and each is what reacting to the event leaves it: a ready agent is replaced by the result of its `react`, any other entry stays as it was; the buffer grows by exactly the replies of the logged calls |
| Scheduling.ReactAllSound | src/game.rs:203-208 | the inner loop logs only reactions to the current event by ready agents, each with the step `react` produced |
| Scheduling.ReactAllOrdered | src/game.rs:203-208 | within one event the reactions come in live-list order, so no agent reacts twice to one event |
| Scheduling.ReactAllComplete | src/game.rs:203-208 | an agent reacts to the current event if and only if its control flow is ready |
| Scheduling.DispatchLogShape | src/game.rs:196-209 | every call dispatch logs is a reaction, by a live agent, to an event the agents were given |
| Scheduling.DispatchAgents | src/game.rs:196-209 | after dispatch the live list equals the event-by-event description applied to the processed events |
| Scheduling.DispatchReactedAt | src/game.rs:203-208 | agent `i` reacts to processed event `n` if and only if it is ready after the events before `n`; an agent that became not ready earlier in the round is skipped |
| Scheduling.DispatchReactedTo | src/game.rs:196-209 | agent `i` reacts to event `n` if and only if `n` was processed, `i` is live and `i` is ready after the events before `n` |
| Scheduling.DispatchHostQuit | src/game.rs:196-202 | dispatch stops at the first event the game answers with `Quit` and at no other |
| Scheduling.DispatchHostGame | src/game.rs:196-197 | a dispatch that runs to the end leaves the game as it is after observing every event in order |
| Scheduling.DispatchHostRedraw | src/game.rs:196-202 | a dispatch that runs to the end asks for a redraw exactly when the game answered some event with `Redraw` |
| Scheduling.AdmitIsAdmitted | src/game.rs:169 | admission leaves the old live list followed by each pending agent with its `start` control flow |
| Scheduling.RoundStartsFirst | src/game.rs:169 | the round's log opens with one `start` per pending agent, in order, and contains no other `start` |
| Scheduling.RoundSwapsBuffers | src/game.rs:211-213 | next round's events are exactly this round's queued messages and its pending agents exactly this round's spawns, both in call order; the buffer is left empty |
| Scheduling.RoundReactedAt | src/game.rs:183-209 | a reaction happens in the round if and only if input did not quit, the event was let through, and the agent was ready after the events before it |
| Scheduling.RoundDispatches | src/game.rs:196-209 | a round that continues leaves the live list as the event-by-event description of the admitted list says |
| Scheduling.RoundReactions | src/game.rs:196-209 | in a round that continues, every agent ready after the events before `n` reacts to event `n`, and no other agent does |
| Scheduling.NotReadyNeverReacts | src/game.rs:203-206 | an agent not ready after admission is never reacted to in the round, and its entry is left as it was |
| Scheduling.NoReactAfterNotReady | src/game.rs:203-207 | once an agent is not ready after some event, it reacts to no later event of the round |
| Scheduling.RoundSweeps | src/game.rs:215-223 | next round's live agents are the dispatched ones that can still wake, with their multiplicities |
| Scheduling.RoundStops | src/game.rs:183-202 | the loop ends exactly on `Closed`, on `Quit` from `Game::input`, or on `Quit` from `Game::event` for some event; otherwise the game has observed every event in order |
| Scheduling.NoReactAfterQuit | src/game.rs:196-201 | no agent reacts to the event the game answers with `Quit`, or to any later one |
| Scheduling.RoundTaints | src/game.rs:183-201 | the next round is tainted exactly when the input step or the game's answer to some event asked for a redraw |
| Scheduling.NopAgentNeverReacts | src/agents/mod.rs:42-51 | an admitted `NopAgent` is never reacted to, and the sweep removes it in its first round |
| Agents.DefaultStart | src/agents/mod.rs:22-24 | the default `start` returns `Continue` and appends nothing |
| Agents.DefaultReact | src/agents/mod.rs:35-37 | the default `react` returns `Kill` and appends nothing |
| Agents.NopStart | src/agents/mod.rs:45-47 | `NopAgent::start` returns `Kill`; `spawn_len` and `queue_len` stay 0 |
| Agents.NopReact | src/agents/mod.rs:48-50 | `NopAgent::react` returns `Kill` with no replies |
| MassEvents.TinyStart | src/bin/mass-events.rs:19-22 | `start` queues exactly the agent's factor and returns `Continue` |
| MassEvents.TinyReact | src/bin/mass-events.rs:24-36 | `react` always returns `Continue`; it queues the Collatz successor exactly when `v > 1` falls in the agent's residue class, and nothing otherwise |
| MassEvents.ExactlyOneAnswers | src/bin/mass-events.rs:27 | among factors `1..=10000` exactly one agent answers any event above 1 |
| MassEvents.TinyEvent | src/bin/mass-events.rs:48-69 | `count` grows by one exactly for non-zero events and `complete` exactly for 1; `Quit` exactly when `complete` reaches 10000; `max` never decreases and becomes the event when that is larger and not 1 |
| MassEvents.TinyInput | src/bin/mass-events.rs:71-73 | `input` answers `Nothing`, queues nothing and leaves the game alone |
| MassEvents.Starter | src/bin/mass-events.rs:84-87 | start-up spawns the agents with factors `1..=10000` in order, with no events |
| MassEvents.FirstRound | src/bin/mass-events.rs:19-22 | in the first round every agent starts with `Continue`; the game is untouched; the next round's events are the factors in order, with nothing spawned |
| Npc.State | src/bin/redshell.rs:36-38 | the current chat state is one of the NPC's states |
| Npc.Message | src/bin/redshell.rs:41-43 | the current message is one of the current state's messages |
| Npc.Advance | src/bin/redshell.rs:46-77 | past the last state: `Kill` and nothing said. Otherwise `message` grows by one and exactly one chat message from the NPC with the current text is pushed; a non-last message carries no options and sleeps for its delay, the last carries the option labels in order and returns `Continue` |
| Npc.Start | src/bin/redshell.rs:81-83 | `start` is one `advance` |
| Npc.SaysStateInOrder | src/bin/redshell.rs:46-77 | repeated `advance` calls say a state's messages in order, one per call, with the option labels on the last one only |
| Npc.FindOption | src/bin/redshell.rs:101-104 | the option chosen is the first whose label equals the text; there is none exactly when no label does |
| Npc.FirstAnswer | src/bin/redshell.rs:92-104 | the event acted on is the first player message to this NPC whose text is an option label |
| Npc.Chosen | src/bin/redshell.rs:92-104 | while waiting, the state the player picks: for the first event that answers this NPC with an option label, the target of the first option carrying that label; there is none exactly when no event answers |
| Npc.React | src/bin/redshell.rs:85-115 | `react` never changes the NPC's name or conversation tree and says at most one message, from the NPC; it returns `Kill` exactly when the NPC was already past the last state or the answer moved it past the last state |
| Npc.ReactCases | src/bin/redshell.rs:85-115 | `react` returns `Kill` past the last state and advances mid-state; while waiting, the first answering event moves the NPC to its option's state from message 0 and advances, and with no answer it returns `Continue` and says nothing |
| Npc.AnswerJumpsToOption | src/bin/redshell.rs:100-107 | a waiting NPC only ever moves to a state named by one of its current options |
| TextInputs.New | src/io/helpers/text_input.rs:54-66 | a new editor is valid, empty and tainted, with the given prompt and history capacity |
| TextInputs.SetComplete | src/io/helpers/text_input.rs:72-75 | `set_complete` sets the completion, taints the editor and changes nothing else |
| TextInputs.CurLine | src/io/helpers/text_input.rs:82-88 | the displayed line is the history entry being viewed, or the typed line |
| TextInputs.PickHist | src/io/helpers/text_input.rs:90-96 | the displayed entry is copied into the typed line and scrolling stops; the displayed text and everything else are unchanged |
| TextInputs.Completable | src/io/helpers/text_input.rs:68-70 | the text to complete is the prefix of the displayed line up to the cursor |
| TextInputs.CompletableAsWritten | src/io/helpers/text_input.rs:68-70 | the typed line up to the cursor, defined only when the cursor lies within the typed line |
| TextInputs.CompletableAgreesWhenNotScrolling | src/io/helpers/text_input.rs:68-70 | with no history entry displayed, the code as written and the corrected definition agree |
| TextInputs.Record | src/io/helpers/text_input.rs:144-149 | blank lines, or every line when the capacity is 0, are not recorded; a full history drops its oldest entry before the line is appended; the length never exceeds the capacity |
| TextInputs.Keypress | src/io/helpers/text_input.rs:98-159 | every key keeps `hist_pos <= \|history\| <= hist_cap` and the cursor within the displayed line; the prompt, modifiers and capacity never change |
| TextInputs.Act | src/io/helpers/text_input.rs:164-170 | a modifier change is consumed with `Nothing`; actions other than key presses change nothing; validity is kept |
| TextInputs.EnterSubmits | src/io/helpers/text_input.rs:138-152 | Enter returns the displayed line; it clears the line, cursor and completion, stops scrolling and taints; it records the line as `Record` says |
| TextInputs.TabCompletes | src/io/helpers/text_input.rs:129-137 | Tab with no completion asks for one and changes nothing; otherwise the completion is inserted at the cursor, the cursor moves past it, and the completion is dropped |
| TextInputs.CharInserts | src/io/helpers/text_input.rs:100-109 | a typed character, cased by shift, is inserted at the cursor and the cursor advances by one; while hotkeying the key does nothing |
| TextInputs.DeletionsRemove | src/io/helpers/text_input.rs:110-118 | Backspace removes the character before the cursor and steps back; Delete removes the one at the cursor and keeps the cursor |
| TextInputs.EditsLeaveHistory | src/io/helpers/text_input.rs:90-96 | an edit made while scrolling never changes the history and leaves the editor on the typed line |
| TextInputs.ScrollingMovesByOne | src/io/helpers/text_input.rs:121-128 | Up/Down move the history position by exactly one and put the cursor at the end of the displayed line; the typed line and history are unchanged |
| TextInputs.RejectedKeysDoNothing | src/io/helpers/text_input.rs:153-154 | a key whose guard fails, or an unknown key, returns `Nothing` and leaves all state, taint and completion included, unchanged |
| TextInputs.KeysTaint | src/io/helpers/text_input.rs:98-158 | a key that gets past its guard (and is not a Tab asking for a completion) drops the completion and taints; any other key leaves the editor unchanged; only Tab asks for a completion; only Enter submits a line |
| TextInputs.CursorMoves | src/io/helpers/text_input.rs:119-120 | Left with the cursor past the start moves it back by one, Right with the cursor before the end of the displayed line moves it forward by one; either drops the completion, taints, and returns `Nothing`; Left and Right never change the line, the history or the scroll position |
| TextInputs.Render | src/io/helpers/text_input.rs:173-174 | rendering clears the taint and changes nothing else |
| TextInputs.RenderText | src/io/helpers/text_input.rs:175-209 | the rendered segments read `prompt + line[..cursor] + completion + line[cursor..]`, plus a blank cursor cell when the cursor is at the end with nothing to complete |
| TextInputs.ReachableIsValid | src/io/helpers/text_input.rs:54-170 | any editor made by `new` and driven by actions keeps its history within capacity and its cursor within the displayed line |
| TextInputs.CompletableAfterScrollingFails | src/io/helpers/text_input.rs:68-70 | a reachable editor on which Tab asks for a completion, where `completable` as written slices past the end of the typed line |
| HorizontalWidget.New | src/io/widgets/horizontal.rs:12-20 | a new widget has no start, no end and draws with `-` |
| HorizontalWidget.SetStart | src/io/widgets/horizontal.rs:22-23 | sets `start` and only `start` |
| HorizontalWidget.SetEnd | src/io/widgets/horizontal.rs:22-24 | sets `end` and only `end` |
| HorizontalWidget.SetChar | src/io/widgets/horizontal.rs:22-25 | sets the character and nothing else |
| HorizontalWidget.StartX | src/io/widgets/horizontal.rs:39 | the fill starts at `start`, or at column 0 |
| HorizontalWidget.EndX | src/io/widgets/horizontal.rs:40 | the fill ends before `end`, or at the screen width |
| HorizontalWidget.Drop | src/io/widgets/horizontal.rs:37-45 | every cell of the row from the start column up to the end column becomes a plain cell of the character; every other cell of every row is unchanged; with start >= end the screen is unchanged |

## Left out

- Drawing, the screen and the I/O backend (`IoSystem`, `sys::load`, `Runner::run`'s thread) are left out. A round is told whether the screen was resized and which input its bounded wait produced.
- `Game::render` is left out: drawing is not modelled.
- `cf.rs` and `event.rs` are not part of this model. A `WaitHandle` is its readiness and its reference count, and wall-clock durations are dropped.
- Scheduling.NotReadyNeverReacts, Scheduling.NoReactAfterNotReady, Scheduling.DispatchReactedAt, Scheduling.DispatchReactedTo, Scheduling.RoundReactedAt, Scheduling.RoundReactions, Scheduling.ReactAllComplete, Scheduling.DispatchAgents, Scheduling.RoundDispatches: these hold only under the model's frozen readiness. An entry's readiness and reference count change only through its own agent's `start` or `react` result. The source re-reads `cf.is_ready()` for every event (src/game.rs:204), and a handle with more than one reference may be woken by another holder, even by a timer thread, in the middle of a round. The model does not capture that.
- Agents.SleepFor: assumes the timer holds the second reference until it fires, since `cf.rs` is not part of this model.
- Game.Sweep: keeps the survivors in their original order. `retain_unstable` is not part of this model; the model assumes that it keeps exactly the entries its predicate accepts, in some order, and so the sweep's properties are stated as multiset equalities, which hold for any order.
- `spawn_len` and `queue_len` are the lengths of the two buffers (`Game.SpawnLen`, `Game.QueueLen`); the contracts of the functions that change the buffers state how those lengths change.
- `Response`, `Runner` and `Replies` are datatypes. The test-only accessors of `Replies` (src/game.rs:28-38) and its `Debug` output are left out.
- TextInputs: text is taken to be ASCII, so the source's byte indices are character indices. Case mapping is the ASCII one.
- TextInputs: `ModState` is defined in `src/io/helpers/mod.rs`, which is not part of this model. It is reduced to shift and "a hotkey modifier is held", and a modifier action replaces it.
- TextInputs.Render: the colours and underlines of the segments are left out; only their text is modelled.
- The `tainted` getter is the `tainted` field of `TextInputs.TextInput`.
- MassEvents: `u64` arithmetic is unbounded here, so an overflow of `3v + 1` is not modelled.
- MassEvents: the end-to-end totals that `main` asserts (src/bin/mass-events.rs:101-103) are not proved. They would take about 860,000 events of symbolic execution. Only the first round is proved.
- MassEvents.Starter: models only the spawn loop of `main`. `input_tick`, `load_run` and the timing output belong to a runner API that is not part of this model.
- Npc: the `run` loop, the `npc!` macro and `main` of src/bin/redshell.rs are left out.
- Npc: `react` receives the round's events as one list, as that binary's agent interface does, so the NPC is modelled on its own and not through `Game.Round`.
- Npc.Advance: requires that the current state has a message to say. The source panics on an out-of-range index there.
- Npc.React: requires, for a waiting NPC, that the state the player's answer picks, if any, lies past the last state or has a message. Picking a state with no messages makes the source's `advance` index out of range. Options nobody picks are not constrained.
- HorizontalWidget.Drop: requires that a non-empty fill lies inside the screen, because the source panics on an out-of-range index. `Cell::plain` is a cell with the default format, and other formats are abstract.
- src/bin/redshell-concept.rs, src/app/mod.rs, src/lib.rs and the backend sources are outside the core and are not modelled.

## Findings

| source | as written | input that shows it | evidently intended | confidence | as-written member | corrected member |
|---|---|---|---|---|---|---|
| src/io/helpers/text_input.rs:68-70 | `completable` slices the typed line `line[..cursor]`, but `cursor` is measured in the displayed line, which is a history entry while scrolling | `new("> ", 10)`, type `abc`, Enter, Up: the editor shows `abc` with the cursor at 3, Tab asks for a completion, and `line` is empty, so `line[..3]` panics | the displayed line up to the cursor, `abc` | not executed | TextInputs.CompletableAfterScrollingFails | TextInputs.Completable |
