/** The conversation-tree `NPC` agent of src/bin/redshell.rs. An NPC walks through the
    messages of its current chat state, sleeping between them, then offers the state's
    options and waits for the player to pick one by name, which moves it to another state.
    Its `react` takes the round's events as one list, as that file's agent interface does. */
module Npc {
  import opened Agents
  import opened Options

  /** One step of the conversation: messages with the delay after each, and the options the
      player may answer with, each naming the state it leads to. */
  datatype ChatState = ChatState(messages: seq<(string, nat)>, options: seq<(string, nat)>)

  /** The events an NPC sends and listens for; anything else is ignored. */
  datatype Event =
    | NPCChatMessage(from: string, text: string, options: seq<string>)
    | PlayerChatMessage(to: string, text: string)
    | OtherEvent

  /** Past the last state (`state >= |allStates|`) the conversation is over. */
  datatype NPC = NPC(name: string, allStates: seq<ChatState>, state: nat, message: nat)

  /** `NPC::state`: the current chat state. */
  function State(npc: NPC): (s: ChatState)
    requires npc.state < |npc.allStates|
    ensures s in npc.allStates
  {
    npc.allStates[npc.state]
  }

  /** `NPC::message`: the current message and its delay. */
  function Message(npc: NPC): (m: (string, nat))
    requires npc.state < |npc.allStates| && npc.message < |State(npc).messages|
    ensures m in State(npc).messages
  {
    State(npc).messages[npc.message]
  }

  /** The labels of a list of options, in order. */
  function Labels(options: seq<(string, nat)>): (ls: seq<string>)
    ensures |ls| == |options|
    ensures forall i :: 0 <= i < |options| ==> ls[i] == options[i].0
  {
    seq(|options|, i requires 0 <= i < |options| => options[i].0)
  }

  /** What a call did: the NPC afterwards, the control flow it returned, and the events it
      pushed. */
  datatype Said = Said(npc: NPC, cf: ControlFlow, replies: seq<Event>)

  /** Whether `advance` can run: the conversation is over, or there is a current message. */
  predicate CanAdvance(npc: NPC) {
    npc.state >= |npc.allStates| || npc.message < |State(npc).messages|
  }

  /** `NPC::advance`: past the last state, die. Otherwise say the current message and move
      on; a message that is not the state's last is followed by a sleep for its delay, the
      last one carries the state's option labels and keeps the NPC awake for the answer. */
  function Advance(npc: NPC): (s: Said)
    requires CanAdvance(npc)
    ensures npc.state >= |npc.allStates| ==> s == Said(npc, Kill, [])
    ensures npc.state < |npc.allStates| ==>
              && s.npc == npc.(message := npc.message + 1)
              && |s.replies| == 1
              && s.replies[0].NPCChatMessage?
              && s.replies[0].from == npc.name
              && s.replies[0].text == Message(npc).0
    ensures npc.state < |npc.allStates| && npc.message + 1 < |State(npc).messages| ==>
              s.replies[0].options == [] && s.cf == SleepFor(Message(npc).1) && !IsReady(s.cf)
    ensures npc.state < |npc.allStates| && npc.message + 1 == |State(npc).messages| ==>
              s.replies[0].options == Labels(State(npc).options) && s.cf == Continue
  {
    if npc.state >= |npc.allStates| then Said(npc, Kill, [])
    else
      var (text, delay) := Message(npc);
      var next := npc.(message := npc.message + 1);
      if next.message != |State(next).messages| then
        Said(next, SleepFor(delay), [NPCChatMessage(npc.name, text, [])])
      else
        Said(next, Continue, [NPCChatMessage(npc.name, text, Labels(State(next).options))])
  }

  /** `start`: say the first message. */
  function Start(npc: NPC): (s: Said)
    requires CanAdvance(npc)
    ensures s == Advance(npc)
  {
    Advance(npc)
  }

  /** The events `k` calls of `advance` push, and the NPC they leave, within one state. */
  function AdvanceTimes(npc: NPC, k: nat): (s: (NPC, seq<Event>))
    requires npc.state < |npc.allStates| && npc.message + k <= |State(npc).messages|
    decreases k
  {
    if k == 0 then (npc, [])
    else
      var first := Advance(npc);
      var rest := AdvanceTimes(first.npc, k - 1);
      (rest.0, first.replies + rest.1)
  }

  /** The message an NPC in state `st` says as message number `j`: its text, with the
      option labels attached to the state's last message only. */
  function MessageEvent(name: string, st: ChatState, j: nat): Event
    requires j < |st.messages|
  {
    NPCChatMessage(name, st.messages[j].0, if j + 1 == |st.messages| then Labels(st.options) else [])
  }

  /** Advancing through a state says its messages in order, one per call, each from the
      NPC's name, with the option labels on the last one only. */
  lemma {:induction false} SaysStateInOrder(npc: NPC, k: nat)
    requires npc.state < |npc.allStates| && npc.message + k <= |State(npc).messages|
    ensures AdvanceTimes(npc, k).0 == npc.(message := npc.message + k)
    ensures |AdvanceTimes(npc, k).1| == k
    ensures forall j :: 0 <= j < k ==> AdvanceTimes(npc, k).1[j] == MessageEvent(npc.name, State(npc), npc.message + j)
    decreases k
  {
    if k > 0 {
      var first := Advance(npc);
      SaysStateInOrder(first.npc, k - 1);
      var rest := AdvanceTimes(first.npc, k - 1).1;
      assert first.replies == [MessageEvent(npc.name, State(npc), npc.message)];
      forall j | 0 <= j < k
        ensures AdvanceTimes(npc, k).1[j] == MessageEvent(npc.name, State(npc), npc.message + j)
      {
        if j > 0 {
          assert AdvanceTimes(npc, k).1[j] == rest[j - 1];
        }
      }
    }
  }

  // ---------------------------------------------------------------------------------------
  // Waiting for an answer
  // ---------------------------------------------------------------------------------------

  /** The first option labelled `text`, searching from index `from`. */
  function FindOption(options: seq<(string, nat)>, text: string, from: nat): (r: Option<nat>)
    requires from <= |options|
    ensures r.Some? ==> from <= r.value < |options| && options[r.value].0 == text
    ensures r.Some? ==> forall j :: from <= j < r.value ==> options[j].0 != text
    ensures r.None? ==> forall j :: from <= j < |options| ==> options[j].0 != text
    decreases |options| - from
  {
    if from == |options| then None
    else if options[from].0 == text then Some(from)
    else FindOption(options, text, from + 1)
  }

  /** Whether an event is the player answering `name` with one of the options. */
  predicate IsAnswer(name: string, options: seq<(string, nat)>, e: Event) {
    e.PlayerChatMessage? && e.to == name && FindOption(options, e.text, 0).Some?
  }

  /** The first event, from index `from` on, that answers `name` with one of the options. */
  function FirstAnswer(name: string, options: seq<(string, nat)>, events: seq<Event>, from: nat): (r: Option<nat>)
    requires from <= |events|
    ensures r.Some? ==> from <= r.value < |events| && IsAnswer(name, options, events[r.value])
    ensures r.Some? ==> forall k :: from <= k < r.value ==> !IsAnswer(name, options, events[k])
    ensures r.None? ==> forall k :: from <= k < |events| ==> !IsAnswer(name, options, events[k])
    decreases |events| - from
  {
    if from == |events| then None
    else if IsAnswer(name, options, events[from]) then Some(from)
    else FirstAnswer(name, options, events, from + 1)
  }

  /** The state the first answer among `events` picks, if the player answered at all. */
  function Chosen(npc: NPC, events: seq<Event>): (t: Option<nat>)
    requires npc.state < |npc.allStates|
    ensures t.None? <==> FirstAnswer(npc.name, State(npc).options, events, 0).None?
    ensures t.Some? ==> exists i :: 0 <= i < |State(npc).options| && t.value == State(npc).options[i].1
    ensures var options := State(npc).options;
      forall k, i :: 0 <= k < |events| && 0 <= i < |options|
        && (forall k' :: 0 <= k' < k ==> !IsAnswer(npc.name, options, events[k']))
        && events[k].PlayerChatMessage? && events[k].to == npc.name
        && (forall i' :: 0 <= i' < i ==> options[i'].0 != events[k].text)
        && options[i].0 == events[k].text
        ==> t == Some(options[i].1)
  {
    var options := State(npc).options;
    match FirstAnswer(npc.name, options, events, 0)
    case None => None
    case Some(k) =>
      var i := FindOption(options, events[k].text, 0).value;
      Some(options[i].1)
  }

  /** What `react` needs so that it does not index out of range: `advance` can run, or the
      NPC is waiting and the state the player picks, if any, is past the end of the tree or
      has a message to say. Options nobody picks are never looked at. */
  predicate CanReact(npc: NPC, events: seq<Event>) {
    || npc.state >= |npc.allStates|
    || npc.message < |State(npc).messages|
    || match Chosen(npc, events)
       case None => true
       case Some(target) => target >= |npc.allStates| || |npc.allStates[target].messages| > 0
  }

  /** `react`: past the last state, die. While waiting for an answer, the first event in which
      the player answers this NPC by name with an option label moves it to that option's state,
      from its first message, and advances; without one it stays awake and says nothing.
      Mid-conversation it says the next message. */
  function React(npc: NPC, events: seq<Event>): (s: Said)
    requires CanReact(npc, events)
    ensures s.npc.name == npc.name && s.npc.allStates == npc.allStates
    ensures |s.replies| <= 1
    ensures forall e :: e in s.replies ==> e.NPCChatMessage? && e.from == npc.name
    ensures s.cf == Kill <==> npc.state >= |npc.allStates| || s.npc.state >= |npc.allStates|
  {
    if npc.state >= |npc.allStates| then Said(npc, Kill, [])
    else if npc.message >= |State(npc).messages| then
      match Chosen(npc, events)
      case None => Said(npc, Continue, [])
      case Some(target) => Advance(npc.(state := target, message := 0))
    else Advance(npc)
  }

  /** React, case by case: the end of the tree, waiting without an answer, an answer, and
      the middle of a state. */
  lemma ReactCases(npc: NPC, events: seq<Event>)
    requires CanReact(npc, events)
    ensures npc.state >= |npc.allStates| ==> React(npc, events) == Said(npc, Kill, [])
    ensures npc.state < |npc.allStates| && npc.message < |State(npc).messages| ==>
              React(npc, events) == Advance(npc)
    ensures npc.state < |npc.allStates| && npc.message >= |State(npc).messages| ==>
              var options := State(npc).options;
              && ((forall k :: 0 <= k < |events| ==> !IsAnswer(npc.name, options, events[k])) ==>
                    React(npc, events) == Said(npc, Continue, []))
              && (forall k, i :: 0 <= k < |events| && 0 <= i < |options|
                    && (forall k' :: 0 <= k' < k ==> !IsAnswer(npc.name, options, events[k']))
                    && events[k].PlayerChatMessage? && events[k].to == npc.name
                    && (forall i' :: 0 <= i' < i ==> options[i'].0 != events[k].text)
                    && options[i].0 == events[k].text
                    ==> React(npc, events) == Advance(npc.(state := options[i].1, message := 0)))
  {
    if npc.state < |npc.allStates| && npc.message >= |State(npc).messages| {
      var options := State(npc).options;
      forall k, i | 0 <= k < |events| && 0 <= i < |options|
                    && (forall k' :: 0 <= k' < k ==> !IsAnswer(npc.name, options, events[k']))
                    && events[k].PlayerChatMessage? && events[k].to == npc.name
                    && (forall i' :: 0 <= i' < i ==> options[i'].0 != events[k].text)
                    && options[i].0 == events[k].text
        ensures React(npc, events) == Advance(npc.(state := options[i].1, message := 0))
      {
        var r := FindOption(options, events[k].text, 0);
        assert r == Some(i);
        assert IsAnswer(npc.name, options, events[k]);
        var f := FirstAnswer(npc.name, options, events, 0);
        assert f == Some(k);
      }
    }
  }

  /** An NPC that `react` moves to a new state starts that state from its first message, and
      only a state named by one of the current options can be reached. */
  lemma AnswerJumpsToOption(npc: NPC, events: seq<Event>)
    requires CanReact(npc, events) && npc.state < |npc.allStates| && npc.message >= |State(npc).messages|
    ensures var s := React(npc, events);
      s.npc.state != npc.state || s.npc.message != npc.message ==>
        exists i :: 0 <= i < |State(npc).options| && s.npc.state == State(npc).options[i].1 && s.npc.message <= 1
  {
    var options := State(npc).options;
    var f := FirstAnswer(npc.name, options, events, 0);
    if f.Some? {
      var i := FindOption(options, events[f.value].text, 0).value;
      assert React(npc, events).npc.state == options[i].1;
    }
  }
}
