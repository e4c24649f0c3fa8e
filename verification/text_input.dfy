/** The `TextInput` line editor of src/io/helpers/text_input.rs: one line being typed, a
    cursor, a pending autocompletion, and a bounded history that Up and Down scroll through.
    Text is taken to be ASCII, so a byte index of the source is a character index here. */
module TextInputs {
  import opened Options

  // ---------------------------------------------------------------------------------------
  // Characters
  // ---------------------------------------------------------------------------------------

  /** Rust's `char::is_whitespace`: the Unicode `White_Space` property. */
  predicate IsWhitespace(c: char) {
    var n := c as int;
    || 0x09 <= n <= 0x0D || n == 0x20 || n == 0x85 || n == 0xA0 || n == 0x1680
    || 0x2000 <= n <= 0x200A || n == 0x2028 || n == 0x2029 || n == 0x202F || n == 0x205F
    || n == 0x3000
  }

  /** `s.trim().is_empty()`: nothing but whitespace. */
  predicate IsBlank(s: string) {
    forall i :: 0 <= i < |s| ==> IsWhitespace(s[i])
  }

  /** ASCII upper-casing; every other character maps to itself. */
  function ToUpper(c: char): (u: char)
    ensures 'a' <= c <= 'z' ==> 'A' <= u <= 'Z' && u as int - 'A' as int == c as int - 'a' as int
    ensures !('a' <= c <= 'z') ==> u == c
  {
    if 'a' <= c <= 'z' then (c as int - 'a' as int + 'A' as int) as char else c
  }

  /** ASCII lower-casing; every other character maps to itself. */
  function ToLower(c: char): (l: char)
    ensures 'A' <= c <= 'Z' ==> 'a' <= l <= 'z' && l as int - 'a' as int == c as int - 'A' as int
    ensures !('A' <= c <= 'Z') ==> l == c
  {
    if 'A' <= c <= 'Z' then (c as int - 'A' as int + 'a' as int) as char else c
  }

  // ---------------------------------------------------------------------------------------
  // State
  // ---------------------------------------------------------------------------------------

  /** The keyboard modifiers the editor tracks: whether shift is held, and whether some
      other modifier turns key presses into hotkeys. */
  datatype ModState = ModState(shift: bool, hotkeying: bool)

  datatype Key = Char(ch: char) | Backspace | Delete | Left | Right | Up | Down | Tab | Enter | OtherKey

  /** The actions the editor is given: a key press, a key release, a change of modifiers
      (which the modifier tracker consumes), or anything else. */
  datatype Action = KeyPress(key: Key) | KeyRelease(released: Key) | Modifiers(mods: ModState) | OtherAction

  /** What the editor needs from its owner after an action. */
  datatype Request = Nothing | Autocomplete | Line(text: string)

  datatype TextInput = TextInput(
    prompt: string,
    line: string,           // the line being typed
    cursor: nat,            // position in the displayed line
    autocomplete: string,   // a completion offered by the owner, shown at the cursor
    tainted: bool,          // needs a redraw
    mods: ModState,
    history: seq<string>,   // oldest first
    histPos: nat,           // `|history|` means the line being typed is displayed
    histCap: nat)

  /** The line on screen: a history entry while scrolling, the typed line otherwise. */
  function CurLine(t: TextInput): (s: string)
    ensures t.histPos < |t.history| ==> s == t.history[t.histPos]
    ensures t.histPos >= |t.history| ==> s == t.line
  {
    if t.histPos < |t.history| then t.history[t.histPos] else t.line
  }

  /** What every reachable editor satisfies. */
  predicate Valid(t: TextInput) {
    && t.histPos <= |t.history|
    && |t.history| <= t.histCap
    && t.cursor <= |CurLine(t)|
  }

  /** `TextInput::new`: empty line and history, tainted so that it is drawn at once. */
  function New(prompt: string, history: nat): (t: TextInput)
    ensures Valid(t)
    ensures t.prompt == prompt && t.histCap == history
    ensures CurLine(t) == [] && t.cursor == 0 && t.autocomplete == [] && t.tainted
    ensures |t.history| == 0 && t.histPos == 0
  {
    TextInput(prompt, "", 0, "", true, ModState(false, false), [], 0, history)
  }

  /** `set_complete`: offer a completion, which needs a redraw. */
  function SetComplete(t: TextInput, text: string): (t': TextInput)
    ensures t'.autocomplete == text && t'.tainted
    ensures t' == t.(autocomplete := text, tainted := true)
    ensures Valid(t) ==> Valid(t')
  {
    t.(autocomplete := text, tainted := true)
  }

  /** `pick_hist`: an edit while scrolling the history first copies the displayed entry into
      the typed line and stops scrolling. */
  function PickHist(t: TextInput): (t': TextInput)
    requires Valid(t)
    ensures Valid(t')
    ensures t'.line == CurLine(t) && CurLine(t') == CurLine(t)
    ensures t'.histPos == |t.history|
    ensures t' == t.(line := t'.line, histPos := t'.histPos)
  {
    if t.histPos == |t.history| then t else t.(line := t.history[t.histPos], histPos := |t.history|)
  }

  // ---------------------------------------------------------------------------------------
  // Completion
  // ---------------------------------------------------------------------------------------

  /** `completable` as written: the typed line up to the cursor. The cursor is measured in
      the displayed line, so after scrolling the history this slice can run past the end of
      the typed line, which panics in the source (`None` here), or cut the wrong text. */
  function CompletableAsWritten(t: TextInput): (r: Option<string>)
    ensures r.Some? <==> t.cursor <= |t.line|
    ensures r.Some? ==> r.value == t.line[..t.cursor]
  {
    if t.cursor <= |t.line| then Some(t.line[..t.cursor]) else None
  }

  /** The text to complete: the displayed line up to the cursor. */
  function Completable(t: TextInput): (r: string)
    requires Valid(t)
    ensures |r| == t.cursor
    ensures r <= CurLine(t)
  {
    CurLine(t)[..t.cursor]
  }

  /** The two agree whenever the typed line is the one displayed. */
  lemma CompletableAgreesWhenNotScrolling(t: TextInput)
    requires Valid(t) && t.histPos == |t.history|
    ensures CompletableAsWritten(t) == Some(Completable(t))
  {
  }

  // ---------------------------------------------------------------------------------------
  // Key presses
  // ---------------------------------------------------------------------------------------

  datatype Outcome = Outcome(input: TextInput, request: Request)

  /** The end of every accepted key other than Tab-to-request and Enter: the completion is
      dropped and the editor needs a redraw. */
  function Touched(t: TextInput): TextInput {
    t.(autocomplete := "", tainted := true)
  }

  /** The character a `Char` key types: upper-cased under shift, lower-cased otherwise. */
  function Typed(mods: ModState, ch: char): char {
    if mods.shift then ToUpper(ch) else ToLower(ch)
  }

  /** The history after Enter submits `line`: blank lines, and every line when the capacity
      is zero, are not recorded; a full history drops its oldest entry first. */
  function Record(history: seq<string>, cap: nat, line: string): (h: seq<string>)
    requires |history| <= cap
    ensures |h| <= cap
    ensures IsBlank(line) || cap == 0 ==> h == history
    ensures !IsBlank(line) && cap > 0 ==> |h| > 0 && h[|h| - 1] == line && h[..|h| - 1] == (if |history| == cap then history[1..] else history)
  {
    if !IsBlank(line) && cap > 0 then
      (if |history| == cap then history[1..] else history) + [line]
    else history
  }

  /** `t'` is still valid and has kept what no key changes: the prompt, the modifiers and
      the history's capacity. */
  predicate Keeps(t: TextInput, t': TextInput) {
    Valid(t') && t'.prompt == t.prompt && t'.mods == t.mods && t'.histCap == t.histCap
  }

  /** A `Char` key: unless a hotkey modifier is held, insert the cased character at the cursor. */
  function TypeChar(t: TextInput, ch: char): (o: Outcome)
    requires Valid(t)
    ensures Keeps(t, o.input)
  {
    if t.mods.hotkeying then Outcome(t, Nothing)
    else
      var p := PickHist(t);
      var line := p.line[..p.cursor] + [Typed(t.mods, ch)] + p.line[p.cursor..];
      Outcome(Touched(p.(line := line, cursor := p.cursor + 1)), Nothing)
  }

  /** Backspace: remove the character before the cursor, if there is one. */
  function EraseBack(t: TextInput): (o: Outcome)
    requires Valid(t)
    ensures Keeps(t, o.input)
  {
    if t.cursor == 0 then Outcome(t, Nothing)
    else
      var p := PickHist(t);
      var line := p.line[..p.cursor - 1] + p.line[p.cursor..];
      Outcome(Touched(p.(line := line, cursor := p.cursor - 1)), Nothing)
  }

  /** Delete: remove the character at the cursor, if there is one. */
  function EraseAt(t: TextInput): (o: Outcome)
    requires Valid(t)
    ensures Keeps(t, o.input)
  {
    if t.cursor >= |CurLine(t)| then Outcome(t, Nothing)
    else
      var p := PickHist(t);
      var line := p.line[..p.cursor] + p.line[p.cursor + 1..];
      Outcome(Touched(p.(line := line)), Nothing)
  }

  /** Left and Right: move the cursor by one within the displayed line. */
  function MoveCursor(t: TextInput, right: bool): (o: Outcome)
    requires Valid(t)
    ensures Keeps(t, o.input)
  {
    if !right then
      if t.cursor == 0 then Outcome(t, Nothing)
      else Outcome(Touched(t.(cursor := t.cursor - 1)), Nothing)
    else
      if t.cursor >= |CurLine(t)| then Outcome(t, Nothing)
      else Outcome(Touched(t.(cursor := t.cursor + 1)), Nothing)
  }

  /** Up and Down: show the previous or next history entry, cursor at its end. */
  function Scroll(t: TextInput, down: bool): (o: Outcome)
    requires Valid(t)
    ensures Keeps(t, o.input)
  {
    if !down then
      if t.histPos == 0 then Outcome(t, Nothing)
      else
        var u := t.(histPos := t.histPos - 1);
        Outcome(Touched(u.(cursor := |CurLine(u)|)), Nothing)
    else
      if t.histPos >= |t.history| then Outcome(t, Nothing)
      else
        var u := t.(histPos := t.histPos + 1);
        Outcome(Touched(u.(cursor := |CurLine(u)|)), Nothing)
  }

  /** Tab: ask for a completion when none is offered, otherwise insert it at the cursor. */
  function Complete(t: TextInput): (o: Outcome)
    requires Valid(t)
    ensures Keeps(t, o.input)
  {
    if |t.autocomplete| == 0 then Outcome(t, Autocomplete)
    else
      var p := PickHist(t);
      var line := p.line[..p.cursor] + t.autocomplete + p.line[p.cursor..];
      Outcome(Touched(p.(line := line, cursor := p.cursor + |t.autocomplete|)), Nothing)
  }

  /** Enter: submit the displayed line, record it, and start a fresh one. */
  function Submit(t: TextInput): (o: Outcome)
    requires Valid(t)
    ensures Keeps(t, o.input)
  {
    var p := PickHist(t);
    var history := Record(p.history, p.histCap, p.line);
    var t' := p.(line := "", cursor := 0, autocomplete := "", tainted := true,
                 history := history, histPos := |history|);
    Outcome(t', Line(p.line))
  }

  /** `keypress`: one key, with the source's guards; a key whose guard fails does nothing. */
  function Keypress(t: TextInput, key: Key): (o: Outcome)
    requires Valid(t)
    ensures Valid(o.input)
    ensures o.input.prompt == t.prompt && o.input.mods == t.mods && o.input.histCap == t.histCap
  {
    match key
    case Char(ch) => TypeChar(t, ch)
    case Backspace => EraseBack(t)
    case Delete => EraseAt(t)
    case Left => MoveCursor(t, false)
    case Right => MoveCursor(t, true)
    case Up => Scroll(t, false)
    case Down => Scroll(t, true)
    case Tab => Complete(t)
    case Enter => Submit(t)
    case OtherKey => Outcome(t, Nothing)
  }

  /** `action`: a change of modifiers is consumed by the modifier tracker; a key press goes to
      `keypress`; anything else does nothing. */
  function Act(t: TextInput, a: Action): (o: Outcome)
    requires Valid(t)
    ensures Valid(o.input)
    ensures a.Modifiers? ==> o == Outcome(t.(mods := a.mods), Nothing)
    ensures !a.Modifiers? && !a.KeyPress? ==> o == Outcome(t, Nothing)
  {
    match a
    case Modifiers(m) => Outcome(t.(mods := m), Nothing)
    case KeyPress(k) => Keypress(t, k)
    case _ => Outcome(t, Nothing)
  }

  // ---------------------------------------------------------------------------------------
  // Rendering
  // ---------------------------------------------------------------------------------------

  function Concat(segments: seq<string>): string {
    if |segments| == 0 then "" else segments[0] + Concat(segments[1..])
  }

  /** `render`: the prompt line as the text segments the source builds (styles left out),
      and the editor with its taint cleared. */
  function Render(t: TextInput): (r: (seq<string>, TextInput))
    requires Valid(t)
    ensures r.1 == t.(tainted := false)
  {
    var line := CurLine(t);
    var c := t.cursor;
    var ac := t.autocomplete;
    var segments :=
      if c == |line| then
        if |ac| == 0 then [t.prompt, line, " "]
        else [t.prompt, line, ac[..1], ac[1..]]
      else
        if |ac| == 0 then [t.prompt, line[..c], line[c..c + 1], line[c + 1..]]
        else [t.prompt, line[..c], ac[..1], ac[1..], line[c..]];
    (segments, t.(tainted := false))
  }

  /** The prompt line read as one string: the prompt, the displayed line with the completion
      shown at the cursor, and a blank cell for the cursor when it sits at the end with
      nothing to complete. */
  lemma RenderText(t: TextInput)
    requires Valid(t)
    ensures var line, c := CurLine(t), t.cursor;
      Concat(Render(t).0)
        == t.prompt + line[..c] + t.autocomplete + line[c..]
           + (if c == |line| && |t.autocomplete| == 0 then " " else "")
  {
    var line, c, ac := CurLine(t), t.cursor, t.autocomplete;
    var segs := Render(t).0;
    if c == |line| {
      assert line[..c] == line && line[c..] == [];
      if |ac| == 0 {
        Concat3(t.prompt, line, " ");
      } else {
        Concat4(t.prompt, line, ac[..1], ac[1..]);
        assert ac[..1] + ac[1..] == ac;
      }
    } else if |ac| == 0 {
      Concat4(t.prompt, line[..c], line[c..c + 1], line[c + 1..]);
      assert line[c..c + 1] + line[c + 1..] == line[c..];
    } else {
      Concat5(t.prompt, line[..c], ac[..1], ac[1..], line[c..]);
      assert ac[..1] + ac[1..] == ac;
    }
  }

  lemma Concat1(a: string)
    ensures Concat([a]) == a
  {
    assert [a][1..] == [];
  }

  lemma Concat3(a: string, b: string, c: string)
    ensures Concat([a, b, c]) == a + b + c
  {
    assert [a, b, c][1..] == [b, c];
    assert [b, c][1..] == [c];
    Concat1(c);
  }

  lemma Concat4(a: string, b: string, c: string, d: string)
    ensures Concat([a, b, c, d]) == a + b + c + d
  {
    assert [a, b, c, d][1..] == [b, c, d];
    Concat3(b, c, d);
  }

  lemma Concat5(a: string, b: string, c: string, d: string, e: string)
    ensures Concat([a, b, c, d, e]) == a + b + c + d + e
  {
    assert [a, b, c, d, e][1..] == [b, c, d, e];
    Concat4(b, c, d, e);
  }

  /** Rendering leaves the editor untainted and changes nothing else. */
  lemma RenderClearsTaint(t: TextInput)
    requires Valid(t)
    ensures !Render(t).1.tainted && Valid(Render(t).1)
    ensures Render(t).1.(tainted := t.tainted) == t
  {
  }

  /** Enter submits the displayed line and starts a fresh one; the line is recorded in the
      history unless it is blank or the history has no room at all, and a full history
      forgets its oldest entry. */
  lemma EnterSubmits(t: TextInput, o: Outcome)
    requires Valid(t) && o == Keypress(t, Enter)
    ensures o.request == Line(CurLine(t))
    ensures o.input.line == [] && o.input.cursor == 0 && o.input.autocomplete == [] && o.input.tainted
    ensures o.input.histPos == |o.input.history| && CurLine(o.input) == []
    ensures IsBlank(CurLine(t)) || t.histCap == 0 ==> o.input.history == t.history
    ensures !IsBlank(CurLine(t)) && t.histCap > 0 && |t.history| < t.histCap ==>
              o.input.history == t.history + [CurLine(t)]
    ensures !IsBlank(CurLine(t)) && t.histCap > 0 && |t.history| == t.histCap ==>
              o.input.history == t.history[1..] + [CurLine(t)]
  {
  }

  /** Tab with nothing offered asks the owner for a completion and changes nothing; with a
      completion offered it inserts it at the cursor, moves past it and drops it. */
  lemma TabCompletes(t: TextInput, o: Outcome)
    requires Valid(t) && o == Keypress(t, Tab)
    ensures |t.autocomplete| == 0 ==> o == Outcome(t, Autocomplete)
    ensures |t.autocomplete| > 0 ==>
              && o.request == Nothing
              && CurLine(o.input) == CurLine(t)[..t.cursor] + t.autocomplete + CurLine(t)[t.cursor..]
              && o.input.cursor == t.cursor + |t.autocomplete|
              && o.input.autocomplete == [] && o.input.tainted
  {
  }

  /** A typed character goes in at the cursor, cased by shift, and the cursor moves past it;
      while a hotkey modifier is held the key does nothing. */
  lemma CharInserts(t: TextInput, ch: char, o: Outcome)
    requires Valid(t) && o == Keypress(t, Char(ch))
    ensures t.mods.hotkeying ==> o == Outcome(t, Nothing)
    ensures !t.mods.hotkeying ==>
              && o.request == Nothing
              && CurLine(o.input) == CurLine(t)[..t.cursor] + [Typed(t.mods, ch)] + CurLine(t)[t.cursor..]
              && o.input.cursor == t.cursor + 1
              && o.input.autocomplete == [] && o.input.tainted
  {
  }

  /** Backspace removes the character before the cursor and steps back over it; Delete
      removes the one at the cursor and leaves the cursor where it is. */
  lemma DeletionsRemove(t: TextInput)
    requires Valid(t)
    ensures var o := Keypress(t, Backspace);
      t.cursor > 0 ==>
        && CurLine(o.input) == CurLine(t)[..t.cursor - 1] + CurLine(t)[t.cursor..]
        && o.input.cursor == t.cursor - 1 && o.request == Nothing
    ensures var o := Keypress(t, Delete);
      t.cursor < |CurLine(t)| ==>
        && CurLine(o.input) == CurLine(t)[..t.cursor] + CurLine(t)[t.cursor + 1..]
        && o.input.cursor == t.cursor && o.request == Nothing
  {
  }

  /** An edit made while scrolling the history works on a copy of the displayed entry: the
      history itself is untouched and the editor is back on the typed line. */
  lemma EditsLeaveHistory(t: TextInput, key: Key, o: Outcome)
    requires Valid(t) && o == Keypress(t, key)
    requires key.Char? || key == Backspace || key == Delete || key == Tab
    ensures o.input.history == t.history
    ensures o.input != t ==> o.input.histPos == |t.history| && o.input.line == CurLine(o.input)
  {
  }

  /** Up and Down move through the history one entry at a time and put the cursor at the
      end of the entry shown; the typed line and the history are not modified. */
  lemma ScrollingMovesByOne(t: TextInput, key: Key, o: Outcome)
    requires Valid(t) && o == Keypress(t, key) && (key == Up || key == Down)
    ensures o.input.line == t.line && o.input.history == t.history && o.request == Nothing
    ensures key == Up && t.histPos > 0 ==> o.input.histPos == t.histPos - 1
    ensures key == Down && t.histPos < |t.history| ==> o.input.histPos == t.histPos + 1
    ensures o.input != t ==> o.input.cursor == |CurLine(o.input)|
    ensures key == Down && t.histPos + 1 == |t.history| ==> CurLine(o.input) == t.line
  {
  }

  /** Left and Right move the cursor by one within the displayed line and touch nothing
      else: line, history and scroll position stay, the completion is dropped and the editor
      is tainted. */
  lemma CursorMoves(t: TextInput, key: Key, o: Outcome)
    requires Valid(t) && o == Keypress(t, key)
    ensures key == Left && t.cursor > 0 ==>
              o.request == Nothing && o.input.cursor == t.cursor - 1
    ensures key == Right && t.cursor < |CurLine(t)| ==>
              o.request == Nothing && o.input.cursor == t.cursor + 1 && o.input.cursor <= |CurLine(o.input)|
    ensures key == Left || key == Right ==>
              && o.input.line == t.line && o.input.history == t.history && o.input.histPos == t.histPos
              && CurLine(o.input) == CurLine(t)
    ensures (key == Left && t.cursor > 0) || (key == Right && t.cursor < |CurLine(t)|) ==>
              o.input.tainted && o.input.autocomplete == []
  {
  }

  /** A key whose guard fails, an unknown key, a release and any other action return
      `Nothing` and leave everything, taint and completion included, as it was. */
  lemma RejectedKeysDoNothing(t: TextInput, key: Key, o: Outcome)
    requires Valid(t) && o == Keypress(t, key)
    requires || key == OtherKey
             || (key.Char? && t.mods.hotkeying)
             || ((key == Backspace || key == Left) && t.cursor == 0)
             || ((key == Delete || key == Right) && t.cursor == |CurLine(t)|)
             || (key == Up && t.histPos == 0)
             || (key == Down && t.histPos == |t.history|)
    ensures o == Outcome(t, Nothing)
  {
  }

  /** Whether a key gets past its guard and does not merely ask for a completion: the keys
      that reach the common tail of `keypress`, and Enter. */
  predicate Accepted(t: TextInput, key: Key) {
    match key
    case Char(_) => !t.mods.hotkeying
    case Backspace => t.cursor > 0
    case Delete => t.cursor < |CurLine(t)|
    case Left => t.cursor > 0
    case Right => t.cursor < |CurLine(t)|
    case Up => t.histPos > 0
    case Down => t.histPos < |t.history|
    case Tab => t.autocomplete != []
    case Enter => true
    case OtherKey => false
  }

  /** Every accepted key drops the completion and taints the editor; every key that changes
      nothing reports `Nothing` or asks for a completion. */
  lemma KeysTaint(t: TextInput, key: Key, o: Outcome)
    requires Valid(t) && o == Keypress(t, key)
    ensures Accepted(t, key) ==> o.input.tainted && o.input.autocomplete == []
    ensures !Accepted(t, key) ==> o.input == t
    ensures o.input == t || (o.input.tainted && o.input.autocomplete == [])
    ensures o.request.Autocomplete? ==> key == Tab && o.input == t
    ensures o.request.Line? <==> key == Enter
  {
  }

  /** The editor after a sequence of actions. */
  function ActAll(t: TextInput, acts: seq<Action>): (t': TextInput)
    requires Valid(t)
    ensures Valid(t')
    decreases |acts|
  {
    if |acts| == 0 then t else ActAll(Act(t, acts[0]).input, acts[1..])
  }

  /** However it got there, an editor built by `new` and driven only by actions keeps the
      history within its capacity and the cursor within the displayed line. */
  lemma {:induction false} ReachableIsValid(prompt: string, cap: nat, acts: seq<Action>)
    ensures Valid(ActAll(New(prompt, cap), acts))
    ensures ActAll(New(prompt, cap), acts).histCap == cap
    ensures ActAll(New(prompt, cap), acts).prompt == prompt
  {
    ActAllKeeps(New(prompt, cap), acts);
  }

  lemma {:induction false} ActAllKeeps(t: TextInput, acts: seq<Action>)
    requires Valid(t)
    ensures ActAll(t, acts).histCap == t.histCap && ActAll(t, acts).prompt == t.prompt
    decreases |acts|
  {
    if |acts| > 0 {
      var o := Act(t, acts[0]);
      assert o.input.histCap == t.histCap && o.input.prompt == t.prompt by {
        if acts[0].KeyPress? {
          assert o == Keypress(t, acts[0].key);
        }
      }
      ActAllKeeps(o.input, acts[1..]);
    }
  }

  /** The editor after typing "abc", submitting it and pressing Up once. */
  function ScrolledBack(): TextInput {
    TextInput("> ", "", 3, "", true, ModState(false, false), ["abc"], 0, 10)
  }

  /** The editors along the way to `ScrolledBack`. */
  function Typed1(): TextInput { TextInput("> ", "a", 1, "", true, ModState(false, false), [], 0, 10) }
  function Typed2(): TextInput { Typed1().(line := "ab", cursor := 2) }
  function Typed3(): TextInput { Typed1().(line := "abc", cursor := 3) }
  function Submitted(): TextInput { TextInput("> ", "", 0, "", true, ModState(false, false), ["abc"], 1, 10) }

  lemma TypingSteps()
    ensures Act(New("> ", 10), KeyPress(Char('a'))).input == Typed1()
    ensures Act(Typed1(), KeyPress(Char('b'))).input == Typed2()
    ensures Act(Typed2(), KeyPress(Char('c'))).input == Typed3()
  {
  }

  lemma SubmitAndScrollSteps()
    ensures Act(Typed3(), KeyPress(Enter)).input == Submitted()
    ensures Act(Submitted(), KeyPress(Up)).input == ScrolledBack()
  {
    assert !IsBlank("abc") by {
      assert !IsWhitespace("abc"[0]);
    }
  }

  /** One action, then the rest. */
  lemma ActAllStep(t: TextInput, a: Action, rest: seq<Action>)
    requires Valid(t)
    ensures ActAll(t, [a] + rest) == ActAll(Act(t, a).input, rest)
  {
    assert ([a] + rest)[1..] == rest;
  }

  /** `ScrolledBack` is reached from `new("> ", 10)` by exactly those keys. */
  lemma ScrolledBackIsReachable()
    ensures ActAll(New("> ", 10), [KeyPress(Char('a')), KeyPress(Char('b')), KeyPress(Char('c')),
                                   KeyPress(Enter), KeyPress(Up)]) == ScrolledBack()
  {
    TypingSteps();
    SubmitAndScrollSteps();
    var up, enter := KeyPress(Up), KeyPress(Enter);
    ActAllStep(Submitted(), up, []);
    ActAllStep(Typed3(), enter, [up]);
    ActAllStep(Typed2(), KeyPress(Char('c')), [enter, up]);
    ActAllStep(Typed1(), KeyPress(Char('b')), [KeyPress(Char('c')), enter, up]);
    ActAllStep(New("> ", 10), KeyPress(Char('a')), [KeyPress(Char('b')), KeyPress(Char('c')), enter, up]);
  }

  /** The defect in `completable`: in `ScrolledBack` the editor shows "abc" with the cursor
      at its end, Tab asks for a completion, and `completable` as written slices the empty
      typed line up to 3, which panics; the displayed line gives "abc". */
  lemma CompletableAfterScrollingFails()
    ensures Keypress(ScrolledBack(), Tab) == Outcome(ScrolledBack(), Autocomplete)
    ensures CompletableAsWritten(ScrolledBack()) == None
    ensures Completable(ScrolledBack()) == "abc"
  {
  }
}
