/** A line editor and the terminal row it is shown on, which the editor only reaches by writing and
    by moving the cursor. The row is as wide as it has to be. */
module LineEditor {
  // ------------------------------------------------------------------------ rows of characters

  /** A row is blank from its end on. */
  function At(row: string, i: nat): char { if i < |row| then row[i] else ' ' }

  ghost predicate SameRow(a: string, b: string) { forall i: nat :: At(a, i) == At(b, i) }

  function Padded(row: string, n: nat): (r: string)
    ensures |r| >= n && |r| >= |row|
  {
    if |row| < n then row + seq(n - |row|, _ => ' ') else row
  }

  function Inserted(row: string, x: nat, c: char): string { Padded(row, x)[..x] + [c] + Padded(row, x)[x..] }

  function Replaced(row: string, x: nat, c: char): string { Padded(row, x + 1)[x := c] }

  function Deleted(row: string, x: nat): string { if x < |row| then row[..x] + row[x + 1..] else row }

  function CutAt(row: string, x: nat): string { if x < |row| then row[..x] else row }

  lemma InsertedAt(row: string, x: nat, c: char, i: nat)
    ensures At(Inserted(row, x, c), i) == if i < x then At(row, i) else if i == x then c else At(row, i - 1)
  {
  }

  lemma ReplacedAt(row: string, x: nat, c: char, i: nat)
    ensures At(Replaced(row, x, c), i) == if i == x then c else At(row, i)
  {
  }

  lemma DeletedAt(row: string, x: nat, i: nat)
    ensures At(Deleted(row, x), i) == if i < x then At(row, i) else At(row, i + 1)
  {
  }

  lemma CutAtAt(row: string, x: nat, i: nat)
    ensures At(CutAt(row, x), i) == if i < x then At(row, i) else ' '
  {
  }

  /** What an operation does to a row is not affected by blanks at the row's end. */
  lemma OperationsRespectBlanks(a: string, b: string, x: nat, c: char)
    requires SameRow(a, b)
    ensures SameRow(Inserted(a, x, c), Inserted(b, x, c)) && SameRow(Replaced(a, x, c), Replaced(b, x, c))
    ensures SameRow(Deleted(a, x), Deleted(b, x)) && SameRow(CutAt(a, x), CutAt(b, x))
  {
    hide Inserted, Replaced, Deleted, CutAt, At;
    forall i: nat
      ensures At(Inserted(a, x, c), i) == At(Inserted(b, x, c), i)
      ensures At(Replaced(a, x, c), i) == At(Replaced(b, x, c), i)
      ensures At(Deleted(a, x), i) == At(Deleted(b, x), i) && At(CutAt(a, x), i) == At(CutAt(b, x), i)
    {
      InsertedAt(a, x, c, i);
      InsertedAt(b, x, c, i);
      ReplacedAt(a, x, c, i);
      ReplacedAt(b, x, c, i);
      DeletedAt(a, x, i);
      DeletedAt(b, x, i);
      CutAtAt(a, x, i);
      CutAtAt(b, x, i);
      assert At(a, i) == At(b, i) && At(a, i + 1) == At(b, i + 1);
      if i > 0 {
        assert At(a, i - 1) == At(b, i - 1);
      }
    }
  }

  /** What they do at a place in the second part of a row, they do to that part. */
  lemma InsertedInSecond(a: string, b: string, k: nat, c: char)
    requires k <= |b|
    ensures Inserted(a + b, |a| + k, c) == a + Inserted(b, k, c)
  {
  }

  lemma ReplacedInSecond(a: string, b: string, k: nat, c: char)
    requires k <= |b|
    ensures Replaced(a + b, |a| + k, c) == a + Replaced(b, k, c)
  {
  }

  lemma DeletedInSecond(a: string, b: string, k: nat)
    requires k < |b|
    ensures Deleted(a + b, |a| + k) == a + Deleted(b, k)
  {
    assert (a + b)[..|a| + k] == a + b[..k];
  }

  // ------------------------------------------------------------------------------ the terminal

  /** The cursor's row of a `TerminalBuffer`, and whether insert mode (IRM) is set. */
  datatype Terminal = Terminal(row: string, x: nat, irm: bool) {
    /** One printable character at the cursor. */
    function Put(c: char): Terminal {
      Terminal(if irm then Inserted(row, x, c) else Replaced(row, x, c), x + 1, irm)
    }

    function Write(text: string): Terminal
      decreases |text|
    {
      if text == "" then this else Put(text[0]).Write(text[1..])
    }

    function CursorForward(n: nat): Terminal
      requires n >= 1                   // insults.py asserts it
    {
      this.(x := x + n)
    }

    function CursorBackward(n: nat): Terminal
      requires n >= 1
    {
      this.(x := if x < n then 0 else x - n)
    }

    function DeleteCharacter(): Terminal { this.(row := Deleted(row, x)) }

    function EraseToLineEnd(): Terminal { this.(row := CutAt(row, x)) }

    function NextLine(): Terminal { this.(row := "", x := 0) }
  }

  /** Text that is written to an empty row is all that is there. */
  lemma {:induction false} WritePrompt(t: Terminal, text: string)
    requires |t.row| == t.x
    ensures t.Write(text) == Terminal(t.row + text, t.x + |text|, t.irm)
    decreases |text|
  {
    if text == "" {
      assert t.row + text == t.row;
    } else {
      assert Inserted(t.row, t.x, text[0]) == t.row + [text[0]] == Replaced(t.row, t.x, text[0]);
      WritePrompt(t.Put(text[0]), text[1..]);
      assert t.row + [text[0]] + text[1..] == t.row + text;
    }
  }

  // -------------------------------------------------------------------------------- the editor

  datatype Key = Left | Right | Delete | Insert | Home | End | Up | Down | Byte(c: char)

  const TABSTOP := 4

  predicate Printable(c: char) { ' ' <= c <= '~' || c in {'\t', '\n', '\r', '\U{b}', '\U{c}'} }

  /** Nothing in the text moves the cursor by itself. */
  predicate OneRow(text: string) { '\r' !in text && '\n' !in text }

  lemma StaysOneRow(b: string, k: nat, c: char)
    requires OneRow(b) && k <= |b| && c != '\r' && c != '\n'
    ensures OneRow(Inserted(b, k, c)) && OneRow(Replaced(b, k, c)) && OneRow(Deleted(b, k))
  {
  }

  /** What is being edited, with no terminal in sight. */
  datatype Edit = Edit(
    text: string,
    at: nat,
    insertMode: bool,
    history: seq<string>,
    position: nat,
    received: seq<string>)

  function Blanks(n: nat): string { seq(n, _ => ' ') }

  /** A character typed at the cursor. */
  function Type(e: Edit, c: char): Edit
    requires e.at <= |e.text|
  {
    e.(text := if e.insertMode then Inserted(e.text, e.at, c) else Replaced(e.text, e.at, c), at := e.at + 1)
  }

  function Recall(e: Edit, position: nat): Edit {
    if position < |e.history| then e.(text := e.history[position], at := |e.history[position]|, position := position)
    else e.(text := "", at := 0, position := |e.history|)
  }

  function OnUp(e: Edit): Edit {
    var e' := if e.text != "" && e.position == |e.history| then e.(history := e.history + [e.text]) else e;
    if e.position > 0 then Recall(e', e.position - 1) else e'
  }

  function OnReturn(e: Edit): Edit {
    var history := if e.text != "" then e.history + [e.text] else e.history;
    e.(text := "", at := 0, history := history, position := |history|, received := e.received + [e.text])
  }

  function OnByte(e: Edit, c: char): Edit
    requires e.at <= |e.text|
  {
    if c == '\r' || c == '\n' then OnReturn(e)
    else if c == '\t' then
      var n := TABSTOP - |e.text| % TABSTOP;
      e.(text := e.text + Blanks(n), at := e.at + n)
    else if c == '\U{7f}' then
      if e.at == 0 then e else e.(text := Deleted(e.text, e.at - 1), at := e.at - 1)
    else if Printable(c) then Type(e, c)
    else e
  }

  function OnKey(e: Edit, key: Key): Edit
    requires e.at <= |e.text|
  {
    match key
    case Left => if e.at > 0 then e.(at := e.at - 1) else e
    case Right => if e.at < |e.text| then e.(at := e.at + 1) else e
    case Home => e.(at := 0)
    case End => e.(at := |e.text|)
    case Delete => e.(text := Deleted(e.text, e.at))
    case Insert => e.(insertMode := !e.insertMode)
    case Up => OnUp(e)
    case Down => Recall(e, e.position + 1)
    case Byte(c) => OnByte(e, c)
  }

  /** Going up from an unfinished line and down again brings it back, exactly if there was a line to
      go up to: otherwise going down clears it. */
  lemma UnfinishedLineComesBack(e: Edit)
    requires e.at <= |e.text| && e.text != "" && e.position == |e.history|
    ensures OnKey(OnKey(e, Up), Down).text == e.text <==> e.history != []
    ensures OnKey(OnKey(e, Up), Down).history == e.history + [e.text]
  {
  }

  /** A backspace takes back what was typed in insert mode. */
  lemma BackspaceUndoesTyping(e: Edit, c: char)
    requires e.at <= |e.text| && e.insertMode && Printable(c) && c !in {'\r', '\n', '\t'}
    ensures OnByte(OnByte(e, c), '\U{7f}') == e
  {
    var typed := OnByte(e, c);
    assert typed.text[..e.at] + typed.text[e.at + 1..] == e.text;
  }

  /** The arrow keys move the cursor by one character, and back; at the ends of the line they do nothing. */
  lemma ArrowsMoveByOne(e: Edit)
    requires e.at <= |e.text|
    ensures OnKey(e, Right) == e.(at := if e.at < |e.text| then e.at + 1 else e.at)
    ensures e.at < |e.text| ==> OnKey(OnKey(e, Right), Left) == e
    ensures e.at > 0 ==> OnKey(OnKey(e, Left), Right) == e
    ensures e.at == 0 ==> OnKey(e, Left) == e
  {
  }

  /** Home is Left until nothing moves any more, End is Right until then. */
  lemma HomeIsAllTheWayLeft(e: Edit)
    requires e.at <= |e.text|
    ensures OnKey(e, Home) == if OnKey(e, Left) == e then e else OnKey(OnKey(e, Left), Home)
    ensures OnKey(e, End) == if OnKey(e, Right) == e then e else OnKey(OnKey(e, Right), End)
    ensures OnKey(e, Home).at == 0 && OnKey(e, End).at == |e.text|
  {
  }

  /** Delete is a step to the right and a backspace; at the end of the line it does nothing. */
  lemma DeleteIsBackspaceFromTheRight(e: Edit)
    requires e.at <= |e.text|
    ensures OnKey(e, Delete) == if e.at < |e.text| then OnKey(OnKey(e, Right), Byte('\U{7f}')) else e
  {
  }

  /** Insert switches between the modes, and does nothing else: a character goes before the one at the
      cursor, or in its place. */
  lemma InsertSwitchesModes(e: Edit, c: char)
    requires e.at <= |e.text| && ' ' <= c <= '~'
    ensures OnKey(OnKey(e, Insert), Insert) == e && OnKey(e, Insert).insertMode == !e.insertMode
    ensures var t := OnKey(e, Byte(c));
            && t == e.(text := t.text, at := e.at + 1) && t.text[..t.at] == e.text[..e.at] + [c]
            && t.text[t.at..] == if e.insertMode || e.at == |e.text| then e.text[e.at..] else e.text[e.at + 1..]
  {
  }

  /** Up and Down show the lines of the history, one after the other, each with the cursor at its end. */
  lemma HistoryIsWalked(e: Edit)
    requires e.at <= |e.text| && e.position < |e.history| && e.text == e.history[e.position] && e.at == |e.text|
    ensures e.position > 0 ==> OnKey(e, Up).text == e.history[e.position - 1] && OnKey(OnKey(e, Up), Down) == e
    ensures e.position == 0 ==> OnKey(e, Up) == e
    ensures e.position + 1 < |e.history| ==>
              OnKey(e, Down).text == e.history[e.position + 1] && OnKey(OnKey(e, Down), Up) == e
    ensures e.position + 1 == |e.history| ==> OnKey(e, Down).text == "" && OnKey(OnKey(e, Down), Up) == e
  {
  }

  /** Tab moves the cursor to a tab stop exactly if it was as far past one as the end of the line was;
      at the end of a line, that is always the next one. */
  lemma TabReachesTabStop(e: Edit)
    requires e.at <= |e.text|
    ensures var at := OnByte(e, '\t').at;
            && e.at < at <= e.at + TABSTOP && (at % TABSTOP == 0 <==> e.at % TABSTOP == |e.text| % TABSTOP)
  {
  }

  /** In a line of one character with the cursor at its start, it does not. */
  lemma TabMissesTabStop(e: Edit)
    requires e.text == "x" && e.at == 0
    ensures OnByte(e, '\t').at == 3
  {
  }

  /** `HistoricRecvLine`, with what it inherits from `RecvLine`. */
  class LineBuffer {
    var lineBuffer: string
    var lineBufferIndex: nat
    var insertMode: bool
    var terminal: Terminal
    var historyLines: seq<string>
    var historyPosition: nat
    ghost var prompt: string
    ghost var received: seq<string>     // the lines that lineReceived got

    ghost function Model(): Edit
      reads this
    {
      Edit(lineBuffer, lineBufferIndex, insertMode, historyLines, historyPosition, received)
    }

    /** The row shows the prompt and the line, and the cursor is where the line is edited. */
    ghost predicate InStep()
      reads this
    {
      && SameRow(terminal.row, prompt + lineBuffer)
      && terminal.x == |prompt| + lineBufferIndex && terminal.irm == insertMode
    }

    ghost predicate Valid()
      reads this
    {
      && InStep() && lineBufferIndex <= |lineBuffer| && historyPosition <= |historyLines|
      && OneRow(prompt) && OneRow(lineBuffer) && forall k :: 0 <= k < |historyLines| ==> OneRow(historyLines[k])
    }

    /** `initializeScreen`: the terminal is reset, and shows the prompt. */
    constructor (ps: string)
      requires OneRow(ps)
      ensures Valid() && lineBuffer == "" && insertMode && historyLines == [] && prompt == ps && received == []
    {
      lineBuffer, lineBufferIndex, insertMode, historyLines, historyPosition := "", 0, true, [], 0;
      prompt, received := ps, [];
      var t := Terminal("", 0, false).Write(ps);
      WritePrompt(Terminal("", 0, false), ps);
      terminal := t.(irm := true);
      assert ps + "" == ps;
    }

    /** `characterReceived`. */
    method CharacterReceived(c: char)
      requires Valid() && c != '\r' && c != '\n'
      modifies this`lineBuffer, this`lineBufferIndex, this`terminal
      ensures Valid() && lineBufferIndex == old(lineBufferIndex) + 1
      ensures lineBuffer == if insertMode then Inserted(old(lineBuffer), old(lineBufferIndex), c)
                            else Replaced(old(lineBuffer), old(lineBufferIndex), c)
    {
      hide At, SameRow, Inserted, Replaced, Deleted, CutAt, OneRow;
      Spliced(lineBuffer, lineBufferIndex, c);
      InsertedInSecond(prompt, lineBuffer, lineBufferIndex, c);
      ReplacedInSecond(prompt, lineBuffer, lineBufferIndex, c);
      OperationsRespectBlanks(terminal.row, prompt + lineBuffer, terminal.x, c);
      StaysOneRow(lineBuffer, lineBufferIndex, c);
      var before, after := lineBuffer[..lineBufferIndex], lineBuffer[lineBufferIndex..];
      lineBuffer := before + [c] + if insertMode || after == "" then after else after[1..];
      lineBufferIndex := lineBufferIndex + 1;
      terminal := terminal.Put(c);
    }

    lemma Spliced(b: string, k: nat, c: char)
      requires k <= |b|
      ensures b[..k] + [c] + b[k..] == Inserted(b, k, c)
      ensures b[..k] + [c] + (if b[k..] == "" then b[k..] else b[k..][1..]) == Replaced(b, k, c)
    {
    }

    lemma Removed(b: string, k: nat)
      requires k < |b|
      ensures b[..k] + b[k + 1..] == Deleted(b, k)
    {
    }

    /** `handle_TAB`: blanks go to the end of the line, however far from it the cursor is. */
    method HandleTab()
      requires Valid()
      modifies this`lineBuffer, this`lineBufferIndex, this`terminal
      ensures Valid() && |lineBuffer| % TABSTOP == 0 && |old(lineBuffer)| < |lineBuffer| <= |old(lineBuffer)| + TABSTOP
      ensures lineBuffer == old(lineBuffer) + Blanks(|lineBuffer| - |old(lineBuffer)|)
      ensures lineBufferIndex == old(lineBufferIndex) + |lineBuffer| - |old(lineBuffer)|
    {
      var n := TABSTOP - |lineBuffer| % TABSTOP;
      terminal := terminal.CursorForward(n);
      lineBufferIndex := lineBufferIndex + n;
      ghost var before := lineBuffer;
      lineBuffer := lineBuffer + Blanks(n);
      assert forall i: nat :: At(prompt + lineBuffer, i) == At(prompt + before, i);
    }

    method HandleLeft()
      requires Valid()
      modifies this`lineBufferIndex, this`terminal
      ensures Valid() && lineBufferIndex == if old(lineBufferIndex) > 0 then old(lineBufferIndex) - 1 else 0
    {
      if lineBufferIndex > 0 {
        lineBufferIndex := lineBufferIndex - 1;
        terminal := terminal.CursorBackward(1);
      }
    }

    method HandleRight()
      requires Valid()
      modifies this`lineBufferIndex, this`terminal
      ensures Valid()
      ensures lineBufferIndex == if old(lineBufferIndex) < |lineBuffer| then old(lineBufferIndex) + 1 else |lineBuffer|
    {
      if lineBufferIndex < |lineBuffer| {
        lineBufferIndex := lineBufferIndex + 1;
        terminal := terminal.CursorForward(1);
      }
    }

    method HandleHome()
      requires Valid()
      modifies this`lineBufferIndex, this`terminal
      ensures Valid() && lineBufferIndex == 0 && terminal.row == old(terminal.row)
    {
      if lineBufferIndex != 0 {
        terminal := terminal.CursorBackward(lineBufferIndex);
        lineBufferIndex := 0;
      }
    }

    method HandleEnd()
      requires Valid()
      modifies this`lineBufferIndex, this`terminal
      ensures Valid() && lineBufferIndex == |lineBuffer|
    {
      var offset := |lineBuffer| - lineBufferIndex;
      if offset != 0 {
        terminal := terminal.CursorForward(offset);
        lineBufferIndex := |lineBuffer|;
      }
    }

    method HandleBackspace()
      requires Valid()
      modifies this`lineBuffer, this`lineBufferIndex, this`terminal
      ensures Valid()
      ensures if old(lineBufferIndex) == 0 then lineBuffer == old(lineBuffer) && lineBufferIndex == 0
              else lineBufferIndex == old(lineBufferIndex) - 1
                   && lineBuffer == Deleted(old(lineBuffer), lineBufferIndex)
    {
      if lineBufferIndex > 0 {
        lineBufferIndex := lineBufferIndex - 1;
        terminal := terminal.CursorBackward(1);
        RemoveAtCursor();
      }
    }

    method HandleDelete()
      requires Valid()
      modifies this`lineBuffer, this`terminal
      ensures Valid()
      ensures lineBuffer == Deleted(old(lineBuffer), lineBufferIndex)
    {
      if lineBufferIndex < |lineBuffer| {
        RemoveAtCursor();
      }
    }

    /** How both of them end. */
    method RemoveAtCursor()
      requires Valid() && lineBufferIndex < |lineBuffer|
      modifies this`lineBuffer, this`terminal
      ensures Valid() && lineBuffer == Deleted(old(lineBuffer), lineBufferIndex)
    {
      hide At, SameRow, Inserted, Replaced, Deleted, CutAt, OneRow;
      Removed(lineBuffer, lineBufferIndex);
      DeletedInSecond(prompt, lineBuffer, lineBufferIndex);
      OperationsRespectBlanks(terminal.row, prompt + lineBuffer, terminal.x, ' ');
      StaysOneRow(lineBuffer, lineBufferIndex, ' ');
      lineBuffer := lineBuffer[..lineBufferIndex] + lineBuffer[lineBufferIndex + 1..];
      terminal := terminal.DeleteCharacter();
    }

    method HandleInsert()
      requires Valid()
      modifies this`insertMode, this`terminal
      ensures Valid() && insertMode == !old(insertMode)
    {
      insertMode := !insertMode;
      terminal := terminal.(irm := insertMode);
    }

    /** `handle_RETURN`; `lineReceived` of a subclass writes the prompt for the next line. */
    method HandleReturn(next: string)
      requires Valid() && OneRow(next)
      modifies this
      ensures Valid() && lineBuffer == "" && prompt == next && received == old(received) + [old(lineBuffer)]
      ensures historyLines == old(historyLines) + if old(lineBuffer) != "" then [old(lineBuffer)] else []
      ensures historyPosition == |historyLines| && insertMode == old(insertMode)
    {
      if lineBuffer != "" {
        historyLines := historyLines + [lineBuffer];
      }
      historyPosition := |historyLines|;
      received := received + [lineBuffer];
      lineBuffer := "";
      lineBufferIndex := 0;
      terminal := terminal.NextLine();
      WritePrompt(terminal, next);
      terminal := terminal.Write(next);
      prompt := next;
      assert "" + next == next && next + "" == next;
    }

    /** `handle_HOME`, `eraseToLineEnd` and a new, empty buffer. */
    method ClearLine()
      requires Valid()
      modifies this`lineBuffer, this`lineBufferIndex, this`terminal
      ensures Valid() && lineBuffer == "" && lineBufferIndex == 0
    {
      HandleHome();
      OperationsRespectBlanks(terminal.row, prompt + lineBuffer, terminal.x, ' ');
      assert CutAt(prompt + lineBuffer, |prompt|) == prompt + "";
      hide At, SameRow, CutAt;
      terminal := terminal.EraseToLineEnd();
      lineBuffer := "";
    }

    /** `_deliverBuffer` into an empty line. */
    method DeliverBuffer(buf: string)
      requires Valid() && OneRow(buf) && lineBuffer == "" && lineBufferIndex == 0
      modifies this`lineBuffer, this`lineBufferIndex, this`terminal
      ensures Valid() && lineBuffer == buf && lineBufferIndex == |buf|
    {
      var i := 0;
      while i < |buf|
        invariant 0 <= i <= |buf| && Valid() && lineBuffer == buf[..i] && lineBufferIndex == i
      {
        CharacterReceived(buf[i]);
        assert buf[..i + 1] == buf[..i] + [buf[i]];
        i := i + 1;
      }
    }

    /** `handle_UP`: an unfinished last line joins the history first. */
    method HandleUp()
      requires Valid()
      modifies this`lineBuffer, this`lineBufferIndex, this`terminal, this`historyLines, this`historyPosition
      ensures Valid()
      ensures historyLines == old(historyLines) +
                if old(lineBuffer) != "" && old(historyPosition) == |old(historyLines)| then [old(lineBuffer)] else []
      ensures if old(historyPosition) == 0 then historyPosition == 0 && lineBuffer == old(lineBuffer)
                   && lineBufferIndex == old(lineBufferIndex)
              else historyPosition == old(historyPosition) - 1 && lineBuffer == historyLines[historyPosition]
                   && lineBufferIndex == |lineBuffer|
    {
      if lineBuffer != "" && historyPosition == |historyLines| {
        historyLines := historyLines + [lineBuffer];
      }
      if historyPosition > 0 {
        ClearLine();
        historyPosition := historyPosition - 1;
        DeliverBuffer(historyLines[historyPosition]);
      }
    }

    method HandleDown()
      requires Valid()
      modifies this`lineBuffer, this`lineBufferIndex, this`terminal, this`historyPosition
      ensures Valid()
      ensures if old(historyPosition) < |historyLines| - 1
              then historyPosition == old(historyPosition) + 1 && lineBuffer == historyLines[historyPosition]
                   && lineBufferIndex == |lineBuffer|
              else historyPosition == |historyLines| && lineBuffer == ""
    {
      ClearLine();
      if historyPosition < |historyLines| - 1 {
        historyPosition := historyPosition + 1;
        DeliverBuffer(historyLines[historyPosition]);
      } else {
        historyPosition := |historyLines|;
      }
    }

    /** `keystrokeReceived`. */
    method KeystrokeReceived(key: Key, next: string)
      requires Valid() && OneRow(next)
      modifies this
      ensures Valid() && Model() == OnKey(old(Model()), key)
      ensures prompt == if received == old(received) then old(prompt) else next
      ensures old(received) <= received
    {
      hide Inserted, Replaced, Deleted, At, SameRow;
      match key {
        case Left => HandleLeft();
        case Right => HandleRight();
        case Delete => HandleDelete();
        case Insert => HandleInsert();
        case Home => HandleHome();
        case End => HandleEnd();
        case Up => HandleUp();
        case Down => HandleDown();
        case Byte(c) => ByteReceived(c, next);
      }
    }

    method ByteReceived(c: char, next: string)
      requires Valid() && OneRow(next)
      modifies this
      ensures Valid() && Model() == OnByte(old(Model()), c)
      ensures prompt == if received == old(received) then old(prompt) else next
      ensures old(received) <= received
    {
      hide Inserted, Replaced, Deleted, At, SameRow, OneRow;
      if c == '\r' || c == '\n' {
        HandleReturn(next);
      } else if c == '\t' {
        HandleTab();
      } else if c == '\U{7f}' {
        HandleBackspace();
      } else if Printable(c) {
        CharacterReceived(c);
      }
    }

    /** Any run of keys: the row, the cursor and the positions stay right, and what is edited is what
        the keys say. */
    method Typed(keys: seq<Key>, next: string)
      requires Valid() && OneRow(next)
      modifies this
      ensures Valid() && Model() == OnKeys(old(Model()), keys)
      ensures prompt == if received == old(received) then old(prompt) else next
    {
      hide InStep, OnKey, OneRow;
      var i := 0;
      assert keys[..0] == [];
      while i < |keys|
        invariant 0 <= i <= |keys| && Valid() && Model() == OnKeys(old(Model()), keys[..i])
        invariant old(received) <= received
        invariant prompt == if received == old(received) then old(prompt) else next
      {
        KeystrokeReceived(keys[i], next);
        assert keys[..i + 1][..i] == keys[..i];
        i := i + 1;
      }
      assert keys[..i] == keys;
    }
  }

  /** The keys in order; the cursor never leaves the line. */
  function OnKeys(e: Edit, keys: seq<Key>): (r: Edit)
    requires e.at <= |e.text|
    ensures r.at <= |r.text|
  {
    if keys == [] then e
    else
      var before := OnKeys(e, keys[..|keys| - 1]);
      CursorStaysInside(before, keys[|keys| - 1]);
      OnKey(before, keys[|keys| - 1])
  }

  lemma CursorStaysInside(e: Edit, key: Key)
    requires e.at <= |e.text|
    ensures OnKey(e, key).at <= |OnKey(e, key).text|
  {
    if key.Byte? && key.c == '\U{7f}' && e.at > 0 {
      assert |Deleted(e.text, e.at - 1)| == |e.text| - 1;
    }
  }

  function Bytes(line: string): seq<Key> { seq(|line|, i requires 0 <= i < |line| => Byte(line[i])) }

  lemma {:induction false} TypingAppends(e: Edit, line: string)
    requires e.at == |e.text| && forall i :: 0 <= i < |line| ==> ' ' <= line[i] <= '~'
    ensures OnKeys(e, Bytes(line)) == e.(text := e.text + line, at := |e.text + line|)
    decreases |line|
  {
    if line == "" {
      assert e.text + line == e.text && Bytes(line) == [];
    } else {
      var front, last := line[..|line| - 1], line[|line| - 1];
      TypingAppends(e, front);
      assert Bytes(line)[..|line| - 1] == Bytes(front);
      assert e.text + front + [last] == e.text + line;
    }
  }

  /** A line that is typed and ended with Return is delivered as it was typed, and remembered if it is
      not empty; and Up shows it again. */
  lemma TypedLineIsDelivered(e: Edit, line: string)
    requires e.text == "" && e.at == 0 && forall i :: 0 <= i < |line| ==> ' ' <= line[i] <= '~'
    ensures var r := OnKeys(e, Bytes(line) + [Byte('\r')]);
            && r.received == e.received + [line] && r.text == "" && r.at == 0
            && r.history == e.history + (if line == "" then [] else [line]) && r.position == |r.history|
            && (line != "" ==> OnKey(r, Up).text == line)
  {
    TypingAppends(e, line);
    assert "" + line == line;
    var keys := Bytes(line) + [Byte('\r')];
    assert keys[..|keys| - 1] == Bytes(line);
  }
}
