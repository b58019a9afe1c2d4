/** What editing a line means: the text left and right of the cursor, the lines of the history, and
    which of them is shown. */
module LineModel {
  import opened Numbers

  /** The bytes read for one key; an escape brings two more, or four. */
  datatype Reading =
    | Char(c: Byte)
    | Escape(first: Byte, second: Byte)
    | LongEscape(first: Byte, second: Byte, third: Byte, fourth: Byte)

  /** The first two bytes after which an escape goes on. */
  predicate GoesOn(first: Byte, second: Byte) {
    first == 91 && 48 < second < 55
  }

  /** A key as it comes from the terminal. */
  type Key = r: Reading |
    match r {
      case Char(c) => c != 27
      case Escape(first, second) => !GoesOn(first, second)
      case LongEscape(first, second, _, _) => GoesOn(first, second)
    }
    witness Char(0)

  datatype Command =
    | Insert(c: Byte) | Backspace | CtrlD | Delete | Transpose | KillLine | KillRight
    | Left | Right | Home | End | Up | Down | Enter | Abort | Nothing

  function Meaning(key: Key): Command {
    match key
    case Char(13) => Enter
    case Char(3) => Abort
    case Char(127) => Backspace
    case Char(8) => Backspace
    case Char(4) => CtrlD
    case Char(20) => Transpose
    case Char(2) => Left
    case Char(6) => Right
    case Char(16) => Up
    case Char(14) => Down
    case Char(21) => KillLine
    case Char(11) => KillRight
    case Char(1) => Home
    case Char(5) => End
    case Char(12) => Nothing
    case Char(c) => Insert(c)
    case Escape(91, 68) => Left
    case Escape(91, 67) => Right
    case Escape(91, 65) => Up
    case Escape(91, 66) => Down
    case Escape(_, _) => Nothing
    case LongEscape(_, second, third, _) => if second == 51 && third == 126 then Delete else Nothing
  }

  /** The line that is edited: the text on either side of the cursor. */
  datatype Line = Line(left: seq<Byte>, right: seq<Byte>) {
    function Text(): seq<Byte> { left + right }
  }

  datatype Session = Session(line: Line, history: seq<seq<Byte>>, index: nat) {
    /** The place of the shown line in the history; 0 is the oldest. */
    function Slot(): int { |history| - 1 - index }
  }

  /** What a C string keeps of a text. */
  function CText(s: seq<Byte>): (t: seq<Byte>)
    ensures |t| <= |s| && t == s[..|t|] && 0 !in t
    ensures |t| < |s| ==> s[|t|] == 0
    ensures 0 !in s ==> t == s
  {
    if s == [] || s[0] == 0 then [] else [s[0]] + CText(s[1..])
  }

  lemma {:induction false} CTextIs(s: seq<Byte>, n: nat)
    requires n <= |s| && 0 !in s[..n] && (n == |s| || s[n] == 0)
    ensures CText(s) == s[..n]
  {
    if n > 0 {
      assert s[0] == s[..n][0];
      assert s[1..][..n - 1] == s[..n][1..];
      CTextIs(s[1..], n - 1);
    }
  }

  function Cut(s: seq<Byte>, capacity: nat): seq<Byte> {
    if |s| <= capacity then s else s[..capacity]
  }

  // ----- commands on a line -----

  function Edited(l: Line, command: Command, capacity: nat): Line {
    match command
    case Insert(c) => if |l.Text()| < capacity then Line(l.left + [c], l.right) else l
    case Backspace => if l.left == [] then l else Line(l.left[..|l.left| - 1], l.right)
    case CtrlD => if |l.right| <= 1 then l else Line(l.left, l.right[1..])
    case Delete => if l.right == [] then l else Line(l.left, l.right[1..])
    case Transpose =>
      if l.left == [] || l.right == [] then l
      else
        var before, x, y := l.left[..|l.left| - 1], l.left[|l.left| - 1], l.right[0];
        if |l.right| == 1 then Line(before + [y], [x]) else Line(before + [y, x], l.right[1..])
    case KillLine => Line([], [])
    case KillRight => Line(l.left, [])
    case Left => if l.left == [] then l else Line(l.left[..|l.left| - 1], [l.left[|l.left| - 1]] + l.right)
    case Right => if l.right == [] then l else Line(l.left + [l.right[0]], l.right[1..])
    case Home => Line([], l.Text())
    case End => Line(l.Text(), [])
    case _ => l
  }

  // ----- commands on the history -----

  predicate Proper(s: Session, capacity: nat) {
    && |s.line.Text()| <= capacity && s.index < |s.history|
    && forall i :: 0 <= i < |s.history| ==> 0 !in s.history[i]
  }

  /** The shown line goes back to its place, and the next older or newer one is shown. */
  function Moved(s: Session, up: bool, capacity: nat): Session
    requires Proper(s, capacity)
  {
    if |s.history| <= 1 then s
    else
      var stored := s.history[s.Slot() := CText(s.line.Text())];
      if up && s.index + 1 < |s.history| then
        Session(Line(Cut(stored[s.Slot() - 1], capacity), []), stored, s.index + 1)
      else if !up && s.index > 0 then
        Session(Line(Cut(stored[s.Slot() + 1], capacity), []), stored, s.index - 1)
      else Session(s.line, stored, s.index)
  }

  datatype Outcome = Going | Entered | Aborted

  function Ends(s: Session, command: Command): Outcome {
    if command == Enter then Entered
    else if command == Abort || (command == CtrlD && s.line.Text() == []) then Aborted
    else Going
  }

  function Commanded(s: Session, command: Command, capacity: nat): Session
    requires Proper(s, capacity)
  {
    match command
    case Up => Moved(s, true, capacity)
    case Down => Moved(s, false, capacity)
    case _ => s.(line := Edited(s.line, command, capacity))
  }

  lemma CommandedIsProper(s: Session, command: Command, capacity: nat)
    requires Proper(s, capacity)
    ensures Proper(Commanded(s, command, capacity), capacity)
    ensures |Commanded(s, command, capacity).history| == |s.history|
  {
  }

  // ----- what the keys do -----

  /** What becomes of the text and of the cursor, at `at` before and at `to` after, by the codes of the keys. */
  predicate KeyDoes(key: Key, text: seq<Byte>, at: nat, next: seq<Byte>, to: nat, capacity: nat)
    requires at <= |text|
  {
    var same := next == text && to == at;
    match key
    case Char(1) => next == text && to == 0
    case Char(5) => next == text && to == |text|
    case Char(2) | Escape(91, 68) => next == text && to == if at == 0 then 0 else at - 1
    case Char(6) | Escape(91, 67) => next == text && to == if at == |text| then at else at + 1
    case Char(127) | Char(8) => if at == 0 then same else next == text[..at - 1] + text[at..] && to == at - 1
    case Char(4) => if at + 1 < |text| then next == text[..at] + text[at + 1..] && to == at else same
    case Char(20) =>
      if 0 < at < |text| then
        next == text[..at - 1] + [text[at], text[at - 1]] + text[at + 1..]
        && to == if at + 1 == |text| then at else at + 1
      else same
    case Char(21) => next == [] && to == 0
    case Char(11) => next == text[..at] && to == at
    case Char(3) | Char(12) | Char(13) => same
    case Char(14) | Char(16) | Escape(91, 65) | Escape(91, 66) => true
    case Char(c) => if |text| < capacity then next == text[..at] + [c] + text[at..] && to == at + 1 else same
    case LongEscape(91, 51, 126, _) => if at < |text| then next == text[..at] + text[at + 1..] && to == at else same
    case _ => same
  }

  lemma MovesDo(l: Line, capacity: nat)
    ensures forall m :: m in [Left, Right, Home, End] ==> Edited(l, m, capacity).Text() == l.Text()
    ensures |Edited(l, Left, capacity).left| == if l.left == [] then 0 else |l.left| - 1
    ensures |Edited(l, Right, capacity).left| == if l.right == [] then |l.left| else |l.left| + 1
    ensures |Edited(l, Home, capacity).left| == 0 && |Edited(l, End, capacity).left| == |l.Text()|
  {
  }

  lemma DeletionsDo(l: Line, capacity: nat)
    ensures var text, at, next := l.Text(), |l.left|, Edited(l, Backspace, capacity);
      if at == 0 then next == l else next.Text() == text[..at - 1] + text[at..] && |next.left| == at - 1
    ensures var text, at, next := l.Text(), |l.left|, Edited(l, Delete, capacity);
      if at == |text| then next == l else next.Text() == text[..at] + text[at + 1..] && |next.left| == at
    ensures var text, at, next := l.Text(), |l.left|, Edited(l, CtrlD, capacity);
      if at + 1 >= |text| then next == l else next.Text() == text[..at] + text[at + 1..] && |next.left| == at
    ensures var text, at, next := l.Text(), |l.left|, Edited(l, KillRight, capacity);
      next.Text() == text[..at] && |next.left| == at
    ensures Edited(l, KillLine, capacity).Text() == [] && |Edited(l, KillLine, capacity).left| == 0
  {
    var text, at := l.Text(), |l.left|;
    assert text[..at] == l.left && text[at..] == l.right;
    if at > 0 { assert text[..at - 1] == l.left[..at - 1]; }
    if at < |text| { assert text[at + 1..] == l.right[1..]; }
    assert l.left + [] == l.left;
  }

  lemma InsertDoes(l: Line, c: Byte, capacity: nat)
    ensures var text, at, next := l.Text(), |l.left|, Edited(l, Insert(c), capacity);
      if |text| >= capacity then next == l else next.Text() == text[..at] + [c] + text[at..] && |next.left| == at + 1
  {
    assert l.Text()[..|l.left|] == l.left && l.Text()[|l.left|..] == l.right;
  }

  lemma KeysDo(key: Key, l: Line, capacity: nat)
    ensures var next := Edited(l, Meaning(key), capacity);
      KeyDoes(key, l.Text(), |l.left|, next.Text(), |next.left|, capacity)
  {
    hide Edited, Line.Text;
    MovesDo(l, capacity);
    DeletionsDo(l, capacity);
    if key.Char? { InsertDoes(l, key.c, capacity); }
    if l.left != [] && l.right != [] { TransposeDoes(l, capacity); }
    OthersDo(key, l, capacity);
  }

  lemma OthersDo(key: Key, l: Line, capacity: nat)
    ensures Meaning(key) in [Enter, Abort, Nothing, Up, Down] ==> Edited(l, Meaning(key), capacity) == l
    ensures l.left == [] || l.right == [] ==> Edited(l, Transpose, capacity) == l
    ensures |l.left| + |l.right| == |l.Text()|
  {
  }

  /** A key does what its command comes to, where moves in the history may show any line. */
  lemma KeysDoInSession(key: Key, s: Session, next: Session, capacity: nat)
    requires Proper(s, capacity)
    requires next.line == Edited(s.line, Meaning(key), capacity) || next == Commanded(s, Meaning(key), capacity)
    ensures KeyDoes(key, s.line.Text(), |s.line.left|, next.line.Text(), |next.line.left|, capacity)
  {
    hide Edited, Line.Text;
    KeysDo(key, s.line, capacity);
  }

  lemma TransposeDoes(l: Line, capacity: nat)
    requires l.left != [] && l.right != []
    ensures var text, at, next := l.Text(), |l.left|, Edited(l, Transpose, capacity);
      && next.Text() == text[..at - 1] + [text[at], text[at - 1]] + text[at + 1..]
      && |next.left| == if at + 1 == |text| then at else at + 1
  {
  }

  /** The up keys show the next older line of the history and the down keys the next newer one, if there is one,
      with the cursor at its end; the line that was shown is stored. */
  predicate HistoryKeyDoes(key: Key, s: Session, next: Session, capacity: nat)
    requires Proper(s, capacity)
  {
    var up := key == Char(16) || key == Escape(91, 65);
    var down := key == Char(14) || key == Escape(91, 66);
    var shown := |s.history| - 1 - s.index;
    if !up && !down then next.history == s.history && next.index == s.index
    else if |s.history| == 1 then next == s
    else
      var to := if up then shown - 1 else shown + 1;
      && next.history == s.history[shown := CText(s.line.left + s.line.right)]
      && (0 <= to < |s.history| ==>
            && next.index == |s.history| - 1 - to && next.line.right == []
            && next.line.left == if |s.history[to]| <= capacity then s.history[to] else s.history[to][..capacity])
      && (!(0 <= to < |s.history|) ==> next.line == s.line && next.index == s.index)
  }

  lemma HistoryKeysDo(key: Key, s: Session, capacity: nat)
    requires Proper(s, capacity)
    ensures HistoryKeyDoes(key, s, Commanded(s, Meaning(key), capacity), capacity)
  {
    hide Edited;
  }

  /** The keys that end a session, which leave the line as it is. */
  lemma EndingKeys(key: Key, s: Session, capacity: nat)
    ensures Ends(s, Meaning(key)) == Entered <==> key == Char(13)
    ensures Ends(s, Meaning(key)) == Aborted <==> key == Char(3) || (key == Char(4) && s.line.Text() == [])
    ensures Ends(s, Meaning(key)) != Going ==> Edited(s.line, Meaning(key), capacity) == s.line
  {
  }

  /** A character typed at the start of a line comes first in it, and one typed at its end comes last. */
  lemma TypingAtTheEnds(l: Line, c: Byte, capacity: nat)
    requires |l.Text()| < capacity
    ensures Edited(Edited(l, Home, capacity), Insert(c), capacity).Text() == [c] + l.Text()
    ensures Edited(Edited(l, End, capacity), Insert(c), capacity).Text() == l.Text() + [c]
  {
    assert [] + [c] + l.Text() == [c] + l.Text();
    assert l.Text() + [c] + [] == l.Text() + [c];
  }

  // ----- what undoes what -----

  /** Backspace undoes an insertion, and so does going back and deleting. */
  lemma InsertionIsUndone(l: Line, c: Byte, capacity: nat)
    requires |l.Text()| < capacity
    ensures Edited(Edited(l, Insert(c), capacity), Backspace, capacity) == l
    ensures Edited(Edited(Edited(l, Insert(c), capacity), Left, capacity), Delete, capacity) == l
  {
    var inserted := Edited(l, Insert(c), capacity);
    assert inserted.left[..|l.left|] == l.left;
    assert ([c] + l.right)[1..] == l.right;
  }

  /** Moving the cursor never changes the text, and one step back undoes one step. */
  lemma CursorMovesKeepTheText(l: Line, command: Command, capacity: nat)
    requires command.Left? || command.Right? || command.Home? || command.End?
    ensures Edited(l, command, capacity).Text() == l.Text()
    ensures command == Left && l.left != [] ==> Edited(Edited(l, Left, capacity), Right, capacity) == l
    ensures command == Right && l.right != [] ==> Edited(Edited(l, Right, capacity), Left, capacity) == l
  {
  }

  lemma Transposed(before: seq<Byte>, x: Byte, y: Byte, after: seq<Byte>, capacity: nat)
    ensures Edited(Line(before + [x], [y] + after), Transpose, capacity)
            == if after == [] then Line(before + [y], [x]) else Line(before + [y, x], after)
  {
    assert (before + [x])[..|before|] == before && ([y] + after)[1..] == after;
  }

  lemma Parts(l: Line) returns (before: seq<Byte>, x: Byte, y: Byte, after: seq<Byte>)
    requires l.left != [] && l.right != []
    ensures l == Line(before + [x], [y] + after) && |after| == |l.right| - 1
  {
    before, x, y, after := l.left[..|l.left| - 1], l.left[|l.left| - 1], l.right[0], l.right[1..];
  }

  /** Swapping two characters at the end of a line undoes itself; elsewhere it does after a step back. */
  lemma TransposingIsUndone(l: Line, capacity: nat)
    requires l.left != [] && l.right != []
    ensures var t := Edited(l, Transpose, capacity);
      && multiset(t.Text()) == multiset(l.Text())
      && if |l.right| == 1 then Edited(t, Transpose, capacity) == l
         else Edited(Edited(Edited(t, Left, capacity), Transpose, capacity), Left, capacity) == l
  {
    hide Edited;
    var before, x, y, after := Parts(l);
    Transposed(before, x, y, after, capacity);
    Transposed(before, y, x, after, capacity);
    assert multiset([x, y]) == multiset([y, x]);
    assert l.Text() == before + [x, y] + after;
    assert Edited(l, Transpose, capacity).Text() == before + [y, x] + after;
    if after == [] {
      assert [x] + after == [x] && [y] + after == [y];
    } else {
      StepBack(before + [y], x, after, capacity);
      assert before + [y] + [x] == before + [y, x];
      StepBack(before + [x], y, after, capacity);
      assert before + [x] + [y] == before + [x, y];
    }
  }

  lemma StepBack(before: seq<Byte>, x: Byte, after: seq<Byte>, capacity: nat)
    ensures Edited(Line(before + [x], after), Left, capacity) == Line(before, [x] + after)
  {
    assert (before + [x])[..|before|] == before;
  }

  // ----- the pages of a session -----

  /** Every line of the history, with what is being edited in its place. */
  function Pages(s: Session): (p: seq<seq<Byte>>)
    requires s.index < |s.history|
    ensures |p| == |s.history|
  {
    s.history[s.Slot() := s.line.Text()]
  }

  /** The page that a move shows. */
  function Target(s: Session, up: bool): int {
    if up && s.index + 1 < |s.history| then s.Slot() - 1
    else if !up && s.index > 0 then s.Slot() + 1
    else s.Slot()
  }

  /** Exactly when a move changes no page: the line has no zero byte and the line it shows fits. */
  lemma MovesKeepThePages(s: Session, up: bool, capacity: nat)
    requires Proper(s, capacity) && |s.history| > 1
    ensures Pages(Moved(s, up, capacity)) == Pages(s)
            <==> Target(s, up) == s.Slot() || (0 !in s.line.Text() && |s.history[Target(s, up)]| <= capacity)
  {
    var text, to, t := s.line.Text(), Target(s, up), Moved(s, up, capacity);
    if to != s.Slot() {
      assert t.Slot() == to && t.history[to] == s.history[to];
      assert t.line.Text() == Cut(s.history[to], capacity);
      assert Pages(t)[to] == Cut(s.history[to], capacity) && Pages(s)[to] == s.history[to];
      assert Pages(t)[s.Slot()] == CText(text) && Pages(s)[s.Slot()] == text;
      if 0 in text { assert CText(text) != text; }
    }
  }

  /** Any other command changes at most the page that is shown. */
  lemma EditsKeepOtherPages(s: Session, command: Command, capacity: nat, i: nat)
    requires Proper(s, capacity) && command != Up && command != Down && i < |s.history| && i != s.Slot()
    ensures Pages(Commanded(s, command, capacity))[i] == Pages(s)[i]
    ensures Commanded(s, command, capacity).Slot() == s.Slot()
  {
  }

  /** Up and down again: the line is back, with the cursor at its end. */
  lemma UpThenDown(s: Session, capacity: nat)
    requires Proper(s, capacity) && s.index + 1 < |s.history| && 0 !in s.line.Text()
    ensures Moved(Moved(s, true, capacity), false, capacity).line == Line(s.line.Text(), [])
    ensures Moved(Moved(s, true, capacity), false, capacity).index == s.index
  {
  }

  // ----- whole sessions -----

  /** No zero byte is on the line and every line of the history fits in the buffer. */
  predicate Clean(s: Session, capacity: nat) {
    0 !in s.line.Text() && forall i :: 0 <= i < |s.history| ==> |s.history[i]| <= capacity
  }

  lemma CommandedIsClean(s: Session, command: Command, capacity: nat)
    requires Proper(s, capacity) && Clean(s, capacity) && command != Insert(0)
    ensures Clean(Commanded(s, command, capacity), capacity)
  {
    var l := s.line;
    assert forall i :: 0 <= i < |l.left| ==> l.Text()[i] == l.left[i];
    assert forall i :: 0 <= i < |l.right| ==> l.Text()[|l.left| + i] == l.right[i];
  }

  function Played(s: Session, commands: seq<Command>, capacity: nat): Session
    requires Proper(s, capacity)
    decreases |commands|
  {
    if commands == [] then s
    else
      CommandedIsProper(s, commands[0], capacity);
      Played(Commanded(s, commands[0], capacity), commands[1..], capacity)
  }

  predicate KeepsText(command: Command) {
    command.Left? || command.Right? || command.Home? || command.End? || command.Nothing?
    || command.Enter? || command.Abort? || command.Up? || command.Down?
  }

  /** Whenever page `i` is shown, the command keeps the text. */
  predicate Untouched(s: Session, commands: seq<Command>, capacity: nat, i: nat)
    requires Proper(s, capacity)
    decreases |commands|
  {
    commands == [] ||
    (CommandedIsProper(s, commands[0], capacity);
     && (s.Slot() == i ==> KeepsText(commands[0]))
     && Untouched(Commanded(s, commands[0], capacity), commands[1..], capacity, i))
  }

  lemma OneCommandKeeps(s: Session, command: Command, capacity: nat, i: nat)
    requires Proper(s, capacity) && Clean(s, capacity) && i < |s.history|
    requires s.Slot() == i ==> KeepsText(command)
    ensures |Commanded(s, command, capacity).history| == |s.history|
    ensures Proper(Commanded(s, command, capacity), capacity)
    ensures Pages(Commanded(s, command, capacity))[i] == Pages(s)[i]
  {
    hide Edited;
    CommandedIsProper(s, command, capacity);
    if command == Up || command == Down {
      if |s.history| > 1 { MovesKeepThePages(s, command == Up, capacity); }
    } else if s.Slot() != i {
      EditsKeepOtherPages(s, command, capacity, i);
    } else {
      TextIsKept(s.line, command, capacity);
    }
  }

  lemma TextIsKept(l: Line, command: Command, capacity: nat)
    requires KeepsText(command)
    ensures Edited(l, command, capacity).Text() == l.Text()
  {
    if command.Left? || command.Right? || command.Home? || command.End? {
      CursorMovesKeepTheText(l, command, capacity);
    }
  }

  /** However one moves about in the history and edits, a page changes only by edits made on it. */
  lemma {:induction false} PagesKeepTheirEdits(s: Session, commands: seq<Command>, capacity: nat, i: nat)
    requires Proper(s, capacity) && Clean(s, capacity) && i < |s.history|
    requires Insert(0) !in commands && Untouched(s, commands, capacity, i)
    ensures Proper(Played(s, commands, capacity), capacity)
    ensures |Played(s, commands, capacity).history| == |s.history|
    ensures Pages(Played(s, commands, capacity))[i] == Pages(s)[i]
    decreases |commands|
  {
    hide Pages, Commanded, Clean;
    if commands != [] {
      OneCommandKeeps(s, commands[0], capacity, i);
      CommandedIsClean(s, commands[0], capacity);
      PagesKeepTheirEdits(Commanded(s, commands[0], capacity), commands[1..], capacity, i);
    }
  }
}
