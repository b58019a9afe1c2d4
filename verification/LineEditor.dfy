/** The line editor: a buffer that is edited in place, a history, and the part of the line that fits
    on the screen. */
module LineEditor {
  import opened LineModel
  import opened Numbers

  const SIZE_T := 0x1_0000_0000_0000_0000

  /** The part of the line that is shown, and the column of the cursor within it: the text moves left
      until the cursor is on the screen, and is then cut at the right edge.  With a prompt as wide as
      the screen the cursor would have to leave the line at the left.  The first loop is followed for
      `turns` turns; on a screen of no columns it `ends` in no number of them. */
  method Window(plen: nat, length: nat, position: nat, cols: nat, turns: nat)
    returns (ends: bool, start: nat, len: int, pos: int)
    requires position <= length && plen + length < SIZE_T
    ensures ends <==> 0 < cols && plen + position < cols + turns
    ensures pos == position - start
    ensures ends ==>
      && plen + pos < cols && (start > 0 ==> plen + pos == cols - 1)
      && len <= length - start && plen + len <= cols && (len < length - start ==> plen + len == cols)
      && (0 <= pos <==> plen < cols)
      && (plen < cols ==> start <= position && pos <= len)
  {
    start, len, pos := 0, length, position;
    while start < turns && (plen + pos) % SIZE_T >= cols
      invariant start <= turns && pos == position - start && len == length - start
      invariant 0 < cols && start > 0 ==> plen + pos >= cols - 1
      decreases turns - start
    {
      start, len, pos := start + 1, len - 1, pos - 1;
    }
    ends := (plen + pos) % SIZE_T < cols;
    if !ends { return; }
    while (plen + len) % SIZE_T > cols
      invariant len <= length - start && plen + len >= plen + pos
      invariant len < length - start ==> plen + len >= cols
    {
      len := len - 1;
    }
  }

  class Editor {
    const buf: array<Byte>
    const buflen: nat
    const historyMaxLen: nat
    var len: nat
    var pos: nat
    var history: seq<seq<Byte>>
    var historyIndex: nat

    ghost predicate Valid()
      reads this, buf
    {
      pos <= len <= buflen && buf.Length == buflen + 1 && buf[len] == 0
    }

    ghost function Shown(): Line
      requires Valid()
      reads this, buf
    {
      Line(buf[..pos], buf[pos..len])
    }

    ghost function State(): Session
      requires Valid()
      reads this, buf
    {
      Session(Shown(), history, historyIndex)
    }

    /** A line to edit, with what was entered before. */
    constructor (size: nat, history: seq<seq<Byte>>, historyMaxLen: nat)
      requires size > 0 && 0 < historyMaxLen && |history| <= historyMaxLen
      requires forall i :: 0 <= i < |history| ==> 0 !in history[i]
      ensures Valid() && fresh(buf) && buflen == size - 1 && Proper(State(), buflen)
      ensures State() == Session(Line([], []), Added(history, [], historyMaxLen), 0)
    {
      buflen, this.historyMaxLen := size - 1, historyMaxLen;
      buf := new Byte[size];
      len, pos, historyIndex := 0, 0, 0;
      this.history := history;
      new;
      buf[0] := 0;
      HistoryAdd([]);
    }

    method HistoryAdd(line: seq<Byte>)
      requires 0 < historyMaxLen && |history| <= historyMaxLen
      modifies this`history
      ensures history == (if |old(history)| == historyMaxLen then old(history)[1..] else old(history)) + [line]
    {
      if |history| == historyMaxLen { history := history[1..]; }
      history := history + [line];
    }

    method Move(to: nat, from: nat, n: nat)
      requires to + n <= buf.Length && from + n <= buf.Length
      modifies buf
      ensures buf[..] == old(buf[..to] + buf[from..from + n] + buf[to + n..])
    {
      forall i | 0 <= i < n {
        buf[to + i] := buf[from + i];
      }
    }

    method Insert(c: Byte)
      requires Valid()
      modifies this`len, this`pos, buf
      ensures Valid() && Shown() == Edited(old(Shown()), Command.Insert(c), buflen)
    {
      if len < buflen {
        if len == pos {
          buf[pos] := c;
          pos := pos + 1;
          len := len + 1;
          buf[len] := 0;
        } else {
          ghost var line := Shown();
          Move(pos + 1, pos, len - pos);
          buf[pos] := c;
          len := len + 1;
          pos := pos + 1;
          buf[len] := 0;
          assert buf[..pos] == line.left + [c] && buf[pos..len] == line.right;
        }
      }
    }

    method Backspace()
      requires Valid()
      modifies this`len, this`pos, buf
      ensures Valid() && Shown() == Edited(old(Shown()), Command.Backspace, buflen)
    {
      if pos > 0 && len > 0 {
        Move(pos - 1, pos, len - pos);
        pos := pos - 1;
        len := len - 1;
        buf[len] := 0;
      }
    }

    /** The last character of a line cannot be deleted this way. */
    method CtrlD() returns (outcome: Outcome)
      requires Valid()
      modifies this`len, buf
      ensures Valid() && Shown() == Edited(old(Shown()), Command.CtrlD, buflen)
      ensures outcome == if old(len) == 0 then Aborted else Going
    {
      outcome := Going;
      if len > 1 && pos < len - 1 {
        Move(pos, pos + 1, len - pos);
        len := len - 1;
        buf[len] := 0;
      } else if len == 0 {
        outcome := Aborted;
      }
    }

    method Delete()
      requires Valid()
      modifies this`len, buf
      ensures Valid() && Shown() == Edited(old(Shown()), Command.Delete, buflen)
    {
      if len > 0 && pos < len {
        Move(pos, pos + 1, len - pos - 1);
        len := len - 1;
        buf[len] := 0;
      }
    }

    method Transpose()
      requires Valid()
      modifies this`pos, buf
      ensures Valid() && Shown() == Edited(old(Shown()), Command.Transpose, buflen)
    {
      if pos > 0 && pos < len {
        var aux := buf[pos - 1];
        buf[pos - 1] := buf[pos];
        buf[pos] := aux;
        if pos != len - 1 { pos := pos + 1; }
      }
    }

    method KillLine()
      requires Valid()
      modifies this`len, this`pos, buf
      ensures Valid() && Shown() == Edited(old(Shown()), Command.KillLine, buflen)
    {
      buf[0] := 0;
      pos, len := 0, 0;
    }

    method KillRight()
      requires Valid()
      modifies this`len, buf
      ensures Valid() && Shown() == Edited(old(Shown()), Command.KillRight, buflen)
    {
      buf[pos] := 0;
      len := pos;
    }

    method MoveCursor(command: Command)
      requires Valid() && (command.Left? || command.Right? || command.Home? || command.End?)
      modifies this`pos
      ensures Valid() && Shown() == Edited(old(Shown()), command, buflen)
    {
      match command
      case Left => if pos > 0 { pos := pos - 1; }
      case Right => if pos != len { pos := pos + 1; }
      case Home => pos := 0;
      case End => pos := len;
    }

    /** What a C string finds in the buffer. */
    method StrDup() returns (text: seq<Byte>)
      requires Valid()
      ensures text == CText(Shown().Text())
    {
      ghost var line := Shown().Text();
      assert line == buf[..len];
      var i := 0;
      while buf[i] != 0
        invariant i <= len && forall k :: 0 <= k < i ==> buf[k] != 0
        decreases len - i
      {
        i := i + 1;
      }
      CTextIs(line, i);
      return buf[..i];
    }

    method Load(text: seq<Byte>)
      requires Valid() && 0 !in text
      modifies this`len, this`pos, buf
      ensures Valid() && Shown() == Line(Cut(text, buflen), [])
    {
      forall i | 0 <= i < buflen {
        buf[i] := if i < |text| then text[i] else 0;
      }
      buf[buflen] := 0;
      assert forall i :: 0 <= i < |text| ==> text[i] != 0;
      var n := 0;
      while buf[n] != 0
        invariant n <= buflen && n <= |text|
        decreases buflen - n
      {
        n := n + 1;
      }
      len, pos := n, n;
      assert buf[..pos] == Cut(text, buflen);
      assert buf[pos..len] == [];
    }

    /** The line goes back into the history before another one is loaded. */
    method ShowHistory(up: bool)
      requires Valid() && Proper(State(), buflen)
      modifies this`len, this`pos, this`history, this`historyIndex, buf
      ensures Valid() && State() == Moved(old(State()), up, buflen)
    {
      hide CText, Cut, Line.Text;
      if |history| > 1 {
        var slot := |history| - 1 - historyIndex;
        var text := StrDup();
        history := history[slot := text];
        var next: int := if up then historyIndex + 1 else historyIndex - 1;
        if next < 0 {
          historyIndex := 0;
        } else if next >= |history| {
          historyIndex := |history| - 1;
        } else {
          historyIndex := next;
          Load(history[|history| - 1 - historyIndex]);
        }
      }
    }

    /** The switch over the keys. */
    method Obey(key: Key) returns (outcome: Outcome)
      requires Valid() && Proper(State(), buflen)
      modifies this`len, this`pos, this`history, this`historyIndex, buf
      ensures Valid() && outcome == Ends(old(State()), Meaning(key))
      ensures outcome == Going ==> State() == Commanded(old(State()), Meaning(key), buflen)
      ensures outcome != Going ==> Shown() == old(Shown())
      ensures outcome != Going ==>
        history == if key == Char(3) then old(history) else old(history)[..|old(history)| - 1]
    {
      hide Moved;
      outcome := Going;
      var command := Meaning(key);
      match command
      case Insert(c) => Insert(c);
      case Backspace => Backspace();
      case CtrlD =>
        outcome := CtrlD();
        if outcome == Aborted { history := history[..|history| - 1]; }
      case Delete => Delete();
      case Transpose => Transpose();
      case KillLine => KillLine();
      case KillRight => KillRight();
      case Up => ShowHistory(true);
      case Down => ShowHistory(false);
      case Enter =>
        history := history[..|history| - 1];
        outcome := Entered;
      case Abort => outcome := Aborted;
      case Nothing =>
      case _ => MoveCursor(command);
    }

    /** One key.  Enter, and ctrl-d on an empty line, take the current line out of the history; ctrl-c
        leaves it there. */
    method Press(key: Key) returns (outcome: Outcome)
      requires Valid() && Proper(State(), buflen)
      modifies this`len, this`pos, this`history, this`historyIndex, buf
      ensures Valid() && outcome == Ends(old(State()), Meaning(key))
      ensures outcome == Entered <==> key == Char(13)
      ensures outcome == LineModel.Aborted <==> key == Char(3) || (key == Char(4) && old(len) == 0)
      ensures KeyDoes(key, old(buf[..len]), old(pos), buf[..len], pos, buflen)
      ensures outcome == Going ==> HistoryKeyDoes(key, old(State()), State(), buflen)
      ensures outcome == Going ==> State() == Commanded(old(State()), Meaning(key), buflen)
      ensures outcome != Going ==> Shown() == old(Shown())
      ensures outcome != Going ==>
        history == if key == Char(3) then old(history) else old(history)[..|old(history)| - 1]
    {
      hide Commanded, Edited, Ends, Meaning, KeyDoes, HistoryKeyDoes;
      ghost var before := State();
      HistoryKeysDo(key, before, buflen);
      EndingKeys(key, before, buflen);
      assert before.line.Text() == buf[..len];
      outcome := Obey(key);
      KeysDoInSession(key, before, State(), buflen);
      assert Shown().Text() == buf[..len];
    }

    /** The loop over the keys.  The length of the line is returned, or -1; `used` keys come before the
        one that ends the loop.  The current line is left in the history by ctrl-c alone. */
    method Prompt(keys: seq<Key>) returns (result: int, used: nat)
      requires Valid() && Proper(State(), buflen)
      modifies this`len, this`pos, this`history, this`historyIndex, buf
      ensures Valid() && used == Read(old(State()), keys, buflen).1
      ensures
        var last := Read(old(State()), keys, buflen).0;
        && Shown() == last.line
        && (used == |keys| ==> State() == last && result == |last.line.Text()|)
        && (used < |keys| ==>
              && history == (if keys[used] == Char(3) then last.history else last.history[..|last.history| - 1])
              && result == if Ends(last, Meaning(keys[used])) == Aborted then -1 else |last.line.Text()|)
    {
      hide Commanded, Ends, Proper;
      used := 0;
      while used < |keys|
        invariant Valid() && used <= |keys| && Proper(State(), buflen)
        invariant Read(old(State()), keys, buflen)
          == (Read(State(), keys[used..], buflen).0, used + Read(State(), keys[used..], buflen).1)
      {
        CommandedIsProper(State(), Meaning(keys[used]), buflen);
        var outcome := Press(keys[used]);
        if outcome != Going { return if outcome == Aborted then -1 else len, used; }
        assert keys[used..][1..] == keys[used + 1..];
        used := used + 1;
      }
      result := len;
    }

    /** A completion takes the place of the line.  It is what is shown exactly when it is shorter than
        the buffer. */
    method Complete(text: seq<Byte>)
      requires Valid() && 0 !in text
      modifies this`len, this`pos, buf
      ensures Valid() && Shown() == Line(text, []) <==> text == [] || |text| < buflen
    {
      if buflen > 0 {
        var n := if |text| < buflen then |text| else buflen - 1;
        forall i | 0 <= i < n {
          buf[i] := text[i];
        }
        buf[n] := 0;
      }
      len, pos := |text|, |text|;
      if |text| < buflen { assert buf[..pos] == text; }
      if |text| == buflen > 0 { assert buf[..pos][buflen - 1] == 0; }
    }
  }

  /** What a session comes to, and how many keys come before the one that ends it. */
  function Read(s: Session, keys: seq<Key>, capacity: nat): (r: (Session, nat))
    requires Proper(s, capacity)
    ensures r.1 <= |keys| && Proper(r.0, capacity)
    ensures r.1 < |keys| ==> Ends(r.0, Meaning(keys[r.1])) != Going
    decreases |keys|
  {
    if keys == [] || Ends(s, Meaning(keys[0])) != Going then (s, 0)
    else
      CommandedIsProper(s, Meaning(keys[0]), capacity);
      var (last, n) := Read(Commanded(s, Meaning(keys[0]), capacity), keys[1..], capacity);
      (last, n + 1)
  }

  function Commands(keys: seq<Key>): seq<Command> {
    seq(|keys|, i requires 0 <= i < |keys| => Meaning(keys[i]))
  }

  /** A session plays the commands of its keys up to the one that ends it. */
  lemma {:induction false} ReadsWhatIsPlayed(s: Session, keys: seq<Key>, capacity: nat)
    requires Proper(s, capacity)
    ensures var (last, n) := Read(s, keys, capacity);
      last == Played(s, Commands(keys[..n]), capacity)
    decreases |keys|
  {
    hide Commanded, Ends;
    if keys == [] || Ends(s, Meaning(keys[0])) != Going {
      assert Commands(keys[..0]) == [];
    } else {
      CommandedIsProper(s, Meaning(keys[0]), capacity);
      ReadsWhatIsPlayed(Commanded(s, Meaning(keys[0]), capacity), keys[1..], capacity);
      var n := Read(s, keys, capacity).1;
      assert Commands(keys[..n])[1..] == Commands(keys[1..][..n - 1]);
      assert Commands(keys[..n])[0] == Meaning(keys[0]);
    }
  }

  function Added(history: seq<seq<Byte>>, line: seq<Byte>, maxLen: nat): seq<seq<Byte>>
    requires 0 < maxLen && |history| <= maxLen
  {
    (if |history| == maxLen then history[1..] else history) + [line]
  }
}
