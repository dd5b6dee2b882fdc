/** The line editor of mu/lib/editline.mu4, against a plain line with a cursor. */
module EditLine {
  import opened Bytes
  import opened Cells
  import opened Numbers
  import opened NumberText
  import opened Terminal
  import History

  // ----- what the keys mean -----

  datatype Action =
    | Up | Down | Right | Left | Home | End | Backspace | Delete | Erase | Add(ch: Byte) | Return | Nothing

  /** process-key and read-esc-seq: the action of the next key or escape sequence, and how
      many keys that takes. */
  function Decode(keys: nat -> Byte, i: nat): (Action, nat)
  {
    var k := keys(i);
    if k == ESC then DecodeEscape(keys, i)
    else if k == 8 || k == 127 then (Backspace, 1)
    else if k == 4 then (Delete, 1)
    else if k == CR then (Return, 1)
    else if k == 21 then (Erase, 1)
    else if k > 31 then (Add(k), 1)
    else (Nothing, 1)
  }

  function DecodeEscape(keys: nat -> Byte, i: nat): (Action, nat)
  {
    if keys(i + 1) != 91 then (Nothing, 2)
    else
      var k := keys(i + 2);
      if k == 65 then (Up, 3) else if k == 66 then (Down, 3)
      else if k == 67 then (Right, 3) else if k == 68 then (Left, 3)
      else
        var d := DigitOf(k);
        if Unsigned(d) >= 10 then (Nothing, 3)
        else (if keys(i + 3) == 126 && d == 1 then Home else if keys(i + 3) == 126 && d == 4 then End else Nothing, 4)
  }

  // ----- a plain line -----

  /** The line, where the cursor is in it, and which line of history was copied last. */
  datatype Edit = Edit(line: seq<Byte>, idx: nat, at: nat)

  predicate Graphic(line: seq<Byte>) { forall i :: 0 <= i < |line| ==> line[i] >= BLANK }

  /** The line fits the width and holds no control characters. */
  predicate GoodLine(line: seq<Byte>, width: nat) { |line| < width && Graphic(line) }

  predicate GoodTexts(texts: seq<seq<Byte>>, width: nat) { forall i :: 0 <= i < |texts| ==> GoodLine(texts[i], width) }

  predicate Sane(s: Edit, width: nat, n: nat) { s.idx <= |s.line| && GoodLine(s.line, width) && s.at <= n }

  function Recalled(texts: seq<seq<Byte>>, at: nat): Edit
  {
    var line := if at < |texts| then texts[at] else [];
    Edit(line, |line|, at)
  }

  function Deleted(s: Edit): Edit
  {
    if s.idx < |s.line| then s.(line := s.line[..s.idx] + s.line[s.idx + 1..]) else s
  }

  /** What each action but Return does to the line. */
  function Act(s: Edit, a: Action, width: nat, texts: seq<seq<Byte>>): Edit
    requires s.idx <= |s.line|
  {
    match a
    case Up => Recalled(texts, History.Before(s.at, |texts|))
    case Down => Recalled(texts, History.After(s.at, |texts|))
    case Left => if s.idx > 0 then s.(idx := s.idx - 1) else s
    case Right => if s.idx < |s.line| then s.(idx := s.idx + 1) else s
    case Home => s.(idx := 0)
    case End => s.(idx := |s.line|)
    case Backspace => if s.idx > 0 then Deleted(s.(idx := s.idx - 1)) else s
    case Delete => Deleted(s)
    case Erase => s.(line := [], idx := 0)
    case Add(ch) =>
      if |s.line| < width - 1 then s.(line := s.line[..s.idx] + [ch] + s.line[s.idx..], idx := s.idx + 1) else s
    case Return => s
    case Nothing => s
  }

  lemma ActSane(s: Edit, a: Action, width: nat, texts: seq<seq<Byte>>)
    requires Sane(s, width, |texts|) && GoodTexts(texts, width)
    requires a.Add? ==> a.ch >= BLANK
    ensures Sane(Act(s, a, width, texts), width, |texts|)
  {}

  /** A character added and then rubbed out leaves the line as it was. */
  lemma AddThenBackspace(s: Edit, ch: Byte, width: nat, texts: seq<seq<Byte>>)
    requires Sane(s, width, |texts|) && |s.line| < width - 1
    ensures Act(Act(s, Add(ch), width, texts), Backspace, width, texts) == s
  {
    var added := s.line[..s.idx] + [ch] + s.line[s.idx..];
    assert added[..s.idx] + added[s.idx + 1..] == s.line;
  }

  /** How n key presses end: still editing, or with Return. */
  datatype Played = Editing(s: Edit, i: nat) | Entered(line: seq<Byte>, i: nat)

  function Play(keys: nat -> Byte, i: nat, n: nat, s: Edit, width: nat, texts: seq<seq<Byte>>): Played
    requires Sane(s, width, |texts|) && GoodTexts(texts, width)
    decreases n
  {
    if n == 0 then Editing(s, i)
    else
      var (a, used) := Decode(keys, i);
      if a == Return then Entered(s.line, i + used)
      else
        ActSane(s, a, width, texts);
        Play(keys, i + used, n - 1, Act(s, a, width, texts), width, texts)
  }

  // ----- what the terminal shows -----

  /** The line stands at the left edge, with blanks after it and the cursor at idx. */
  predicate Shows(t: Line, line: seq<Byte>, idx: nat, width: nat)
  {
    |line| < width && t.mode == Ground && t.cells == line + Blanks(width - |line|) && t.col == idx <= |line|
  }

  lemma ShowsFits(t: Line, line: seq<Byte>, idx: nat, width: nat)
    requires Shows(t, line, idx, width)
    ensures Fits(t) && |t.cells| == width && t.mode == Ground
  {}

  lemma InsertShows(t: Line, line: seq<Byte>, idx: nat, width: nat, ch: Byte)
    requires Shows(t, line, idx, width) && |line| < width - 1
    ensures Fits(t) && Shows(Put1(InsertBlank(t), ch), line[..idx] + [ch] + line[idx..], idx + 1, width)
  {
    var blanks := Blanks(width - |line| - 1);
    assert Blanks(width - |line|) == blanks + [BLANK];
    assert t.cells[idx..width - 1] == line[idx..] + blanks;
    assert t.cells[..idx] == line[..idx];
    var edited := line[..idx] + [ch] + line[idx..];
    assert Put1(InsertBlank(t), ch).cells == edited + blanks;
  }

  lemma DeleteShows(t: Line, line: seq<Byte>, idx: nat, width: nat)
    requires Shows(t, line, idx, width) && idx < |line|
    ensures Fits(t) && Shows(DeleteChar(t), line[..idx] + line[idx + 1..], idx, width)
  {
    var edited := line[..idx] + line[idx + 1..];
    assert DeleteChar(t).cells == edited + Blanks(width - |edited|);
  }

  /** CR, EL. */
  lemma ClearShows(t: Line, line: seq<Byte>, idx: nat, width: nat)
    requires Shows(t, line, idx, width)
    ensures Fits(t) && Shows(EraseRest(t.(col := 0)), [], 0, width)
  {
    assert EraseRest(t.(col := 0)).cells == [] + Blanks(width);
  }

  /** type, at the left edge of an empty line. */
  lemma {:induction false} TypeShows(t: Line, line: seq<Byte>, width: nat)
    requires Shows(t, [], 0, width) && GoodLine(line, width)
    ensures Fits(t) && Shows(Feed(t, line), line, |line|, width)
  {
    if line != [] {
      var init, ch := line[..|line| - 1], line[|line| - 1];
      TypeShows(t, init, width);
      var u := Put1(Feed(t, init), ch);
      assert u.cells == line + Blanks(width - |line|);
    }
  }

  // ----- the editor -----

  class Editor {
    const width: nat
    const cl: array<Byte>
    const list: History.List
    var len: nat
    var idx: nat
    var cur: nat                 // cl-cur
    var separators: bool
    var screen: Line
    ghost var at: nat

    ghost predicate Valid()
      reads this, cl, list
    {
      cl.Length == 256 && 1 <= width <= 256 && list.Valid() && GoodTexts(list.texts, width)
      && idx <= len < width && at <= |list.order| && cur == list.Node(at)
      && Graphic(cl[..len]) && Shows(screen, cl[..len], idx, width)
    }

    ghost function State(): Edit
      reads this, cl
      requires len <= cl.Length
    {
      Edit(cl[..len], idx, at)
    }

    /** A blank line of the terminal, and what history there is. */
    constructor (width: nat, list: History.List, separators: bool, screen: Line)
      requires 1 <= width <= 256 && list.Valid() && GoodTexts(list.texts, width)
      requires Shows(screen, [], 0, width)
      ensures Valid() && fresh(cl) && State() == Edit([], 0, |list.order|) && this.list == list && this.width == width
    {
      this.width, this.list, this.separators, this.screen := width, list, separators, screen;
      cl := new Byte[256](i => 0);
      len, idx, cur, at := 0, 0, list.root, |list.order|;
    }

    method Emit(s: seq<Byte>)
      requires Fits(screen)
      modifies `screen
      ensures screen == Feed(old(screen), s)
    {
      screen := Feed(screen, s);
    }

    /** cmove: the stretches may overlap. */
    method Cmove(src: nat, dest: nat, count: nat)
      requires src + count <= cl.Length && dest + count <= cl.Length
      modifies cl
      ensures cl[..] == old(cl[..dest]) + old(cl[src..src + count]) + old(cl[dest + count..])
    {
      forall k | 0 <= k < count {
        cl[dest + k] := cl[src + k];
      }
    }

    /** cl-ins */
    method Insert(ch: Byte)
      requires idx <= len < cl.Length
      modifies this`len, this`idx, cl
      ensures len == old(len) + 1 && idx == old(idx) + 1
      ensures cl[..len] == old(cl[..idx]) + [ch] + old(cl[idx..len])
    {
      ghost var was := cl[..];
      Cmove(idx, idx + 1, len - idx);
      ghost var mid := cl[..];
      cl[idx] := ch;
      InsertMoved(was, mid, cl[..], idx, len, ch);
      len, idx := len + 1, idx + 1;
    }

    /** cl-del */
    method Remove()
      requires idx < len <= cl.Length
      modifies this`len, cl
      ensures len == old(len) - 1
      ensures cl[..len] == old(cl[..idx]) + old(cl[idx + 1..len])
    {
      ghost var was := cl[..];
      len := len - 1;
      Cmove(idx + 1, idx, len - idx);
      assert cl[..len] == was[..idx] + was[idx + 1..len + 1];
    }

    /** cl-key-left */
    method KeyLeft()
      requires Valid()
      modifies this`idx, this`screen
      ensures Valid() && len == old(len) && State() == Act(old(State()), Left, width, list.texts)
    {
      hide Feed, Final;
      if idx > 0 {
        FeedControl(screen, 68);
        Emit([ESC, 91, 68]);
        Moved(old(screen), cl[..len], idx, width);
        idx := idx - 1;
      }
    }

    /** cl-key-right */
    method KeyRight()
      requires Valid()
      modifies this`idx, this`screen
      ensures Valid() && State() == Act(old(State()), Right, width, list.texts)
    {
      hide Feed, Final;
      if idx < len {
        FeedControl(screen, 67);
        Emit([ESC, 91, 67]);
        Moved(old(screen), cl[..len], idx, width);
        idx := idx + 1;
      }
    }

    /** cl-key-home */
    method KeyHome()
      requires Valid()
      modifies this`idx, this`screen
      ensures Valid() && State() == Act(old(State()), Home, width, list.texts)
    {
      FeedOne(screen, CR);
      Emit([CR]);
      idx := 0;
    }

    /** curs-eol */
    method CursorToEnd()
      requires Valid()
      modifies `screen
      ensures Shows(screen, cl[..len], len, width)
    {
      hide Feed, Final;
      FeedColumn(screen, len + 1, separators);
      Emit([ESC, 91] + UnsignedText(len + 1, 10, separators) + [71]);
      Moved(old(screen), cl[..len], idx, width);
    }

    /** cl-key-end */
    method KeyEnd()
      requires Valid()
      modifies this`idx, this`screen
      ensures Valid() && State() == Act(old(State()), End, width, list.texts)
    {
      CursorToEnd();
      idx := len;
    }

    /** cl-key-del */
    method KeyDelete()
      requires Valid()
      modifies this`len, this`screen, cl
      ensures Valid() && State() == Act(old(State()), Delete, width, list.texts)
    {
      hide Feed, Final, DeleteChar, Shows;
      if idx < len {
        ghost var line := cl[..len];
        ShowsFits(screen, line, idx, width);
        FeedControl(screen, 80);
        Emit([ESC, 91, 80]);
        FinalDelete(old(screen));
        DeleteShows(old(screen), line, idx, width);
        Remove();
        assert cl[..len] == line[..idx] + line[idx + 1..];
      }
    }

    /** cl-key-bs */
    method KeyBackspace()
      requires Valid()
      modifies this`idx, this`len, this`screen, cl
      ensures Valid() && State() == Act(old(State()), Backspace, width, list.texts)
    {
      if idx > 0 {
        KeyLeft();
        KeyDelete();
      }
    }

    /** cl-key-erase */
    method KeyErase()
      requires Valid()
      modifies this`idx, this`len, this`screen
      ensures Valid() && State() == Act(old(State()), Erase, width, list.texts)
    {
      Clear();
      len, idx := 0, 0;
      assert cl[..0] == [];
    }

    /** curs-bol curs-erase-eol */
    method Clear()
      requires Fits(screen) && len <= cl.Length && Shows(screen, cl[..len], idx, width)
      modifies `screen
      ensures Shows(screen, [], 0, width)
    {
      hide Feed, Final;
      FeedOne(screen, CR);
      Emit([CR]);
      FeedControl(screen, 75);
      Emit([ESC, 91, 75]);
      FinalErase(old(screen).(col := 0));
      ClearShows(old(screen), cl[..len], idx, width);
    }

    /** cl-key-add */
    method KeyAdd(ch: Byte)
      requires Valid() && ch >= BLANK
      modifies this`idx, this`len, this`screen, cl
      ensures Valid() && State() == Act(old(State()), Add(ch), width, list.texts)
    {
      hide Feed, Final, Put1, InsertBlank, Shows;
      if len < width - 1 {
        ghost var line := cl[..len];
        ShowsFits(screen, line, idx, width);
        FeedControl(screen, 64);
        Emit([ESC, 91, 64]);
        FinalInsert(old(screen));
        FeedOne(screen, ch);
        Emit([ch]);
        InsertShows(old(screen), line, idx, width, ch);
        Insert(ch);
        assert cl[..len] == line[..idx - 1] + [ch] + line[idx - 1..];
      }
    }

    /** >cl and cl-show: copy a line of history and show it. */
    method Recall(node: nat, ghost at': nat)
      requires Valid() && at' <= |list.order| && node == list.Node(at')
      modifies this`cur, this`at, this`idx, this`len, this`screen, cl
      ensures Valid() && State() == Recalled(list.texts, at')
    {
      hide Feed, Final;
      Clear();
      cur, at := node, at';
      var line := list.Fetch(at, node);
      assert GoodLine(line, width) by { assert at < |list.texts| ==> GoodLine(list.texts[at], width); }
      forall k | 0 <= k < |line| {
        cl[k] := line[k];
      }
      assert cl[..|line|] == line;
      TypeShows(screen, line, width);
      Emit(line);
      len, idx := |line|, |line|;
    }

    /** cl-key-up */
    method KeyUp()
      requires Valid()
      modifies this`cur, this`at, this`idx, this`len, this`screen, cl
      ensures Valid() && State() == Act(old(State()), Up, width, list.texts)
    {
      var p := list.Prev(at, cur);
      Recall(p, History.Before(at, |list.order|));
    }

    /** cl-key-dn */
    method KeyDown()
      requires Valid()
      modifies this`cur, this`at, this`idx, this`len, this`screen, cl
      ensures Valid() && State() == Act(old(State()), Down, width, list.texts)
    {
      var n := list.Next(at, cur);
      Recall(n, History.After(at, |list.order|));
    }

    /** cl-key-ret: what was typed goes into the history, if it is not empty. */
    method KeyReturn() returns (line: seq<Byte>)
      requires Valid() && list.root + 24 + History.NodeSize(255) <= list.last
      modifies `screen, list
      ensures line == cl[..len]
      ensures list.Valid() && GoodTexts(list.texts, width)
      ensures list.texts == if line == [] then old(list.texts) else old(list.texts) + [line]
    {
      CursorToEnd();
      Emit([BLANK]);
      line := cl[..len];
      list.Add(line);
    }

    /** read-esc-seq, after the escape key. */
    method EscapeSequence(keys: nat -> Byte, i: nat) returns (j: nat)
      requires Valid() && keys(i) == ESC
      modifies this`cur, this`at, this`idx, this`len, this`screen, cl
      ensures j == i + DecodeEscape(keys, i).1
      ensures Valid() && State() == Act(old(State()), DecodeEscape(keys, i).0, width, list.texts)
    {
      hide Act, Shows, Graphic, GoodTexts;
      ActNothing(State(), width, list.texts);
      if keys(i + 1) != 91 { return i + 2; }
      var k := keys(i + 2);
      if k == 65 { KeyUp(); return i + 3; }
      if k == 66 { KeyDown(); return i + 3; }
      if k == 67 { KeyRight(); return i + 3; }
      if k == 68 { KeyLeft(); return i + 3; }
      var d := DigitOf(k);
      if Unsigned(d) >= 10 { return i + 3; }
      if keys(i + 3) == 126 {
        if d == 1 { KeyHome(); return i + 4; }
        if d == 4 { KeyEnd(); return i + 4; }
      }
      return i + 4;
    }

    /** process-key */
    method ProcessKey(keys: nat -> Byte, i: nat) returns (j: nat, done: bool, line: seq<Byte>)
      requires Valid() && list.root + 24 + History.NodeSize(255) <= list.last
      modifies this`cur, this`at, this`idx, this`len, this`screen, cl, list
      ensures j == i + Decode(keys, i).1 && done == Decode(keys, i).0.Return?
      ensures !done ==> Valid() && State() == Act(old(State()), Decode(keys, i).0, width, list.texts)
      ensures !done ==> list.texts == old(list.texts) && list.last == old(list.last)
      ensures done ==> line == old(cl[..len]) && list.Valid() && GoodTexts(list.texts, width)
      ensures done ==> list.texts == if line == [] then old(list.texts) else old(list.texts) + [line]
    {
      hide Act, Graphic, Shows, GoodTexts;
      var k := keys(i);
      ActNothing(State(), width, list.texts);
      j, done, line := i + 1, false, [];
      if k == ESC {
        j := EscapeSequence(keys, i);
      } else if k == 8 || k == 127 {
        KeyBackspace();
      } else if k == 4 {
        KeyDelete();
      } else if k == CR {
        line := KeyReturn();
        done := true;
      } else if k == 21 {
        KeyErase();
      } else if k > 31 {
        KeyAdd(k);
      }
    }

    /** editline, for at most n keys and escape sequences. */
    method EditLine(keys: nat -> Byte, i: nat, n: nat) returns (j: nat, done: bool, line: seq<Byte>)
      requires Valid() && State() == Edit([], 0, |list.order|)
      requires list.root + 24 + History.NodeSize(255) <= list.last
      modifies this`cur, this`at, this`idx, this`len, this`screen, cl, list
      ensures var r := Play(keys, i, n, Edit([], 0, |old(list.texts)|), width, old(list.texts));
              if done then r == Entered(line, j) else Valid() && r == Editing(State(), j)
      ensures list.Valid() && GoodTexts(list.texts, width)
      ensures list.texts == if done && line != [] then old(list.texts) + [line] else old(list.texts)
    {
      hide Act, Decode, Shows, Graphic, GoodTexts;
      ghost var start, texts := State(), list.texts;
      j, done, line := i, false, [];
      for k := 0 to n
        invariant Valid() && list.texts == texts && list.root + 24 + History.NodeSize(255) <= list.last && !done
        invariant Sane(State(), width, |texts|) && GoodTexts(texts, width)
        invariant Play(keys, i, n, start, width, texts) == Play(keys, j, n - k, State(), width, texts)
      {
        ghost var s, a := State(), Decode(keys, j).0;
        DecodeAdds(keys, j);
        ActSane(s, a, width, texts);
        j, done, line := ProcessKey(keys, j);
        if done { return; }
      }
    }
  }

  lemma ActNothing(s: Edit, width: nat, texts: seq<seq<Byte>>)
    requires s.idx <= |s.line|
    ensures Act(s, Nothing, width, texts) == s
  {}

  lemma DecodeAdds(keys: nat -> Byte, i: nat)
    ensures Decode(keys, i).0.Add? ==> Decode(keys, i).0.ch >= BLANK
  {}

  lemma InsertMoved(was: seq<Byte>, mid: seq<Byte>, now: seq<Byte>, idx: nat, len: nat, ch: Byte)
    requires idx <= len < |was|
    requires mid == was[..idx + 1] + was[idx..len] + was[len + 1..]
    requires now == mid[idx := ch]
    ensures now[..len + 1] == was[..idx] + [ch] + was[idx..len]
  {}

  /** Moving the cursor along the line does not change what is shown. */
  lemma Moved(t: Line, line: seq<Byte>, idx: nat, width: nat)
    requires Shows(t, line, idx, width)
    ensures Fits(t)
    ensures idx > 0 ==> Shows(Final(t, 1, 68), line, idx - 1, width)
    ensures idx < |line| ==> Shows(Final(t, 1, 67), line, idx + 1, width)
    ensures Shows(Final(t, |line| + 1, 71), line, |line|, width)
  {}

  lemma FinalDelete(t: Line)
    requires Fits(t)
    ensures Final(t, 1, 80) == DeleteChar(t)
  {}

  lemma FinalInsert(t: Line)
    requires Fits(t)
    ensures Final(t, 1, 64) == InsertBlank(t) && InsertBlank(t).mode == t.mode
  {}

  lemma FinalErase(t: Line)
    requires Fits(t)
    ensures Final(t, 1, 75) == EraseRest(t)
  {}
}
