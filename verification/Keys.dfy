/** What each key of the line editor does, byte by byte: the line and the cursor before and
    after it, and the lines of history that come up. */
module Keys {
  import opened Bytes
  import opened Cells
  import opened Numbers
  import opened NumberText
  import opened Terminal
  import opened EditLine
  import History

  /** From s, the next n key presses begin with one of k bytes that leads to e. */
  ghost predicate Leads(keys: nat -> Byte, i: nat, n: nat, s: Edit, width: nat, texts: seq<seq<Byte>>, k: nat, e: Edit)
    requires n > 0 && Sane(s, width, |texts|) && GoodTexts(texts, width)
  {
    Sane(e, width, |texts|) && Play(keys, i, n, s, width, texts) == Play(keys, i + k, n - 1, e, width, texts)
  }

  /** The line of history that stands at a place, with the cursor at its end; beyond the
      newest there is an empty line. */
  function Old(texts: seq<seq<Byte>>, at: nat): Edit
  {
    if at < |texts| then Edit(texts[at], |texts[at]|, at) else Edit([], 0, at)
  }

  lemma OnePlay(keys: nat -> Byte, i: nat, n: nat, s: Edit, width: nat, texts: seq<seq<Byte>>)
    requires n > 0 && Sane(s, width, |texts|) && GoodTexts(texts, width)
    ensures var (a, used) := Decode(keys, i);
            var e := Act(s, a, width, texts);
            if a == Return then Play(keys, i, n, s, width, texts) == Entered(s.line, i + used)
            else Leads(keys, i, n, s, width, texts, used, e)
  {
    hide Act, Decode, GoodTexts, Sane;
    DecodeAdds(keys, i);
    if Decode(keys, i).0 != Return { ActSane(s, Decode(keys, i).0, width, texts); }
  }

  // ----- history -----

  /** ESC [ A goes to the line before the one that is shown: from the new line to the newest
      of the history, and from the oldest to the new line. */
  lemma UpRecalls(keys: nat -> Byte, i: nat, n: nat, s: Edit, width: nat, texts: seq<seq<Byte>>)
    requires n > 0 && Sane(s, width, |texts|) && GoodTexts(texts, width)
    requires keys(i) == 27 && keys(i + 1) == 91 && keys(i + 2) == 65
    ensures Leads(keys, i, n, s, width, texts, 3, if s.at > 0 then Old(texts, s.at - 1) else Old(texts, |texts|))
  {
    hide Play, Sane, GoodTexts;
    OnePlay(keys, i, n, s, width, texts);
  }

  /** ESC [ B goes to the line after it. */
  lemma DownRecalls(keys: nat -> Byte, i: nat, n: nat, s: Edit, width: nat, texts: seq<seq<Byte>>)
    requires n > 0 && Sane(s, width, |texts|) && GoodTexts(texts, width)
    requires keys(i) == 27 && keys(i + 1) == 91 && keys(i + 2) == 66
    ensures Leads(keys, i, n, s, width, texts, 3, if s.at < |texts| then Old(texts, s.at + 1) else Old(texts, 0))
  {
    hide Play, Sane, GoodTexts;
    SaneBounds(s, width, |texts|);
    OnePlay(keys, i, n, s, width, texts);
  }

  /** At a new line, ESC [ A shows the newest line of the history, and ESC [ B undoes that. */
  lemma UpThenDown(keys: nat -> Byte, i: nat, n: nat, width: nat, texts: seq<seq<Byte>>)
    requires n > 1 && width > 0 && GoodTexts(texts, width) && texts != []
    requires keys(i) == 27 && keys(i + 1) == 91 && keys(i + 2) == 65
    requires keys(i + 3) == 27 && keys(i + 4) == 91 && keys(i + 5) == 66
    ensures var s, newest := Edit([], 0, |texts|), texts[|texts| - 1];
            Sane(s, width, |texts|)
            && Leads(keys, i, n, s, width, texts, 3, Edit(newest, |newest|, |texts| - 1))
            && Play(keys, i, n, s, width, texts) == Play(keys, i + 6, n - 2, s, width, texts)
  {
    hide Play;
    var s := Edit([], 0, |texts|);
    UpRecalls(keys, i, n, s, width, texts);
    DownRecalls(keys, i + 3, n - 1, Old(texts, |texts| - 1), width, texts);
  }

  // ----- the cursor -----

  /** ESC [ C moves the cursor right along the line, as the same bytes do on a terminal that
      shows the line; at the end of the line it does nothing. */
  lemma RightMoves(keys: nat -> Byte, i: nat, n: nat, s: Edit, width: nat, texts: seq<seq<Byte>>, t: Line)
    requires n > 0 && Sane(s, width, |texts|) && GoodTexts(texts, width) && Shows(t, s.line, s.idx, width)
    requires keys(i) == 27 && keys(i + 1) == 91 && keys(i + 2) == 67
    ensures var e := if s.idx < |s.line| then s.(idx := s.idx + 1) else s;
            Leads(keys, i, n, s, width, texts, 3, e)
            && Fits(t) && (s.idx < |s.line| ==> Shows(Feed(t, [27, 91, 67]), e.line, e.idx, width))
  {
    hide Play, Sane, GoodTexts, Feed, Final;
    OnePlay(keys, i, n, s, width, texts);
    FeedControl(t, 67);
    Moved(t, s.line, s.idx, width);
  }

  /** ESC [ D moves it left. */
  lemma LeftMoves(keys: nat -> Byte, i: nat, n: nat, s: Edit, width: nat, texts: seq<seq<Byte>>, t: Line)
    requires n > 0 && Sane(s, width, |texts|) && GoodTexts(texts, width) && Shows(t, s.line, s.idx, width)
    requires keys(i) == 27 && keys(i + 1) == 91 && keys(i + 2) == 68
    ensures var e := if s.idx > 0 then s.(idx := s.idx - 1) else s;
            Leads(keys, i, n, s, width, texts, 3, e)
            && Fits(t) && (s.idx > 0 ==> Shows(Feed(t, [27, 91, 68]), e.line, e.idx, width))
  {
    hide Play, Sane, GoodTexts, Feed, Final;
    OnePlay(keys, i, n, s, width, texts);
    FeedControl(t, 68);
    Moved(t, s.line, s.idx, width);
  }

  /** ESC [ 1 ~ goes to the start of the line, ESC [ 4 ~ to its end. */
  lemma HomeAndEnd(keys: nat -> Byte, i: nat, n: nat, s: Edit, width: nat, texts: seq<seq<Byte>>)
    requires n > 0 && Sane(s, width, |texts|) && GoodTexts(texts, width)
    requires keys(i) == 27 && keys(i + 1) == 91 && keys(i + 3) == 126
    ensures keys(i + 2) == 49 ==> Leads(keys, i, n, s, width, texts, 4, s.(idx := 0))
    ensures keys(i + 2) == 52 ==> Leads(keys, i, n, s, width, texts, 4, s.(idx := |s.line|))
  {
    hide Play, Sane, GoodTexts;
    OnePlay(keys, i, n, s, width, texts);
  }

  /** Other escape sequences do nothing, but take their bytes: two without a bracket, four
      with a decimal digit behind it, three otherwise. */
  lemma OtherEscapes(keys: nat -> Byte, i: nat, n: nat, s: Edit, width: nat, texts: seq<seq<Byte>>)
    requires n > 0 && Sane(s, width, |texts|) && GoodTexts(texts, width) && keys(i) == 27
    ensures keys(i + 1) != 91 ==> Leads(keys, i, n, s, width, texts, 2, s)
    ensures keys(i + 1) == 91 && 48 <= keys(i + 2) <= 57 && !(keys(i + 2) in {49, 52} && keys(i + 3) == 126) ==>
              Leads(keys, i, n, s, width, texts, 4, s)
    ensures keys(i + 1) == 91 && !(48 <= keys(i + 2) <= 57) && !(65 <= keys(i + 2) <= 68) ==>
              Leads(keys, i, n, s, width, texts, 3, s)
  {
    hide Play, Sane, GoodTexts;
    SaneBounds(s, width, |texts|);
    OnePlay(keys, i, n, s, width, texts);
  }

  // ----- single keys -----

  /** 8 and 127 take out the character on the left of the cursor, 4 the one under it. */
  lemma RubsOut(keys: nat -> Byte, i: nat, n: nat, s: Edit, width: nat, texts: seq<seq<Byte>>)
    requires n > 0 && Sane(s, width, |texts|) && GoodTexts(texts, width)
    ensures keys(i) == 8 || keys(i) == 127 ==>
              Leads(keys, i, n, s, width, texts, 1,
                    if s.idx == 0 then s
                    else s.(line := s.line[..s.idx - 1] + s.line[s.idx..], idx := s.idx - 1))
    ensures keys(i) == 4 ==>
              Leads(keys, i, n, s, width, texts, 1,
                    if s.idx == |s.line| then s else s.(line := s.line[..s.idx] + s.line[s.idx + 1..]))
  {
    hide Play, Sane, GoodTexts;
    SaneBounds(s, width, |texts|);
    OnePlay(keys, i, n, s, width, texts);
  }

  lemma SaneBounds(s: Edit, width: nat, n: nat)
    requires Sane(s, width, n)
    ensures s.idx <= |s.line| < width && s.at <= n
  {}

  /** 21 clears the line, and 13 hands it over. */
  lemma ClearsAndReturns(keys: nat -> Byte, i: nat, n: nat, s: Edit, width: nat, texts: seq<seq<Byte>>)
    requires n > 0 && Sane(s, width, |texts|) && GoodTexts(texts, width)
    ensures keys(i) == 21 ==> Leads(keys, i, n, s, width, texts, 1, s.(line := [], idx := 0))
    ensures keys(i) == 13 ==> Play(keys, i, n, s, width, texts) == Entered(s.line, i + 1)
  {
    hide Play, Sane, GoodTexts;
    OnePlay(keys, i, n, s, width, texts);
  }

  /** Any byte above 31 but 127 goes into the line at the cursor, if there is room; any other
      control character does nothing. */
  lemma OthersInsert(keys: nat -> Byte, i: nat, n: nat, s: Edit, width: nat, texts: seq<seq<Byte>>)
    requires n > 0 && Sane(s, width, |texts|) && GoodTexts(texts, width)
    ensures keys(i) > 31 && keys(i) != 127 ==>
              Leads(keys, i, n, s, width, texts, 1,
                    if |s.line| + 1 < width
                    then s.(line := s.line[..s.idx] + [keys(i)] + s.line[s.idx..], idx := s.idx + 1) else s)
    ensures keys(i) <= 31 && keys(i) !in {4, 8, 13, 21, 27} ==> Leads(keys, i, n, s, width, texts, 1, s)
  {
    hide Play, Sane, GoodTexts;
    SaneBounds(s, width, |texts|);
    OnePlay(keys, i, n, s, width, texts);
  }

  // ----- the control functions, byte by byte -----

  /** What the terminal does with the sequences the editor sends, as ECMA-48 has them. */
  lemma Controls(t: Line)
    requires Fits(t) && t.mode == Ground
    ensures Feed(t, [13]) == t.(col := 0)
    ensures Feed(t, [27, 91, 64]) == t.(cells := t.cells[..t.col] + [32] + t.cells[t.col..|t.cells| - 1])
    ensures Feed(t, [27, 91, 80]) == t.(cells := t.cells[..t.col] + t.cells[t.col + 1..] + [32])
    ensures Feed(t, [27, 91, 67]) == if t.col + 1 < |t.cells| then t.(col := t.col + 1) else t
    ensures Feed(t, [27, 91, 68]) == if t.col > 0 then t.(col := t.col - 1) else t
    ensures var u := Feed(t, [27, 91, 75]);
            u == t.(cells := u.cells) && |u.cells| == |t.cells| && u.cells[..t.col] == t.cells[..t.col]
            && forall j :: t.col <= j < |t.cells| ==> u.cells[j] == 32
  {
    hide Feed, Blanks;
    FeedOne(t, 13);
    FeedControl(t, 64);
    FeedControl(t, 80);
    FeedControl(t, 67);
    FeedControl(t, 68);
    FeedControl(t, 75);
  }

  /** ESC [ n G goes to the n-th column, counting from one. */
  lemma ColumnControl(t: Line, n: nat, on: bool)
    requires Fits(t) && t.mode == Ground && 1 <= n <= |t.cells| && n < 1000
    ensures Feed(t, [27, 91] + UnsignedText(n, 10, on) + [71]) == t.(col := n - 1)
  {
    hide Feed, UnsignedText;
    FeedColumn(t, n, on);
  }
}
