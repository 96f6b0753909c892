/**
 * Four places where write mode does not do what its own comments say: the
 * cursor is meant to stay at a column of its line (write.go:26, 38, 54,
 * 116), and the scrolls are meant to keep in view the character to be
 * deleted (write.go:66, 90) or the cursor (write.go:106). The first three
 * appear when the view is scrolled horizontally (OffsetX > 0), the fourth
 * when Backspace joins onto a line wider than the screen. Each is shown on
 * the handler as written (module Text) by a lemma over the states that
 * exhibit it, and a corrected handler is given with the intended property
 * proved.
 */
module Findings {
  import opened Text

  // ---------------------------------------------------------------------
  // 1. Backspace at the left screen edge while scrolled (write.go:67-69, 91-93)

  /** On a one-column screen, a character typed on an empty first line
      scrolls the view one column and leaves the cursor at the left screen
      edge, after the character. As written, Backspace then scrolls back
      without moving the cursor, so deleteAtCursor runs at column 0 of the
      first line and the character stays, where deleting at the cursor
      would have removed it. */
  lemma ScrolledTypeThenBackspaceKeepsCharacter(v: View, ch: char)
    requires Wellformed(v) && v.Cols == 1 && v.OffsetX == 0
    requires v.BufY() == 0 && v.TextBuffer[0] == []
    ensures HandleEvent(v, Plain(Other(ch))).Continue?
    ensures var w := HandleEvent(v, Plain(Other(ch))).view;
      && w.TextBuffer[0] == [ch] && w.AtInsertionPoint() && w.BufX() == 1
      && w.OffsetX == 1 && w.CursorX == w.LineCountWidth
      && DeleteAtCursor(w).TextBuffer[0] == []
      && HandleEvent(w, Plain(Backspace)).view.TextBuffer == w.TextBuffer
  {
    ScrolledTypeLandsAtEdge(v, ch);
    var w := InsertRune(v, ch).(OffsetX := 1, CursorX := v.LineCountWidth);
    TypedAtEdge(v, ch);
    EdgeBackspaceOnFirstLine(w);
    assert Clamp(w.(OffsetX := 0)).TextBuffer == w.TextBuffer;
  }

  /** The state ScrolledTypeLandsAtEdge reaches: the character alone on the
      first line, the cursor after it, and deleting at the cursor would
      remove it. */
  lemma TypedAtEdge(v: View, ch: char)
    requires Wellformed(v) && v.Cols == 1 && v.OffsetX == 0
    requires v.BufY() == 0 && v.TextBuffer[0] == []
    ensures var w := InsertRune(v, ch).(OffsetX := 1, CursorX := v.LineCountWidth);
      && w.TextBuffer[0] == [ch] && w.AtInsertionPoint() && w.BufX() == 1
      && w.CursorY == 0 && 1 <= |w.TextBuffer|
      && DeleteAtCursor(w).TextBuffer[0] == []
  {
    var i := InsertRune(v, ch);
    assert v.AtInsertionPoint() && v.BufX() == 0;
    assert i.TextBuffer[0] == [] + [ch] + [];
    var w := i.(OffsetX := 1, CursorX := v.LineCountWidth);
    assert w.AtInsertionPoint() && w.BufX() == 1;
    assert DeleteAtCursor(w).TextBuffer[0] == RemoveAt([ch], 0);
  }

  /** Typing on the empty first line of a one-column screen: the character
      is inserted and the view scrolls one column. */
  lemma ScrolledTypeLandsAtEdge(v: View, ch: char)
    requires Wellformed(v) && v.Cols == 1 && v.OffsetX == 0
    requires v.BufY() == 0 && v.TextBuffer[0] == []
    ensures HandleEvent(v, Plain(Other(ch)))
      == Continue(InsertRune(v, ch).(OffsetX := 1, CursorX := v.LineCountWidth))
  {
    var i := InsertRune(v, ch);
    assert v.AtInsertionPoint();
    assert |i.TextBuffer[0]| == 1 && i.CursorX == v.CursorX + 1;
    var w := i.(OffsetX := 1, CursorX := v.LineCountWidth);
    assert w.BufY() == 0 && w.BufX() == 1;
    assert KeyOther(v, ch) == Continue(w);
    assert Clamp(w) == w;
  }

  /** As written, Backspace at the left edge of the first line, scrolled one
      column, only scrolls back: deleteAtCursor then runs at column 0. */
  lemma EdgeBackspaceOnFirstLine(w: View)
    requires w.OffsetX == 1 && w.CursorX == w.LineCountWidth && w.BufY() == 0
    requires 1 <= |w.TextBuffer| && w.CursorY == 0
    ensures KeyBackspace(w) == w.(OffsetX := 0)
  {
    var w1 := w.(OffsetX := 0);
    assert DeleteAtCursor(w1) == w1;
  }

  /** Backspace with both edge scrolls keeping the buffer column: lowering
      OffsetX moves the screen cursor one column right, as write.go:80-83
      already does. */
  function KeyBackspaceKeepingColumn(v: View): (w: View)
    ensures SameScreen(v, w)
  {
    ScrollKeepingColumn(AfterDelete(DeleteAtCursor(ScrollKeepingColumn(v))))
  }

  /** The corrected edge scroll: the view moves one column left and the
      screen cursor one column right, so the cursor stays on its buffer
      position. */
  function ScrollKeepingColumn(v: View): (w: View)
    ensures w == v.(OffsetX := w.OffsetX, CursorX := w.CursorX)
    ensures w.BufX() == v.BufX()
    ensures v.OffsetX >= 0 ==> w.OffsetX >= 0
    ensures v.OnScreen() && v.Cols >= 2 ==> w.OnScreen()
  {
    if v.CursorX == v.LineCountWidth && v.OffsetX > 0 then v.(OffsetX := v.OffsetX - 1, CursorX := v.CursorX + 1)
    else v
  }

  /** Corrected, Backspace edits the buffer exactly as deleteAtCursor does at
      the cursor, in every reachable state, and keeps the state reachable. */
  lemma KeepingColumnDeletesAtCursor(v: View)
    requires Wellformed(v)
    ensures Clamp(KeyBackspaceKeepingColumn(v)).TextBuffer == DeleteAtCursor(v).TextBuffer
    ensures Wellformed(Clamp(KeyBackspaceKeepingColumn(v)))
  {
    var d := DeleteAtCursor(ScrollKeepingColumn(v));
    ScrollThenDelete(v);
    var w := KeyBackspaceKeepingColumn(v);
    assert w.TextBuffer == d.TextBuffer && w.BufY() == d.BufY();
    ClampSettled(w);
  }

  /** The corrected edge scroll does not change what deleteAtCursor removes,
      and the line the cursor ends on is in the buffer. */
  lemma ScrollThenDelete(v: View)
    requires Wellformed(v)
    ensures var d := DeleteAtCursor(ScrollKeepingColumn(v));
      && d.TextBuffer == DeleteAtCursor(v).TextBuffer
      && |d.TextBuffer| >= 1 && 0 <= d.BufY() < |d.TextBuffer|
  {
    var v1 := ScrollKeepingColumn(v);
    assert DeleteAtCursor(v1).TextBuffer == DeleteAtCursor(v).TextBuffer;
  }

  /** Corrected, typing a character and pressing Backspace gives back the
      text in every reachable state, scrolled or not. */
  lemma TypeThenBackspaceKeepingColumn(v: View, ch: char)
    requires Wellformed(v) && v.AtInsertionPoint()
    ensures var w := HandleEvent(v, Plain(Other(ch))).view;
      Clamp(KeyBackspaceKeepingColumn(w)).TextBuffer == v.TextBuffer
  {
    KeyOtherInserts(v, ch);
    HandleEventKeepsWellformed(v, Plain(Other(ch)));
    var w := HandleEvent(v, Plain(Other(ch))).view;
    KeepingColumnDeletesAtCursor(w);
    var u := InsertRune(v, ch);
    DeleteSeesOnlyBufferPosition(w, u);
    DeleteAfterInsertRune(v, ch);
  }

  /** What deleteAtCursor does to the buffer depends only on the buffer and
      the cursor's buffer position, not on how the view is scrolled. */
  lemma DeleteSeesOnlyBufferPosition(a: View, b: View)
    requires a.TextBuffer == b.TextBuffer && a.BufX() == b.BufX() && a.BufY() == b.BufY()
    ensures DeleteAtCursor(a).TextBuffer == DeleteAtCursor(b).TextBuffer
  {
  }

  // ---------------------------------------------------------------------
  // 2. The column fix of Up and Down ignores the scroll (write.go:27-29, 39-41)

  /** As written, moving down from a horizontally scrolled view onto an
      empty line leaves the cursor at buffer column OffsetX, past the end of
      the line: the column fix compares the screen column with the length. */
  lemma DownWhileScrolledPassesLineEnd(v: View)
    requires Wellformed(v) && v.OffsetX > 0 && v.CursorY + 1 < v.Rows
    requires v.BufY() + 1 < |v.TextBuffer| && v.TextBuffer[v.BufY() + 1] == []
    ensures HandleEvent(v, Plain(Down)).Continue?
    ensures var w := HandleEvent(v, Plain(Down)).view;
      && w.BufY() == v.BufY() + 1 && w.BufX() == v.OffsetX
      && !w.AtInsertionPoint()
  {
    KeyDownSettled(v);
  }

  /** The column fix on buffer columns: a cursor past the end of the new line
      moves to the end, scrolling left when the end is off screen. */
  function FitColumnToLine(v: View): (r: Reaction)
    ensures r != Return
  {
    var row := v.BufY();
    if row >= |v.TextBuffer| then Continue(v)
    else if row < 0 then Panic
    else
      var len := |v.TextBuffer[row]|;
      if v.BufX() <= len then Continue(v)
      else if len >= v.OffsetX then Continue(v.(CursorX := len - v.OffsetX + v.LineCountWidth))
      else Continue(v.(OffsetX := len, CursorX := v.LineCountWidth))
  }

  /** Corrected, a vertical move from a reachable state lands at an insertion
      point of the new line: the old column, or the line's end if that is
      shorter. */
  lemma FittedMovesStayInLine(v: View, up: bool)
    requires Wellformed(v)
    ensures var r := FitColumnToLine(if up then MoveUp(v) else MoveDown(v));
      && r.Continue? && Wellformed(r.view) && r.view.AtInsertionPoint()
      && r.view.TextBuffer == v.TextBuffer
      && r.view.BufY() == (if up then (if v.BufY() > 0 then v.BufY() - 1 else 0)
                           else (if v.BufY() + 1 < |v.TextBuffer| then v.BufY() + 1 else v.BufY()))
      && r.view.BufX() == (if v.BufX() <= |r.view.TextBuffer[r.view.BufY()]| then v.BufX()
                           else |r.view.TextBuffer[r.view.BufY()]|)
  {
  }

  // ---------------------------------------------------------------------
  // 3. Enter while scrolled leaves the cursor off the new line (write.go:238)

  /** As written, Enter at the end of a line in a horizontally scrolled view
      puts the cursor at buffer column OffsetX of the new, empty line: not an
      insertion point, so a character typed next is dropped by insertRune. */
  lemma EnterWhileScrolledDropsTyping(v: View, ch: char)
    requires Wellformed(v) && v.OffsetX > 0 && v.BufX() == |v.TextBuffer[v.BufY()]|
    ensures var w := HandleEvent(v, Plain(Enter)).view;
      && w.TextBuffer == InsertEnter(v).TextBuffer
      && w.TextBuffer[w.BufY()] == [] && w.BufX() == v.OffsetX
      && !w.AtInsertionPoint()
      && HandleEvent(w, Plain(Other(ch))).view.TextBuffer == w.TextBuffer
  {
    KeyEnterSplits(v);
    HandleEventKeepsWellformed(v, Plain(Enter));
    var w := HandleEvent(v, Plain(Enter)).view;
    KeyOtherInserts(w, ch);
  }

  /** Enter with the cursor sent to the start of the new line: the scroll is
      reset together with CursorX. */
  function KeyEnterAtLineStart(v: View): (w: View)
    ensures SameScreen(v, w)
  {
    KeyEnter(v).(OffsetX := 0)
  }

  /** Corrected, Enter from a reachable state leaves the cursor at column 0
      of the new line, an insertion point. */
  lemma EnterAtLineStartLandsOnNewLine(v: View)
    requires Wellformed(v)
    ensures var w := Clamp(KeyEnterAtLineStart(v));
      && Wellformed(w) && w.AtInsertionPoint()
      && w.TextBuffer == InsertEnter(v).TextBuffer
      && w.BufY() == v.BufY() + 1 && w.BufX() == 0
  {
    KeyEnterSettled(v);
  }

  /** Corrected, Enter then Backspace gives back the text in every reachable
      state: the split and the join undo each other. */
  lemma EnterAtLineStartThenBackspace(v: View)
    requires Wellformed(v)
    ensures var w := Clamp(KeyEnterAtLineStart(v));
      HandleEvent(w, Plain(Backspace)).view.TextBuffer == v.TextBuffer
  {
    EnterAtLineStartLandsOnNewLine(v);
    var w := Clamp(KeyEnterAtLineStart(v));
    KeyBackspaceDeletes(w);
    var y := v.BufY();
    var line := v.TextBuffer[y];
    var x := Clip(v.BufX(), |line|);
    assert line[..x] + line[x..] == line;
    assert DeleteAtCursor(w).TextBuffer == v.TextBuffer[..y] + [line] + v.TextBuffer[y + 1..];
    assert v.TextBuffer[..y] + [line] + v.TextBuffer[y + 1..] == v.TextBuffer;
  }

  // ---------------------------------------------------------------------
  // 4. Backspace joining onto a long line (write.go:283, 193-195)

  /** As written, Backspace at the start of a line joins it onto a previous
      line at least as wide as the screen; deleteAtCursor puts the cursor
      past the right edge, and the clamp pulls it back without scrolling, so
      it lands inside the previous line's text instead of at the join. */
  lemma LongJoinLandsInsidePreviousLine(w: View)
    requires Wellformed(w) && w.OffsetX == 0 && w.CursorX == w.LineCountWidth && w.BufY() > 0
    requires |w.TextBuffer[w.BufY() - 1]| >= w.Cols
    ensures var u := HandleEvent(w, Plain(Backspace)).view;
      && u.TextBuffer == DeleteAtCursor(w).TextBuffer
      && u.BufY() == w.BufY() - 1 && u.OffsetX == 0
      && u.BufX() == w.Cols - 1 && u.BufX() < |w.TextBuffer[w.BufY() - 1]|
  {
    assert EdgeScroll(w) == w;
    var d := DeleteAtCursor(w);
    assert d.OffsetX == 0 && d.BufY() == w.BufY() - 1;
    assert d.CursorX == |w.TextBuffer[w.BufY() - 1]| + w.LineCountWidth;
    var a := AfterDelete(d);
    assert a == d.(CursorY := a.CursorY, OffsetY := a.OffsetY);
    assert KeyBackspace(w) == a;
  }

  /** The horizontal scroll that Right and a typed key already do
      (write.go:59-62, 106-109), for any distance: a cursor past the right
      edge is brought to the last column and the view scrolls with it. */
  function FollowCursor(v: View): (w: View)
    ensures SameScreen(v, w) && w.TextBuffer == v.TextBuffer
    ensures w.BufY() == v.BufY() && w.BufX() == v.BufX()
    ensures v.CursorX < v.Cols + v.LineCountWidth ==> w == v
    ensures v.CursorX >= v.Cols + v.LineCountWidth ==>
      w.CursorX == v.Cols + v.LineCountWidth - 1 && w.OffsetX > v.OffsetX
  {
    if v.CursorX >= v.Cols + v.LineCountWidth then
      var shift := v.CursorX - (v.Cols + v.LineCountWidth - 1);
      v.(OffsetX := v.OffsetX + shift, CursorX := v.CursorX - shift)
    else v
  }

  /** Backspace, followed by the scroll that keeps the cursor in view. */
  function KeyBackspaceFollowingCursor(v: View): (w: View)
    ensures SameScreen(v, w)
  {
    FollowCursor(KeyBackspace(v))
  }

  /** Corrected, Backspace at the start of any line but the first lands at
      the join point, whatever the previous line's length, in a reachable
      state at an insertion point. */
  lemma FollowedJoinLandsAtJoinPoint(w: View)
    requires Wellformed(w) && w.OffsetX == 0 && w.CursorX == w.LineCountWidth && w.BufY() > 0
    ensures var u := Clamp(KeyBackspaceFollowingCursor(w));
      && u.TextBuffer == DeleteAtCursor(w).TextBuffer
      && u.BufY() == w.BufY() - 1 && u.BufX() == |w.TextBuffer[w.BufY() - 1]|
      && Wellformed(u) && u.AtInsertionPoint()
  {
    assert EdgeScroll(w) == w;
    var d := DeleteAtCursor(w);
    assert d.OffsetX == 0 && d.BufY() == w.BufY() - 1 && |d.TextBuffer| >= 1;
    assert d.CursorX == |w.TextBuffer[w.BufY() - 1]| + w.LineCountWidth;
    var a := AfterDelete(d);
    assert a == d.(CursorY := a.CursorY, OffsetY := a.OffsetY);
    assert KeyBackspace(w) == a;
    var f := FollowCursor(a);
    assert f.OnScreen() && f.OffsetX >= 0;
    assert Clamp(f) == f;
  }
}
