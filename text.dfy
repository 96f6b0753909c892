/**
 * The buffer and viewport engine of write mode (core/write.go), stated on
 * values. A View holds the EditorCore fields that write mode reads and
 * writes; every function below is one step of the Go code, and the class
 * Core.EditorCore runs the same steps on its own fields.
 *
 * Screen and buffer coordinates are tied by a fixed gutter of
 * LineCountWidth columns: the cursor stands on buffer line
 * CursorY + OffsetY, column CursorX - LineCountWidth + OffsetX.
 */
module Text {

  /** The EditorCore fields that write mode touches. */
  datatype View = View(
    TextBuffer: seq<seq<char>>,
    CursorX: int, CursorY: int,
    OffsetX: int, OffsetY: int,
    Rows: int, Cols: int,
    LineCountWidth: int)
  {
    /** The buffer column under the cursor (write.go:208, 244, 266). */
    function BufX(): int { CursorX - LineCountWidth + OffsetX }

    /** The buffer line under the cursor (write.go:209, 245, 267). */
    function BufY(): int { CursorY + OffsetY }

    predicate LineInRange() { 0 <= BufY() < |TextBuffer| }

    /** The cursor is an insertion point: its line exists and its column is in [0, len]. */
    predicate AtInsertionPoint() {
      LineInRange() && 0 <= BufX() <= |TextBuffer[BufY()]|
    }

    /** The screen cursor lies in the text area: rows [0, Rows), columns right of the gutter. */
    predicate OnScreen() {
      0 <= CursorY < Rows && LineCountWidth <= CursorX < Cols + LineCountWidth
    }
  }

  /** A key pressed without modifier. Other stands for every key the switch in
      loopWrite does not name; it carries the rune the terminal reports. */
  datatype Key = Up | Down | Left | Right | Backspace | Enter | Esc | Other(ch: char)

  /** One key event of write mode. Modified is a key pressed with a modifier
      other than the Ctrl word jumps, for which only the final clamp runs. */
  datatype Event = Plain(key: Key) | Modified

  /** What loopWrite does with one event: carry on with a new view, return to
      the caller (Esc), or stop on a Go index-out-of-range panic. */
  datatype Reaction = Continue(view: View) | Return | Panic

  /** The reachable states of write mode: at least one line, a positive
      screen, the cursor on screen, non-negative offsets, and the cursor's
      line inside the buffer. */
  predicate Wellformed(v: View) {
    && |v.TextBuffer| >= 1
    && v.Rows >= 1 && v.Cols >= 1
    && v.OnScreen()
    && v.OffsetX >= 0 && v.OffsetY >= 0
    && v.BufY() < |v.TextBuffer|
  }

  /** The fields no write-mode step changes. */
  predicate SameScreen(v: View, w: View) {
    w.Rows == v.Rows && w.Cols == v.Cols && w.LineCountWidth == v.LineCountWidth
  }

  // ---------------------------------------------------------------------
  // Line surgery

  /** `x` clipped into [0, hi] (write.go:215-220). */
  function Clip(x: int, hi: nat): (c: nat)
    ensures c <= hi
    ensures 0 <= x <= hi ==> c == x
    ensures x < 0 ==> c == 0
    ensures x > hi ==> c == hi
  {
    if x < 0 then 0 else if x > hi then hi else x
  }

  /** `line` with `r` placed at column x (write.go:256-261). */
  function InsertAt(line: seq<char>, x: nat, r: char): (l: seq<char>)
    requires x <= |line|
    ensures |l| == |line| + 1
    ensures l[x] == r && l[..x] == line[..x] && l[x + 1..] == line[x..]
    ensures multiset(l) == multiset(line) + multiset{r}
  {
    assert line == line[..x] + line[x..];
    line[..x] + [r] + line[x..]
  }

  /** `line` without the character at column x (write.go:289-291). */
  function RemoveAt(line: seq<char>, x: nat): (l: seq<char>)
    requires x < |line|
    ensures |l| == |line| - 1
    ensures l[..x] == line[..x] && l[x..] == line[x + 1..]
    ensures multiset(l) == multiset(line) - multiset{line[x]}
  {
    assert line == line[..x] + [line[x]] + line[x + 1..];
    line[..x] + line[x + 1..]
  }

  lemma RemoveInserted(line: seq<char>, x: nat, r: char)
    requires x <= |line|
    ensures RemoveAt(InsertAt(line, x, r), x) == line
  {
    var l := InsertAt(line, x, r);
    assert RemoveAt(l, x) == line[..x] + line[x..];
    assert line[..x] + line[x..] == line;
  }

  // ---------------------------------------------------------------------
  // The three edit primitives

  /** insertRune (write.go:243-263). */
  function InsertRune(v: View, r: char): (w: View)
    ensures SameScreen(v, w)
    ensures v.AtInsertionPoint() ==>
      var x, y := v.BufX(), v.BufY();
      && |w.TextBuffer| == |v.TextBuffer|
      && w.TextBuffer[y] == v.TextBuffer[y][..x] + [r] + v.TextBuffer[y][x..]
      && (forall i :: 0 <= i < |v.TextBuffer| && i != y ==> w.TextBuffer[i] == v.TextBuffer[i])
      && w == v.(TextBuffer := w.TextBuffer, CursorX := v.CursorX + 1)
    ensures !v.AtInsertionPoint() ==> w == v
  {
    var x, y := v.BufX(), v.BufY();
    if y < 0 || y >= |v.TextBuffer| || x < 0 || x > |v.TextBuffer[y]| then
      v
    else
      v.(TextBuffer := v.TextBuffer[y := InsertAt(v.TextBuffer[y], x, r)],
         CursorX := v.CursorX + 1)
  }

  /** insertEnter (write.go:207-241): split the cursor's line at its column,
      clipped to the line. */
  function InsertEnter(v: View): (w: View)
    ensures SameScreen(v, w)
    ensures v.LineInRange() ==>
      var y := v.BufY();
      var line := v.TextBuffer[y];
      var x := Clip(v.BufX(), |line|);
      && |w.TextBuffer| == |v.TextBuffer| + 1
      && w.TextBuffer[..y] == v.TextBuffer[..y]
      && w.TextBuffer[y] == line[..x]
      && w.TextBuffer[y + 1] == line[x..]
      && w.TextBuffer[y + 2..] == v.TextBuffer[y + 1..]
      && w == v.(TextBuffer := w.TextBuffer, CursorX := v.LineCountWidth, CursorY := v.CursorY + 1)
    ensures !v.LineInRange() ==> w == v
  {
    var y := v.BufY();
    if y < 0 || y >= |v.TextBuffer| then
      v
    else
      var line := v.TextBuffer[y];
      var x := Clip(v.BufX(), |line|);
      v.(TextBuffer := v.TextBuffer[..y] + [line[..x], line[x..]] + v.TextBuffer[y + 1..],
         CursorX := v.LineCountWidth,
         CursorY := v.CursorY + 1)
  }

  /** deleteAtCursor (write.go:265-296): at column <= 0 join the line onto the
      previous one; inside the line remove the character left of the cursor. */
  function DeleteAtCursor(v: View): (w: View)
    ensures SameScreen(v, w)
    ensures !v.LineInRange() ==> w == v
    ensures v.LineInRange() && v.BufX() <= 0 && v.BufY() > 0 ==>
      var y := v.BufY();
      var prev, cur := v.TextBuffer[y - 1], v.TextBuffer[y];
      && |w.TextBuffer| == |v.TextBuffer| - 1
      && w.TextBuffer[..y - 1] == v.TextBuffer[..y - 1]
      && w.TextBuffer[y - 1] == prev + cur
      && w.TextBuffer[y..] == v.TextBuffer[y + 1..]
      && w == v.(TextBuffer := w.TextBuffer, CursorX := |prev| + v.LineCountWidth, CursorY := v.CursorY - 1)
    ensures v.LineInRange() && v.BufX() <= 0 && v.BufY() == 0 ==> w == v
    ensures v.LineInRange() && 0 < v.BufX() <= |v.TextBuffer[v.BufY()]| ==>
      var x, y := v.BufX(), v.BufY();
      && |w.TextBuffer| == |v.TextBuffer|
      && w.TextBuffer[y] == v.TextBuffer[y][..x - 1] + v.TextBuffer[y][x..]
      && (forall i :: 0 <= i < |v.TextBuffer| && i != y ==> w.TextBuffer[i] == v.TextBuffer[i])
      && w == v.(TextBuffer := w.TextBuffer, CursorX := v.CursorX - 1)
    ensures v.LineInRange() && v.BufX() > |v.TextBuffer[v.BufY()]| ==> w == v
  {
    var x, y := v.BufX(), v.BufY();
    if y < 0 || y >= |v.TextBuffer| then
      v
    else if x <= 0 then
      if y > 0 then
        var prev := v.TextBuffer[y - 1];
        v.(TextBuffer := v.TextBuffer[..y - 1] + [prev + v.TextBuffer[y]] + v.TextBuffer[y + 1..],
           CursorX := |prev| + v.LineCountWidth,
           CursorY := v.CursorY - 1)
      else
        v
    else if x <= |v.TextBuffer[y]| then
      v.(TextBuffer := v.TextBuffer[y := RemoveAt(v.TextBuffer[y], x - 1)],
         CursorX := v.CursorX - 1)
    else
      v
  }

  /** The three primitives never leave the buffer without a line: a line is
      removed only when the cursor's line is not the first, so there were two. */
  lemma PrimitivesKeepALine(v: View, r: char)
    requires |v.TextBuffer| >= 1
    ensures |InsertRune(v, r).TextBuffer| >= 1
    ensures |InsertEnter(v).TextBuffer| >= 1
    ensures |DeleteAtCursor(v).TextBuffer| >= 1
  {
  }

  /** Deleting right after inserting a character restores the view. */
  lemma DeleteAfterInsertRune(v: View, r: char)
    requires v.AtInsertionPoint()
    ensures DeleteAtCursor(InsertRune(v, r)) == v
  {
    var x, y := v.BufX(), v.BufY();
    var w := InsertRune(v, r);
    assert w.BufX() == x + 1 && w.BufY() == y;
    RemoveInserted(v.TextBuffer[y], x, r);
    assert DeleteAtCursor(w).TextBuffer == v.TextBuffer[y := v.TextBuffer[y]];
  }

  /** With no horizontal scroll, deleting right after a line split joins the
      two halves again: the buffer comes back, and so does the cursor when it
      stood at an insertion point. */
  lemma DeleteAfterInsertEnter(v: View)
    requires v.LineInRange() && v.OffsetX == 0
    ensures DeleteAtCursor(InsertEnter(v)).TextBuffer == v.TextBuffer
    ensures DeleteAtCursor(InsertEnter(v)).BufY() == v.BufY()
    ensures DeleteAtCursor(InsertEnter(v)).BufX() == Clip(v.BufX(), |v.TextBuffer[v.BufY()]|)
    ensures v.AtInsertionPoint() ==> DeleteAtCursor(InsertEnter(v)) == v
  {
    var y := v.BufY();
    var line := v.TextBuffer[y];
    var x := Clip(v.BufX(), |line|);
    var w := InsertEnter(v);
    assert w.BufY() == y + 1 && w.BufX() == 0;
    var u := DeleteAtCursor(w);
    assert line[..x] + line[x..] == line;
    calc {
      u.TextBuffer;
      w.TextBuffer[..y] + [w.TextBuffer[y] + w.TextBuffer[y + 1]] + w.TextBuffer[y + 2..];
      v.TextBuffer[..y] + [line] + v.TextBuffer[y + 1..];
      { assert v.TextBuffer == v.TextBuffer[..y] + [line] + v.TextBuffer[y + 1..]; }
      v.TextBuffer;
    }
  }

  // ---------------------------------------------------------------------
  // Key handlers of loopWrite, before the final clamp

  /** The column fix after a vertical move (write.go:27-29, 39-41): a cursor
      right of the new line's length is pulled back to it. The test checks
      only `row < len`, so a negative row panics. */
  function FitColumn(v: View): (r: Reaction)
    ensures r != Return
    ensures r.Continue? ==> SameScreen(v, r.view)
    ensures v.BufY() < 0 ==> r == Panic
    ensures v.BufY() >= |v.TextBuffer| ==> r == Continue(v)
    ensures 0 <= v.BufY() < |v.TextBuffer| ==>
      var end := |v.TextBuffer[v.BufY()]| + v.LineCountWidth;
      && r.Continue? && r.view == v.(CursorX := r.view.CursorX)
      && r.view.CursorX <= v.CursorX && r.view.CursorX <= end
      && (r.view.CursorX == v.CursorX || r.view.CursorX == end)
  {
    var row := v.BufY();
    if row >= |v.TextBuffer| then Continue(v)
    else if row < 0 then Panic
    else if v.CursorX - v.LineCountWidth > |v.TextBuffer[row]| then
      Continue(v.(CursorX := |v.TextBuffer[row]| + v.LineCountWidth))
    else Continue(v)
  }

  /** KeyUp (write.go:18-29): move, then fit the column. */
  function KeyUp(v: View): (r: Reaction)
    ensures r != Return
    ensures r.Continue? ==> SameScreen(v, r.view)
  {
    FitColumn(MoveUp(v))
  }

  /** The move of KeyUp (write.go:19-25): up on screen, or scroll up at the top row. */
  function MoveUp(v: View): (w: View)
    ensures v.OffsetY >= 0 ==> w.OffsetY >= 0
    ensures w == v.(CursorY := w.CursorY, OffsetY := w.OffsetY)
  {
    if v.CursorY > 0 then v.(CursorY := v.CursorY - 1)
    else if v.OffsetY > 0 then v.(OffsetY := v.OffsetY - 1)
    else v
  }

  /** KeyDown (write.go:30-41): move, then fit the column. */
  function KeyDown(v: View): (r: Reaction)
    ensures r != Return
    ensures r.Continue? ==> SameScreen(v, r.view)
  {
    FitColumn(MoveDown(v))
  }

  /** The move of KeyDown (write.go:31-37): down on screen while there is a
      next line, or scroll down at the bottom row. */
  function MoveDown(v: View): (w: View)
    ensures Wellformed(v) ==> w.BufY() == if v.BufY() + 1 < |v.TextBuffer| then v.BufY() + 1 else v.BufY()
    ensures w == v.(CursorY := w.CursorY, OffsetY := w.OffsetY)
  {
    if v.CursorY < v.Rows - 1 && v.BufY() + 1 < |v.TextBuffer| then v.(CursorY := v.CursorY + 1)
    else if v.OffsetY + v.Rows < |v.TextBuffer| then v.(OffsetY := v.OffsetY + 1)
    else v
  }

  /** KeyLeft (write.go:42-51). */
  function KeyLeft(v: View): (w: View)
    ensures SameScreen(v, w)
  {
    if v.CursorX > v.LineCountWidth then
      var w := v.(CursorX := v.CursorX - 1);
      if w.CursorX < w.LineCountWidth then w.(CursorX := w.LineCountWidth) else w
    else if v.OffsetX > 0 then
      v.(OffsetX := v.OffsetX - 1)
    else
      v
  }

  /** KeyRight (write.go:52-64). */
  function KeyRight(v: View): (r: Reaction)
    ensures r != Return
    ensures r.Continue? ==> SameScreen(v, r.view)
  {
    var row := v.BufY();
    if row >= |v.TextBuffer| then Continue(v)
    else if row < 0 then Panic
    else if v.BufX() < |v.TextBuffer[row]| then
      var w := v.(CursorX := v.CursorX + 1);
      if w.CursorX >= w.Cols + w.LineCountWidth then
        Continue(w.(OffsetX := w.OffsetX + 1, CursorX := w.Cols + w.LineCountWidth - 1))
      else
        Continue(w)
    else Continue(v)
  }

  /** KeyBackspace (write.go:65-93): an edge scroll, the deletion, the
      scroll fixes, and a second edge scroll. Both edge scrolls (lines 67-69
      and 91-93) lower OffsetX and leave CursorX where it is. */
  function KeyBackspace(v: View): (w: View)
    ensures SameScreen(v, w)
  {
    EdgeScroll(AfterDelete(DeleteAtCursor(EdgeScroll(v))))
  }

  /** The edge scroll of Backspace (write.go:67-69, 91-93): with the cursor
      at the left screen edge and the view scrolled, scroll one column left
      without moving the screen cursor, so the buffer column drops by one. */
  function EdgeScroll(v: View): (w: View)
    ensures w == v.(OffsetX := w.OffsetX)
    ensures v.CursorX == v.LineCountWidth && v.OffsetX > 0 ==> w.OffsetX == v.OffsetX - 1 && w.BufX() == v.BufX() - 1
    ensures !(v.CursorX == v.LineCountWidth && v.OffsetX > 0) ==> w == v
  {
    if v.CursorX == v.LineCountWidth && v.OffsetX > 0 then v.(OffsetX := v.OffsetX - 1) else v
  }

  /** The scroll fixes after the deletion (write.go:71-89): back on screen
      vertically after a join, then two horizontal scrolls that keep the
      buffer column. */
  function AfterDelete(v: View): (w: View)
    ensures SameScreen(v, w) && w.TextBuffer == v.TextBuffer
    ensures w.BufY() == v.BufY()
    ensures v.CursorY < 0 ==> w.CursorY == 0
    ensures v.CursorY >= 0 ==> w.CursorY == v.CursorY
    ensures v.CursorX >= v.LineCountWidth - 1 ==> w.BufX() == v.BufX()
  {
    var v3 := if v.CursorY < 0 then v.(OffsetY := v.OffsetY + v.CursorY, CursorY := 0) else v;
    var row := v3.BufY();
    var v4 :=
      if 0 <= row < |v3.TextBuffer| && v3.OffsetX >= |v3.TextBuffer[row]| && v3.OffsetX > 0 then
        v3.(OffsetX := v3.OffsetX - 1, CursorX := v3.CursorX + 1)
      else v3;
    if v4.CursorX < v4.LineCountWidth && v4.OffsetX > 0 then
      v4.(OffsetX := v4.OffsetX - 1, CursorX := v4.LineCountWidth)
    else v4
  }

  /** KeyEnter (write.go:94-100): split, then scroll down if the cursor left the screen. */
  function KeyEnter(v: View): (w: View)
    ensures SameScreen(v, w)
  {
    var w := InsertEnter(v);
    if w.CursorY >= w.Rows then
      w.(OffsetY := w.OffsetY + w.CursorY - w.Rows + 1, CursorY := w.Rows - 1)
    else w
  }

  /** The default case (write.go:103-123): insert, scroll, then pull the
      cursor back to the end of its line. The last step indexes the buffer
      with the cursor's line unchecked. */
  function KeyOther(v: View, ch: char): (r: Reaction)
    ensures r != Return
    ensures r.Continue? ==> SameScreen(v, r.view)
  {
    var v1 := InsertRune(v, ch);
    var v2 :=
      if v1.CursorX >= v1.Cols + v1.LineCountWidth then
        v1.(OffsetX := v1.OffsetX + 1, CursorX := v1.Cols + v1.LineCountWidth - 1)
      else v1;
    var v3 :=
      if v2.CursorX < v2.LineCountWidth && v2.OffsetX > 0 then
        v2.(OffsetX := v2.OffsetX - 1, CursorX := v2.LineCountWidth)
      else v2;
    var row := v3.BufY();
    if row < 0 || row >= |v3.TextBuffer| then Panic
    else
      var lineLen := |v3.TextBuffer[row]|;
      if v3.BufX() > lineLen then
        var v4 := v3.(CursorX := lineLen - v3.OffsetX + v3.LineCountWidth);
        Continue(if v4.CursorX < v4.LineCountWidth then v4.(CursorX := v4.LineCountWidth) else v4)
      else
        Continue(v3)
  }

  /** The clamp run after every key event (write.go:180-195). */
  function Clamp(v: View): (w: View)
    ensures v.Rows >= 1 && v.Cols >= 1 ==> w.OnScreen()
    ensures v.OnScreen() ==> w == v
    ensures w == v.(CursorX := w.CursorX, CursorY := w.CursorY)
  {
    var v1 := if v.CursorY < 0 then v.(CursorY := 0) else v;
    var v2 := if v1.CursorY >= v1.Rows then v1.(CursorY := v1.Rows - 1) else v1;
    var v3 := if v2.CursorX < v2.LineCountWidth then v2.(CursorX := v2.LineCountWidth) else v2;
    if v3.CursorX >= v3.Cols + v3.LineCountWidth then v3.(CursorX := v3.Cols + v3.LineCountWidth - 1) else v3
  }

  /** The clamp after a key that carries on; a return or a panic passes
      through untouched. */
  function ThenClamp(r: Reaction): (c: Reaction)
    ensures c.Continue? <==> r.Continue?
    ensures !r.Continue? ==> c == r
    ensures r.Continue? ==>
      && c.view.TextBuffer == r.view.TextBuffer && SameScreen(r.view, c.view)
      && c.view.OffsetX == r.view.OffsetX && c.view.OffsetY == r.view.OffsetY
    ensures r.Continue? && r.view.Rows >= 1 && r.view.Cols >= 1 ==> c.view.OnScreen()
  {
    if r.Continue? then Continue(Clamp(r.view)) else r
  }

  /** One pass of loopWrite's event loop for a key event (write.go:14-203). */
  function HandleEvent(v: View, e: Event): (r: Reaction)
    ensures r == Return <==> e == Plain(Esc)
    ensures r.Continue? && v.Rows >= 1 && v.Cols >= 1 ==> r.view.OnScreen()
  {
    match e
    case Modified => Continue(Clamp(v))
    case Plain(k) =>
      match k
      case Esc => Return
      case Up => ThenClamp(KeyUp(v))
      case Down => ThenClamp(KeyDown(v))
      case Left => Continue(Clamp(KeyLeft(v)))
      case Right => ThenClamp(KeyRight(v))
      case Backspace => Continue(Clamp(KeyBackspace(v)))
      case Enter => Continue(Clamp(KeyEnter(v)))
      case Other(ch) => ThenClamp(KeyOther(v, ch))
  }

  // ---------------------------------------------------------------------
  // What one key event does from a reachable state

  /** Wellformed except for the cursor column, which the final clamp fixes. */
  predicate Settled(v: View) {
    && |v.TextBuffer| >= 1
    && v.Rows >= 1 && v.Cols >= 1
    && 0 <= v.CursorY < v.Rows
    && v.OffsetX >= 0 && v.OffsetY >= 0
    && v.BufY() < |v.TextBuffer|
  }

  lemma ClampSettled(v: View)
    requires Settled(v)
    ensures Wellformed(Clamp(v))
    ensures Clamp(v).TextBuffer == v.TextBuffer && Clamp(v).BufY() == v.BufY()
  {
  }

  lemma KeyUpSettled(v: View)
    requires Wellformed(v)
    ensures KeyUp(v).Continue? && Settled(KeyUp(v).view)
  {
  }

  lemma KeyDownSettled(v: View)
    requires Wellformed(v)
    ensures KeyDown(v).Continue? && Settled(KeyDown(v).view)
  {
  }

  lemma KeyRightSettled(v: View)
    requires Wellformed(v)
    ensures KeyRight(v).Continue? && Settled(KeyRight(v).view)
  {
  }

  lemma KeyBackspaceSettled(v: View)
    requires Wellformed(v)
    ensures Settled(KeyBackspace(v))
  {
  }

  lemma KeyEnterSettled(v: View)
    requires Wellformed(v)
    ensures Settled(KeyEnter(v))
  {
  }

  lemma KeyOtherSettled(v: View, ch: char)
    requires Wellformed(v)
    ensures KeyOther(v, ch).Continue? && Settled(KeyOther(v, ch).view)
  {
  }

  /** From a reachable state no key event reaches an out-of-range index, and
      the next state is reachable again: at least one line, the cursor's line
      inside the buffer, offsets non-negative, and the cursor on screen. */
  lemma HandleEventKeepsWellformed(v: View, e: Event)
    requires Wellformed(v)
    ensures HandleEvent(v, e) != Panic
    ensures HandleEvent(v, e).Continue? ==>
      Wellformed(HandleEvent(v, e).view) && SameScreen(v, HandleEvent(v, e).view)
  {
    match e
    case Modified =>
    case Plain(k) =>
      match k
      case Esc =>
      case Up => KeyUpSettled(v); ClampSettled(KeyUp(v).view);
      case Down => KeyDownSettled(v); ClampSettled(KeyDown(v).view);
      case Left =>
      case Right => KeyRightSettled(v); ClampSettled(KeyRight(v).view);
      case Backspace => KeyBackspaceSettled(v); ClampSettled(KeyBackspace(v));
      case Enter => KeyEnterSettled(v); ClampSettled(KeyEnter(v));
      case Other(ch) => KeyOtherSettled(v, ch); ClampSettled(KeyOther(v, ch).view);
  }

  /** The state NewEditor starts write mode in (editor.go:45-52), on a
      screen of at least one row and one column, is reachable, and its
      cursor is at an insertion point. */
  lemma InitialViewReachable(rows: int, cols: int)
    requires rows >= 1 && cols >= 1
    ensures var v := View([[]], 3, 0, 0, 0, rows, cols, 3);
      Wellformed(v) && v.AtInsertionPoint()
  {
    var v := View([[]], 3, 0, 0, 0, rows, cols, 3);
    assert v.BufX() == 0 && v.BufY() == 0 && |v.TextBuffer[0]| == 0;
  }

  /** Without horizontal scroll the cursor never passes the end of its line:
      from an insertion point, every event that carries on and leaves
      OffsetX at 0 lands at an insertion point again. */
  lemma UnscrolledEventsKeepInsertionPoint(v: View, e: Event)
    requires Wellformed(v) && v.AtInsertionPoint() && v.OffsetX == 0
    ensures HandleEvent(v, e).Continue? && HandleEvent(v, e).view.OffsetX == 0 ==>
      HandleEvent(v, e).view.AtInsertionPoint()
  {
    match e
    case Modified =>
      assert Clamp(v) == v;
    case Plain(k) =>
      match k
      case Esc =>
      case Up => KeyUpMovesOneLineUp(v); HandleEventKeepsWellformed(v, e);
      case Down => KeyDownMovesOneLineDown(v); HandleEventKeepsWellformed(v, e);
      case Left => KeyLeftMovesOneColumnLeft(v);
      case Right => KeyRightStopsAtLineEnd(v);
      case Backspace => UnscrolledBackspaceKeepsInsertionPoint(v);
      case Enter => KeyEnterSplits(v); HandleEventKeepsWellformed(v, e);
      case Other(ch) => KeyOtherInserts(v, ch); HandleEventKeepsWellformed(v, e);
  }

  /** The Backspace case of UnscrolledEventsKeepInsertionPoint. */
  lemma UnscrolledBackspaceKeepsInsertionPoint(v: View)
    requires Wellformed(v) && v.AtInsertionPoint() && v.OffsetX == 0
    ensures HandleEvent(v, Plain(Backspace)).view.AtInsertionPoint()
  {
    assert EdgeScroll(v) == v;
    var d := DeleteAtCursor(v);
    assert d.AtInsertionPoint() && d.CursorX >= d.LineCountWidth && d.OffsetX == 0;
    var a := AfterDelete(d);
    assert a.BufX() == d.BufX() && a.OffsetX == 0 && a.AtInsertionPoint();
    assert KeyBackspace(v) == a;
  }

  /** KeyUp moves one line up, stopping at the first line, never scrolls
      above the top, and leaves the text and the horizontal scroll alone. The
      column fix compares the screen column with the new line's length. */
  lemma KeyUpMovesOneLineUp(v: View)
    requires Wellformed(v)
    ensures HandleEvent(v, Plain(Up)).Continue?
    ensures var w := HandleEvent(v, Plain(Up)).view;
      && w.TextBuffer == v.TextBuffer && w.OffsetX == v.OffsetX
      && w.BufY() == (if v.BufY() > 0 then v.BufY() - 1 else 0)
      && 0 <= w.OffsetY <= v.OffsetY
      && w.CursorX - w.LineCountWidth <= |w.TextBuffer[w.BufY()]|
      && w.CursorX == (if v.CursorX - v.LineCountWidth > |w.TextBuffer[w.BufY()]|
                       then |w.TextBuffer[w.BufY()]| + v.LineCountWidth else v.CursorX)
  {
    KeyUpSettled(v);
  }

  /** KeyDown moves one line down, stopping at the last line. */
  lemma KeyDownMovesOneLineDown(v: View)
    requires Wellformed(v)
    ensures HandleEvent(v, Plain(Down)).Continue?
    ensures var w := HandleEvent(v, Plain(Down)).view;
      && w.TextBuffer == v.TextBuffer && w.OffsetX == v.OffsetX
      && w.BufY() == (if v.BufY() + 1 < |v.TextBuffer| then v.BufY() + 1 else v.BufY())
      && w.OffsetY >= v.OffsetY
      && w.CursorX - w.LineCountWidth <= |w.TextBuffer[w.BufY()]|
      && w.CursorX == (if v.CursorX - v.LineCountWidth > |w.TextBuffer[w.BufY()]|
                       then |w.TextBuffer[w.BufY()]| + v.LineCountWidth else v.CursorX)
  {
    KeyDownSettled(v);
  }

  /** KeyLeft moves one column left, stopping at column 0; it never leaves the line. */
  lemma KeyLeftMovesOneColumnLeft(v: View)
    requires Wellformed(v)
    ensures var w := HandleEvent(v, Plain(Left)).view;
      && w.TextBuffer == v.TextBuffer && w.BufY() == v.BufY()
      && w.BufX() == (if v.BufX() > 0 then v.BufX() - 1 else 0)
  {
  }

  /** KeyRight moves one column right only while the column is left of the
      line's end; it never leaves the line. */
  lemma KeyRightStopsAtLineEnd(v: View)
    requires Wellformed(v)
    ensures HandleEvent(v, Plain(Right)).Continue?
    ensures var w := HandleEvent(v, Plain(Right)).view;
      && w.TextBuffer == v.TextBuffer && w.BufY() == v.BufY()
      && w.BufX() == (if v.BufX() < |v.TextBuffer[v.BufY()]| then v.BufX() + 1 else v.BufX())
  {
    KeyRightSettled(v);
  }

  /** A typed character is inserted by insertRune; at an insertion point the
      cursor advances one column, scrolling if it reaches the right edge. */
  lemma KeyOtherInserts(v: View, ch: char)
    requires Wellformed(v)
    ensures HandleEvent(v, Plain(Other(ch))).Continue?
    ensures var w := HandleEvent(v, Plain(Other(ch))).view;
      && w.TextBuffer == InsertRune(v, ch).TextBuffer && w.BufY() == v.BufY()
      && (v.AtInsertionPoint() ==> w.BufX() == v.BufX() + 1)
  {
    KeyOtherSettled(v, ch);
  }

  /** Enter splits the line with insertEnter and puts the cursor on the new
      line, at the first screen column: buffer column OffsetX. */
  lemma KeyEnterSplits(v: View)
    requires Wellformed(v)
    ensures var w := HandleEvent(v, Plain(Enter)).view;
      && w.TextBuffer == InsertEnter(v).TextBuffer
      && w.BufY() == v.BufY() + 1
      && w.OffsetX == v.OffsetX && w.BufX() == v.OffsetX
  {
    KeyEnterSettled(v);
  }

  /** Without horizontal scroll, Backspace edits the buffer exactly as
      deleteAtCursor does at the cursor. */
  lemma KeyBackspaceDeletes(v: View)
    requires Wellformed(v) && v.OffsetX == 0
    ensures var w := HandleEvent(v, Plain(Backspace)).view;
      && w.TextBuffer == DeleteAtCursor(v).TextBuffer
      && w.BufY() == DeleteAtCursor(v).BufY()
  {
    KeyBackspaceSettled(v);
  }

  /** Typing a character and pressing Backspace gives back the same state,
      when nothing scrolls horizontally. */
  lemma TypeThenBackspace(v: View, ch: char)
    requires Wellformed(v) && v.AtInsertionPoint()
    requires v.OffsetX == 0 && v.CursorX + 1 < v.Cols + v.LineCountWidth
    ensures HandleEvent(v, Plain(Other(ch))).Continue?
    ensures HandleEvent(HandleEvent(v, Plain(Other(ch))).view, Plain(Backspace)) == Continue(v)
  {
    var w := InsertRune(v, ch);
    assert KeyOther(v, ch) == Continue(w);
    assert HandleEvent(v, Plain(Other(ch))) == Continue(w);
    DeleteAfterInsertRune(v, ch);
    assert KeyBackspace(w) == DeleteAtCursor(w);
  }

  /** Backspace at the start of a line, without horizontal scroll, joins the
      line onto the previous one and lands at the join point, when that point
      is on screen. */
  lemma BackspaceAtLineStart(w: View)
    requires Wellformed(w) && w.OffsetX == 0 && w.CursorX == w.LineCountWidth && w.BufY() > 0
    requires |w.TextBuffer[w.BufY() - 1]| < w.Cols
    ensures var u := HandleEvent(w, Plain(Backspace)).view;
      && u.TextBuffer == DeleteAtCursor(w).TextBuffer
      && u.BufY() == w.BufY() - 1 && u.OffsetX == 0
      && u.CursorX == |w.TextBuffer[w.BufY() - 1]| + w.LineCountWidth
  {
    var d := DeleteAtCursor(w);
    assert d.OffsetX == 0 && d.BufY() == w.BufY() - 1;
    var a := AfterDelete(d);
    assert a == d.(CursorY := a.CursorY, OffsetY := a.OffsetY);
    assert KeyBackspace(w) == a;
    assert a.OnScreen();
  }

  /** Enter then Backspace, without horizontal scroll, gives back the text
      and the cursor's buffer position; only the vertical scroll may differ. */
  lemma EnterThenBackspace(v: View)
    requires Wellformed(v) && v.AtInsertionPoint() && v.OffsetX == 0
    ensures var u := HandleEvent(HandleEvent(v, Plain(Enter)).view, Plain(Backspace)).view;
      && u.TextBuffer == v.TextBuffer
      && u.BufY() == v.BufY() && u.BufX() == v.BufX()
      && u.CursorX == v.CursorX
  {
    KeyEnterSplits(v);
    HandleEventKeepsWellformed(v, Plain(Enter));
    var w := HandleEvent(v, Plain(Enter)).view;
    var e := InsertEnter(v);
    assert w.CursorX == w.LineCountWidth;
    assert |w.TextBuffer[w.BufY() - 1]| == v.BufX();
    BackspaceAtLineStart(w);
    assert e.BufY() == w.BufY() && e.BufX() == 0;
    assert DeleteAtCursor(w).TextBuffer == DeleteAtCursor(e).TextBuffer;
    DeleteAfterInsertEnter(v);
  }
}
