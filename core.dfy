/**
 * EditorCore (core/editor.go:11-33) as a class: the fields that the core
 * updates in place, and its operations as methods that update them step by
 * step as the Go code does. Each method is proved against the value-level
 * definition it refines: the write-mode steps of module Text, the registry
 * operations of module Registry.
 */
module Core {
  import opened Optional
  import Text
  import opened Registry
  import Commands

  class EditorCore {
    var TextBuffer: seq<seq<char>>
    var CursorX: int
    var CursorY: int
    var OffsetX: int
    var OffsetY: int
    var Cols: int
    var Rows: int
    var plugins: map<string, Plugin>
    var commands: CommandMap
    var InputBuffer: seq<char>
    var LineCountWidth: int

    /** The fields write mode reads and writes. */
    function View(): Text.View
      reads this
    {
      Text.View(TextBuffer, CursorX, CursorY, OffsetX, OffsetY, Rows, Cols, LineCountWidth)
    }

    /** The fields of the plugin system. */
    function Tables(): Registry.Tables
      reads this
    {
      Registry.Tables(plugins, commands)
    }

    /** NewEditor (editor.go:35-65) once the terminal is set up: one empty
        line, the cursor right of the three-column gutter, at buffer column
        0 of line 0, no plugins, and the built-in commands. Rows and Cols
        keep Go's zero value: nothing in the core assigns them. */
    constructor ()
      ensures TextBuffer == [[]] && InputBuffer == []
      ensures CursorX == LineCountWidth == 3 && CursorY == 0 && OffsetX == 0 && OffsetY == 0
      ensures Rows == 0 && Cols == 0
      ensures plugins == map[] && Commands.HoldsBuiltins(commands)
    {
      TextBuffer := [[]];
      CursorX := 3;
      CursorY := 0;
      OffsetX := 0;
      OffsetY := 0;
      Cols := 0;
      Rows := 0;
      plugins := map[];
      commands := map[];
      InputBuffer := [];
      LineCountWidth := 3;
      new;
      RegisterBuiltInCommands();
    }

    // -------------------------------------------------------------------
    // The edit primitives (write.go:207-296)

    /** insertRune (write.go:243-263). Out of bounds, the Go code shows a
        message and changes nothing. */
    method InsertRune(r: char)
      modifies this`TextBuffer, this`CursorX
      ensures View() == Text.InsertRune(old(View()), r)
    {
      var x := CursorX - LineCountWidth + OffsetX;
      var y := CursorY + OffsetY;
      if y < 0 || y >= |TextBuffer| || x < 0 || x > |TextBuffer[y]| {
        return;
      }
      var line := TextBuffer[y];
      var newLine := line[..x] + [r] + line[x..];
      TextBuffer := TextBuffer[y := newLine];
      CursorX := CursorX + 1;
    }

    /** insertEnter (write.go:207-241). */
    method InsertEnter()
      modifies this`TextBuffer, this`CursorX, this`CursorY
      ensures View() == Text.InsertEnter(old(View()))
    {
      var x := CursorX - LineCountWidth + OffsetX;
      var y := CursorY + OffsetY;
      if y < 0 || y >= |TextBuffer| {
        return;
      }
      if x < 0 {
        x := 0;
      }
      if x > |TextBuffer[y]| {
        x := |TextBuffer[y]|;
      }
      var currentLine := TextBuffer[y];
      var beforeCursor := currentLine[..x];
      var afterCursor := currentLine[x..];
      TextBuffer := TextBuffer[..y] + [beforeCursor, afterCursor] + TextBuffer[y + 1..];
      CursorX := LineCountWidth;
      CursorY := CursorY + 1;
    }

    /** deleteAtCursor (write.go:265-296). */
    method DeleteAtCursor()
      modifies this`TextBuffer, this`CursorX, this`CursorY
      ensures View() == Text.DeleteAtCursor(old(View()))
    {
      var x := CursorX - LineCountWidth + OffsetX;
      var y := CursorY + OffsetY;
      if y < 0 || y >= |TextBuffer| {
        return;
      }
      if x <= 0 {
        if y > 0 {
          var prevLineLength := |TextBuffer[y - 1]|;
          var joined := TextBuffer[y - 1] + TextBuffer[y];
          TextBuffer := TextBuffer[..y - 1] + [joined] + TextBuffer[y + 1..];
          CursorX := prevLineLength + LineCountWidth;
          CursorY := CursorY - 1;
        }
      } else if x <= |TextBuffer[y]| {
        var beforeSlice := TextBuffer[y][..x - 1];
        var afterSlice := TextBuffer[y][x..];
        TextBuffer := TextBuffer[y := beforeSlice + afterSlice];
        CursorX := CursorX - 1;
      }
    }

    // -------------------------------------------------------------------
    // The keys of loopWrite (write.go:17-123) and the final clamp

    method KeyUp()
      requires Text.KeyUp(View()).Continue?
      modifies this`CursorX, this`CursorY, this`OffsetY
      ensures View() == Text.KeyUp(old(View())).view
    {
      if CursorY > 0 {
        CursorY := CursorY - 1;
      } else if OffsetY > 0 {
        OffsetY := OffsetY - 1;
      }
      if CursorY + OffsetY < |TextBuffer| && CursorX - LineCountWidth > |TextBuffer[CursorY + OffsetY]| {
        CursorX := |TextBuffer[CursorY + OffsetY]| + LineCountWidth;
      }
    }

    method KeyDown()
      requires Text.KeyDown(View()).Continue?
      modifies this`CursorX, this`CursorY, this`OffsetY
      ensures View() == Text.KeyDown(old(View())).view
    {
      if CursorY < Rows - 1 && CursorY + OffsetY + 1 < |TextBuffer| {
        CursorY := CursorY + 1;
      } else if OffsetY + Rows < |TextBuffer| {
        OffsetY := OffsetY + 1;
      }
      if CursorY + OffsetY < |TextBuffer| && CursorX - LineCountWidth > |TextBuffer[CursorY + OffsetY]| {
        CursorX := |TextBuffer[CursorY + OffsetY]| + LineCountWidth;
      }
    }

    method KeyLeft()
      modifies this`CursorX, this`OffsetX
      ensures View() == Text.KeyLeft(old(View()))
    {
      if CursorX > LineCountWidth {
        var x := CursorX - 1;
        if x < LineCountWidth {
          x := LineCountWidth;
        }
        CursorX := x;
      } else if OffsetX > 0 {
        OffsetX := OffsetX - 1;
      }
    }

    method KeyRight()
      requires Text.KeyRight(View()).Continue?
      modifies this`CursorX, this`OffsetX
      ensures View() == Text.KeyRight(old(View())).view
    {
      if CursorY + OffsetY < |TextBuffer| {
        var lineLen := |TextBuffer[CursorY + OffsetY]|;
        if CursorX - LineCountWidth + OffsetX < lineLen {
          CursorX := CursorX + 1;
          if CursorX >= Cols + LineCountWidth {
            OffsetX := OffsetX + 1;
            CursorX := Cols + LineCountWidth - 1;
          }
        }
      }
    }

    method KeyBackspace()
      modifies this`TextBuffer, this`CursorX, this`CursorY, this`OffsetX, this`OffsetY
      ensures View() == Text.KeyBackspace(old(View()))
    {
      EdgeScroll();
      DeleteAtCursor();
      ScrollAfterDelete();
      EdgeScroll();
    }

    /** The edge scroll of Backspace (write.go:67-69, 91-93). */
    method EdgeScroll()
      modifies this`OffsetX
      ensures View() == Text.EdgeScroll(old(View()))
    {
      if CursorX == LineCountWidth && OffsetX > 0 {
        OffsetX := OffsetX - 1;
      }
    }

    /** The scroll fixes after the deletion of Backspace (write.go:71-89). */
    method ScrollAfterDelete()
      modifies this`CursorX, this`CursorY, this`OffsetX, this`OffsetY
      ensures View() == Text.AfterDelete(old(View()))
    {
      if CursorY < 0 {
        OffsetY := OffsetY + CursorY;
        CursorY := 0;
      }
      var visibleRow := CursorY + OffsetY;
      if visibleRow >= 0 && visibleRow < |TextBuffer| {
        var line := TextBuffer[visibleRow];
        if OffsetX >= |line| && OffsetX > 0 {
          OffsetX := OffsetX - 1;
          CursorX := CursorX + 1;
        }
      }
      if CursorX < LineCountWidth && OffsetX > 0 {
        OffsetX := OffsetX - 1;
        CursorX := LineCountWidth;
      }
    }

    method KeyEnter()
      modifies this`TextBuffer, this`CursorX, this`CursorY, this`OffsetY
      ensures View() == Text.KeyEnter(old(View()))
    {
      InsertEnter();
      if CursorY >= Rows {
        OffsetY := OffsetY + CursorY - Rows + 1;
        CursorY := Rows - 1;
      }
    }

    /** The default case: a key without its own case inserts its rune. */
    method KeyOther(ch: char)
      requires Text.KeyOther(View(), ch).Continue?
      modifies this`TextBuffer, this`CursorX, this`OffsetX
      ensures View() == Text.KeyOther(old(View()), ch).view
    {
      InsertRune(ch);
      if CursorX >= Cols + LineCountWidth {
        OffsetX := OffsetX + 1;
        CursorX := Cols + LineCountWidth - 1;
      }
      if CursorX < LineCountWidth {
        if OffsetX > 0 {
          OffsetX := OffsetX - 1;
          CursorX := LineCountWidth;
        }
      }
      var lineLen := |TextBuffer[CursorY + OffsetY]|;
      if CursorX - LineCountWidth + OffsetX > lineLen {
        CursorX := lineLen - OffsetX + LineCountWidth;
        if CursorX < LineCountWidth {
          CursorX := LineCountWidth;
        }
      }
    }

    /** The bounds check after every key event (write.go:180-195). */
    method ClampCursor()
      modifies this`CursorX, this`CursorY
      ensures View() == Text.Clamp(old(View()))
    {
      if CursorY < 0 {
        CursorY := 0;
      }
      if CursorY >= Rows {
        CursorY := Rows - 1;
      }
      if CursorX < LineCountWidth {
        CursorX := LineCountWidth;
      }
      if CursorX >= Cols + LineCountWidth {
        CursorX := Cols + LineCountWidth - 1;
      }
    }

    /** One key event of loopWrite (write.go:14-203). The caller must not
        send an event on which the Go code indexes out of range; from a
        reachable state there is none. Esc returns to the caller and changes
        nothing. */
    method WriteEvent(e: Text.Event) returns (exit: bool)
      requires Text.HandleEvent(View(), e) != Text.Panic
      modifies this`TextBuffer, this`CursorX, this`CursorY, this`OffsetX, this`OffsetY
      ensures exit <==> e == Text.Plain(Text.Esc)
      ensures exit ==> View() == old(View())
      ensures !exit ==> View() == Text.HandleEvent(old(View()), e).view
      ensures Text.Wellformed(old(View())) ==> Text.Wellformed(View())
    {
      ghost var v := View();
      if e.Plain? {
        match e.key
        case Up => KeyUp();
        case Down => KeyDown();
        case Left => KeyLeft();
        case Right => KeyRight();
        case Backspace => KeyBackspace();
        case Enter => KeyEnter();
        case Esc => return true;
        case Other(ch) => KeyOther(ch);
      }
      ClampCursor();
      if Text.Wellformed(v) {
        Text.HandleEventKeepsWellformed(v, e);
      }
      return false;
    }

    // -------------------------------------------------------------------
    // The plugin system (plugin.go, editor.go:67-107)

    /** Stores one command under its name and then each alias (plugin.go:89-94,
        editor.go:102-105). */
    method StoreCommand(cmd: Command)
      modifies this`commands
      ensures commands == Bind(old(commands), Keys(cmd), cmd)
    {
      commands := commands[cmd.Name := cmd];
      assert Keys(cmd)[..1] == [cmd.Name];
      assert Keys(cmd)[..1][..0] == [];
      for i := 0 to |cmd.Aliases|
        invariant commands == Bind(old(commands), Keys(cmd)[..i + 1], cmd)
      {
        commands := commands[cmd.Aliases[i] := cmd];
        assert Keys(cmd)[..i + 2][..i + 1] == Keys(cmd)[..i + 1];
      }
      assert Keys(cmd)[..|cmd.Aliases| + 1] == Keys(cmd);
    }

    /** registerBuiltInCommands (editor.go:67-107). */
    method RegisterBuiltInCommands()
      modifies this`commands
      ensures Commands.StoresBuiltins(old(commands), commands)
    {
      var builtins := Commands.Builtins();
      for i := 0 to |builtins|
        invariant commands == Register(old(commands), builtins[..i])
      {
        StoreCommand(builtins[i]);
        assert builtins[..i + 1][..i] == builtins[..i];
      }
      assert builtins[..|builtins|] == builtins;
      Commands.BuiltinsStored(old(commands), builtins);
    }

    /** RegisterPlugin (plugin.go:77-101). Initialize's outcome is the
        plugin's InitFailure; its effects on the editor are not modelled. */
    method RegisterPlugin(p: Plugin) returns (err: Option<Error>)
      modifies this`plugins, this`commands
      ensures (Tables(), err) == Registry.RegisterPlugin(old(Tables()), p)
    {
      if p.InitFailure.Some? {
        return Some(InitializationFailed(p.InitFailure.value));
      }
      plugins := plugins[p.Name := p];
      for i := 0 to |p.Commands|
        invariant plugins == old(plugins)[p.Name := p]
        invariant commands == Register(old(commands), p.Commands[..i])
      {
        StoreCommand(p.Commands[i]);
        assert p.Commands[..i + 1][..i] == p.Commands[..i];
      }
      assert p.Commands[..|p.Commands|] == p.Commands;
      return None;
    }

    /** LoadPluginsFromDirectory (plugin.go:27-47) over what the directory
        scan and the loading of each file give back. */
    method LoadPluginsFromDirectory(scan: Scan) returns (err: Option<Error>)
      modifies this`plugins, this`commands
      ensures (Tables(), err) == Registry.LoadPluginsFromDirectory(old(Tables()), scan)
    {
      if scan.GlobFailed? {
        return Some(ScanFailed(scan.reason));
      }
      var entries := scan.entries;
      for i := 0 to |entries|
        invariant Tables() == LoadAll(old(Tables()), entries[..i])
      {
        assert entries[..i + 1][..i] == entries[..i];
        match entries[i]
        case OpenFailed(_) =>
        case Opened(p) =>
          var _ := RegisterPlugin(p);
      }
      assert entries[..|entries|] == entries;
      return None;
    }

    /** ListCommands (plugin.go:114-126): one key per distinct command name.
        The key kept is the first one met, which may be an alias. */
    method ListCommands() returns (names: seq<string>)
      ensures forall i :: 0 <= i < |names| ==> names[i] in commands
      ensures forall i, j :: 0 <= i < j < |names| ==> commands[names[i]].Name != commands[names[j]].Name
      ensures forall k :: k in commands ==>
        exists i :: 0 <= i < |names| && commands[names[i]].Name == commands[k].Name
    {
      names := [];
      var seen: set<string> := {};
      var rest := commands.Keys;
      while rest != {}
        invariant rest <= commands.Keys
        invariant forall i :: 0 <= i < |names| ==> names[i] in commands
        invariant forall i, j :: 0 <= i < j < |names| ==> commands[names[i]].Name != commands[names[j]].Name
        invariant forall i :: 0 <= i < |names| ==> commands[names[i]].Name in seen
        invariant forall x :: x in seen ==> exists i :: 0 <= i < |names| && commands[names[i]].Name == x
        invariant forall k :: k in commands && k !in rest ==> commands[k].Name in seen
        decreases rest
      {
        var name :| name in rest;
        var cmd := commands[name];
        if cmd.Name !in seen {
          ghost var before := names;
          names := names + [name];
          seen := seen + {cmd.Name};
          forall x | x in seen
            ensures exists i :: 0 <= i < |names| && commands[names[i]].Name == x
          {
            if x == cmd.Name {
              assert commands[names[|before|]].Name == x;
            } else {
              var i :| 0 <= i < |before| && commands[before[i]].Name == x;
              assert names[i] == before[i];
            }
          }
        }
        rest := rest - {name};
      }
    }
  }
}
