/**
 * The command registry of core/plugin.go on values: commands and plugins,
 * the `commands` map that holds every primary name and alias, plugin
 * registration, command execution, and the plugin loading loop.
 */
module Registry {
  import opened Optional

  /** What a command runs. The built-in handlers of core/coreCommands.go are
      named; a plugin's handler is identified by its plugin and an index. */
  datatype Handler = Quit | Write | Save | Open | Help | FromPlugin(plugin: string, index: nat)

  /** A command: primary name, aliases, description and handler. */
  datatype Command = Command(Name: string, Aliases: seq<string>, Description: string, Execute: Handler)

  /** A plugin: its name, its commands, and the outcome of Initialize, which
      is None on success and the error text on failure. */
  datatype Plugin = Plugin(Name: string, Commands: seq<Command>, InitFailure: Option<string>)

  /** The errors the core reports. */
  datatype Error =
    | UnknownCommand(name: string)
    | InitializationFailed(cause: string)
    | ScanFailed(cause: string)
    | HandlerFailed(text: string)

  /** The text of an error as fmt.Errorf builds it (plugin.go:32, 80, 107). */
  function Message(e: Error): string {
    match e
    case UnknownCommand(name) => "unknown command: " + name
    case InitializationFailed(cause) => "plugin initialization failed: " + cause
    case ScanFailed(cause) => "failed to scan plugin directory: " + cause
    case HandlerFailed(text) => text
  }

  type CommandMap = map<string, Command>

  /** The keys a command is stored under: its name, then its aliases. */
  function Keys(c: Command): seq<string> {
    [c.Name] + c.Aliases
  }

  // ---------------------------------------------------------------------
  // Storing commands

  /** `m[k] = c` for every k of `keys`, in order. */
  function Bind(m: CommandMap, keys: seq<string>, c: Command): (r: CommandMap)
    ensures forall k :: k in r <==> k in m || k in keys
    ensures forall k :: k in r ==> r[k] == if k in keys then c else m[k]
  {
    if |keys| == 0 then m
    else Bind(m, keys[..|keys| - 1], c)[keys[|keys| - 1] := c]
  }

  /** Every command stored under all its keys, in order (plugin.go:87-95,
      editor.go:101-106). */
  function Register(m: CommandMap, cmds: seq<Command>): (r: CommandMap)
    ensures forall k :: k in m ==> k in r
    ensures forall k :: k in r ==> k in m || Owner(cmds, k).Some?
  {
    if |cmds| == 0 then m
    else
      var last := cmds[|cmds| - 1];
      Bind(Register(m, cmds[..|cmds| - 1]), Keys(last), last)
  }

  /** The last command of the list that claims key k. */
  function Owner(cmds: seq<Command>, k: string): (o: Option<Command>)
    ensures o.Some? ==> o.value in cmds && k in Keys(o.value)
  {
    if |cmds| == 0 then None
    else if k in Keys(cmds[|cmds| - 1]) then Some(cmds[|cmds| - 1])
    else Owner(cmds[..|cmds| - 1], k)
  }

  /** Owner picks the claimer that comes last: a claimer exists exactly when
      some command of the list names k, and none after the owner does. */
  lemma {:induction false} OwnerIsLastClaimer(cmds: seq<Command>, k: string)
    ensures Owner(cmds, k).None? <==> forall i :: 0 <= i < |cmds| ==> k !in Keys(cmds[i])
    ensures Owner(cmds, k).Some? ==>
      exists i :: 0 <= i < |cmds| && cmds[i] == Owner(cmds, k).value
        && forall j :: i < j < |cmds| ==> k !in Keys(cmds[j])
  {
    if |cmds| > 0 {
      var n := |cmds| - 1;
      var init := cmds[..n];
      OwnerIsLastClaimer(init, k);
      if k in Keys(cmds[n]) {
        assert cmds[n] == Owner(cmds, k).value;
      } else {
        assert Owner(cmds, k) == Owner(init, k);
        assert forall i :: 0 <= i < n ==> cmds[i] == init[i];
        if Owner(init, k).Some? {
          var i :| 0 <= i < n && init[i] == Owner(init, k).value
            && forall j :: i < j < n ==> k !in Keys(init[j]);
          assert forall j :: i < j < |cmds| ==> k !in Keys(cmds[j]);
        } else {
          assert forall i :: 0 <= i < |cmds| ==> k !in Keys(cmds[i]);
        }
      }
    }
  }

  /** A key only one command claims belongs to that command. */
  lemma OwnerUnique(cmds: seq<Command>, i: nat, k: string)
    requires i < |cmds| && k in Keys(cmds[i])
    requires forall j :: 0 <= j < |cmds| && j != i ==> k !in Keys(cmds[j])
    ensures Owner(cmds, k) == Some(cmds[i])
  {
    OwnerIsLastClaimer(cmds, k);
    var j :| 0 <= j < |cmds| && cmds[j] == Owner(cmds, k).value
      && forall l :: j < l < |cmds| ==> k !in Keys(cmds[l]);
  }

  /** After registration a key is present exactly when it was before or some
      command claims it; it maps to its last claimer, and a key no command
      claims keeps its old command. */
  lemma {:induction false} RegisterCharacterised(m: CommandMap, cmds: seq<Command>)
    ensures forall k :: k in Register(m, cmds) <==> k in m || Owner(cmds, k).Some?
    ensures forall k :: k in Register(m, cmds) ==>
      Register(m, cmds)[k] == (if Owner(cmds, k).Some? then Owner(cmds, k).value else m[k])
  {
    if |cmds| > 0 {
      RegisterCharacterised(m, cmds[..|cmds| - 1]);
    }
  }

  /** Registering the same commands twice stores what registering once does. */
  lemma RegisterTwice(m: CommandMap, cmds: seq<Command>)
    ensures Register(Register(m, cmds), cmds) == Register(m, cmds)
  {
    var once := Register(m, cmds);
    var twice := Register(once, cmds);
    RegisterCharacterised(m, cmds);
    RegisterCharacterised(once, cmds);
    forall k | k in twice
      ensures k in once && twice[k] == once[k]
    {
      if Owner(cmds, k).None? {
        assert k in once;
      }
    }
    assert twice.Keys == once.Keys;
  }

  /** Registering a list in two parts is registering it at once. */
  lemma {:induction false} RegisterAppend(m: CommandMap, a: seq<Command>, b: seq<Command>)
    ensures Register(m, a + b) == Register(Register(m, a), b)
    decreases |b|
  {
    if |b| == 0 {
      assert a + b == a;
    } else {
      var n := |b| - 1;
      assert (a + b)[..|a + b| - 1] == a + b[..n];
      RegisterAppend(m, a, b[..n]);
    }
  }

  /** Every key is stored with a command that claims it: under its name or
      one of its aliases. */
  predicate Honest(m: CommandMap) {
    forall k :: k in m ==> k in Keys(m[k])
  }

  lemma RegisterKeepsHonest(m: CommandMap, cmds: seq<Command>)
    requires Honest(m)
    ensures Honest(Register(m, cmds))
  {
    RegisterCharacterised(m, cmds);
  }

  // ---------------------------------------------------------------------
  // Executing a command

  /** The handlers, seen from the registry: running one on arguments gives
      its error, or None. */
  type Runner = (Handler, seq<string>) -> Option<Error>

  /** ExecuteCommand (plugin.go:104-111): an unknown name is an error and
      runs nothing; a known one runs exactly its handler on the arguments
      and returns what the handler returns. */
  function ExecuteCommand(m: CommandMap, name: string, args: seq<string>, run: Runner): (r: Option<Error>)
    ensures name !in m ==> r == Some(UnknownCommand(name))
    ensures name in m ==> r == run(m[name].Execute, args)
  {
    if name !in m then Some(UnknownCommand(name)) else run(m[name].Execute, args)
  }

  /** The outcome depends on the handlers only through the one the name is
      stored with: two runners that agree on it agree on the outcome, and for
      an unknown name no runner matters. */
  lemma ExecuteCommandRunsOnlyItsHandler(m: CommandMap, name: string, args: seq<string>, run1: Runner, run2: Runner)
    requires name in m ==> run1(m[name].Execute, args) == run2(m[name].Execute, args)
    ensures ExecuteCommand(m, name, args, run1) == ExecuteCommand(m, name, args, run2)
  {
  }

  // ---------------------------------------------------------------------
  // Plugins

  /** The registry state: plugins by name and commands by key. */
  datatype Tables = Tables(plugins: map<string, Plugin>, commands: CommandMap)

  /** RegisterPlugin (plugin.go:77-101): when Initialize fails nothing is
      stored and the error is wrapped; otherwise the plugin is stored under
      its name and its commands under all their keys. */
  function RegisterPlugin(t: Tables, p: Plugin): (r: (Tables, Option<Error>))
    ensures p.InitFailure.Some? ==> r == (t, Some(InitializationFailed(p.InitFailure.value)))
    ensures p.InitFailure.None? ==> r.1 == None && r.0.plugins == t.plugins[p.Name := p]
    ensures p.InitFailure.None? ==> forall k :: k in r.0.commands <==> k in t.commands || Owner(p.Commands, k).Some?
    ensures p.InitFailure.None? ==> forall k :: k in r.0.commands ==>
      r.0.commands[k] == (if Owner(p.Commands, k).Some? then Owner(p.Commands, k).value else t.commands[k])
  {
    RegisterCharacterised(t.commands, p.Commands);
    if p.InitFailure.Some? then (t, Some(InitializationFailed(p.InitFailure.value)))
    else (Tables(t.plugins[p.Name := p], Register(t.commands, p.Commands)), None)
  }

  /** Registering the same plugin twice leaves what registering it once does. */
  lemma RegisterPluginTwice(t: Tables, p: Plugin)
    ensures RegisterPlugin(RegisterPlugin(t, p).0, p) == RegisterPlugin(t, p)
  {
    RegisterTwice(t.commands, p.Commands);
    assert t.plugins[p.Name := p][p.Name := p] == t.plugins[p.Name := p];
  }

  /** What loadPlugin (plugin.go:50-74) gets from one plugin file before
      registering it: the plugin NewPlugin returns, or the reason it could
      not be opened or looked up. */
  datatype LoadResult = Opened(plugin: Plugin) | OpenFailed(reason: string)

  /** What filepath.Glob gives back for the plugin directory. */
  datatype Scan = GlobFailed(reason: string) | Globbed(entries: seq<LoadResult>)

  /** The loop of LoadPluginsFromDirectory (plugin.go:38-44): every entry
      in turn, a failing one skipped. */
  function LoadAll(t: Tables, entries: seq<LoadResult>): (r: Tables)
    ensures t.plugins.Keys <= r.plugins.Keys && t.commands.Keys <= r.commands.Keys
  {
    if |entries| == 0 then t
    else
      var t1 := LoadAll(t, entries[..|entries| - 1]);
      match entries[|entries| - 1]
      case OpenFailed(_) => t1
      case Opened(p) => RegisterPlugin(t1, p).0
  }

  /** LoadPluginsFromDirectory (plugin.go:27-47): a failed scan is an error
      that changes nothing; otherwise every entry is loaded and no error is
      returned, whatever the entries. */
  function LoadPluginsFromDirectory(t: Tables, scan: Scan): (r: (Tables, Option<Error>))
    ensures scan.GlobFailed? ==> r == (t, Some(ScanFailed(scan.reason)))
    ensures scan.Globbed? ==> r.1 == None
  {
    match scan
    case GlobFailed(reason) => (t, Some(ScanFailed(reason)))
    case Globbed(entries) => (LoadAll(t, entries), None)
  }

  /** The plugins of the entries that open and initialise. */
  function Loadable(entries: seq<LoadResult>): (ps: seq<Plugin>)
    ensures forall i :: 0 <= i < |ps| ==> ps[i].InitFailure.None? && Opened(ps[i]) in entries
  {
    if |entries| == 0 then []
    else
      var init := Loadable(entries[..|entries| - 1]);
      match entries[|entries| - 1]
      case Opened(p) => if p.InitFailure.None? then init + [p] else init
      case OpenFailed(_) => init
  }

  /** Every entry that opens and initialises is loadable. */
  lemma {:induction false} LoadableComplete(entries: seq<LoadResult>, p: Plugin)
    requires Opened(p) in entries && p.InitFailure.None?
    ensures p in Loadable(entries)
  {
    var n := |entries| - 1;
    if entries[n] != Opened(p) {
      assert Opened(p) in entries[..n] by {
        var i :| 0 <= i < |entries| && entries[i] == Opened(p);
        assert i < n && entries[..n][i] == Opened(p);
      }
      LoadableComplete(entries[..n], p);
    }
  }

  /** The loadable plugins keep the order of their entries: those of a
      list in two parts are those of the first part, then of the second. */
  lemma {:induction false} LoadableAppend(a: seq<LoadResult>, b: seq<LoadResult>)
    ensures Loadable(a + b) == Loadable(a) + Loadable(b)
    decreases |b|
  {
    if |b| == 0 {
      assert a + b == a;
    } else {
      var n := |b| - 1;
      assert (a + b)[..|a + b| - 1] == a + b[..n] && (a + b)[|a + b| - 1] == b[n];
      LoadableAppend(a, b[..n]);
    }
  }

  /** The last plugin of the list with name n. */
  function LastNamed(ps: seq<Plugin>, n: string): (o: Option<Plugin>)
    ensures o.Some? ==> o.value in ps && o.value.Name == n
    ensures o.None? <==> forall i :: 0 <= i < |ps| ==> ps[i].Name != n
  {
    if |ps| == 0 then None
    else if ps[|ps| - 1].Name == n then Some(ps[|ps| - 1])
    else
      var o := LastNamed(ps[..|ps| - 1], n);
      assert forall i :: 0 <= i < |ps| - 1 ==> ps[..|ps| - 1][i] == ps[i];
      o
  }

  /** No plugin after the one LastNamed picks has its name. */
  lemma {:induction false} LastNamedIsLast(ps: seq<Plugin>, n: string)
    requires LastNamed(ps, n).Some?
    ensures exists i :: 0 <= i < |ps| && ps[i] == LastNamed(ps, n).value
              && forall j :: i < j < |ps| ==> ps[j].Name != n
  {
    var last := |ps| - 1;
    if ps[last].Name == n {
      assert ps[last] == LastNamed(ps, n).value;
    } else {
      var init := ps[..last];
      assert LastNamed(ps, n) == LastNamed(init, n);
      LastNamedIsLast(init, n);
      var i :| 0 <= i < |init| && init[i] == LastNamed(init, n).value
        && forall j :: i < j < |init| ==> init[j].Name != n;
      assert forall j :: 0 <= j < last ==> ps[j] == init[j];
      assert forall j :: i < j < |ps| ==> ps[j].Name != n;
    }
  }

  /** All commands of the plugins, in order. */
  function AllCommands(ps: seq<Plugin>): seq<Command> {
    if |ps| == 0 then [] else AllCommands(ps[..|ps| - 1]) + ps[|ps| - 1].Commands
  }

  /** Loading skips exactly the failing entries: the result is that of
      storing the loadable plugins under their names and their commands, in
      order, as if the failing entries were absent. Each name holds the last
      loadable plugin of that name (plugin.go:84), or its old plugin. */
  lemma LoadAllSkipsFailures(t: Tables, entries: seq<LoadResult>)
    ensures LoadAll(t, entries).commands == Register(t.commands, AllCommands(Loadable(entries)))
    ensures forall n :: n in LoadAll(t, entries).plugins <==>
      n in t.plugins || LastNamed(Loadable(entries), n).Some?
    ensures forall n :: n in LoadAll(t, entries).plugins ==>
      LoadAll(t, entries).plugins[n] ==
        if LastNamed(Loadable(entries), n).Some? then LastNamed(Loadable(entries), n).value
        else t.plugins[n]
  {
    LoadedCommands(t, entries);
    LoadedPlugins(t, entries);
  }

  /** The commands half of LoadAllSkipsFailures. */
  lemma {:induction false} LoadedCommands(t: Tables, entries: seq<LoadResult>)
    ensures LoadAll(t, entries).commands == Register(t.commands, AllCommands(Loadable(entries)))
  {
    if |entries| > 0 {
      var init := entries[..|entries| - 1];
      LoadedCommands(t, init);
      match entries[|entries| - 1]
      case OpenFailed(_) =>
      case Opened(p) =>
        if p.InitFailure.None? {
          var ps := Loadable(init);
          assert (ps + [p])[..|ps + [p]| - 1] == ps;
          RegisterAppend(t.commands, AllCommands(ps), p.Commands);
        }
    }
  }

  /** The plugin-map half of LoadAllSkipsFailures. */
  lemma {:induction false} LoadedPlugins(t: Tables, entries: seq<LoadResult>)
    ensures forall n :: n in LoadAll(t, entries).plugins <==>
      n in t.plugins || LastNamed(Loadable(entries), n).Some?
    ensures forall n :: n in LoadAll(t, entries).plugins ==>
      LoadAll(t, entries).plugins[n] ==
        if LastNamed(Loadable(entries), n).Some? then LastNamed(Loadable(entries), n).value
        else t.plugins[n]
  {
    if |entries| > 0 {
      var init := entries[..|entries| - 1];
      LoadedPlugins(t, init);
      match entries[|entries| - 1]
      case OpenFailed(_) =>
      case Opened(p) =>
        if p.InitFailure.None? {
          var ps := Loadable(init);
          assert Loadable(entries) == ps + [p];
          assert (ps + [p])[..|ps + [p]| - 1] == ps;
        }
    }
  }
}
