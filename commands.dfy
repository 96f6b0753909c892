/**
 * The command side of core/editor.go on values: the built-in commands and
 * handleCommand, which splits the input line, lower-cases the command name
 * and dispatches through the registry.
 */
module Commands {
  import opened Optional
  import opened Tokens
  import opened Registry

  /** The built-in commands, in the order registerBuiltInCommands stores
      them (editor.go:68-99). */
  function Builtins(): (b: seq<Command>)
    ensures |b| == 5
    ensures forall i, j :: 0 <= i < j < |b| ==> b[i].Execute != b[j].Execute
  {
    [ Command("quit", ["q"], "Exit the editor", Quit),
      Command("write", ["w"], "Enter write mode", Write),
      Command("save", ["s"], "Save current file", Save),
      Command("open", ["o"], "Open a file", Open),
      Command("help", ["h", "?"], "Show available commands", Help) ]
  }

  /** The keys the built-ins are stored under, with the position in
      Builtins() of the command each one belongs to. */
  function BuiltinKeys(): map<string, nat> {
    map["quit" := 0, "q" := 0, "write" := 1, "w" := 1,
        "save" := 2, "s" := 2, "open" := 3, "o" := 3,
        "help" := 4, "h" := 4, "?" := 4]
  }

  /** `m` is `m0` with the built-ins stored: the eleven keys added, each
      with the built-in it belongs to, and every other key of `m0` kept. */
  ghost predicate StoresBuiltins(m0: CommandMap, m: CommandMap) {
    && (forall k :: k in BuiltinKeys() ==> BuiltinKeys()[k] < |Builtins()|)
    && (forall k :: k in m <==> k in m0 || k in BuiltinKeys())
    && (forall k :: k in m ==>
          m[k] == if k in BuiltinKeys() then Builtins()[BuiltinKeys()[k]] else m0[k])
  }

  /** The map holds the built-ins and nothing else. Only one map does. */
  ghost predicate HoldsBuiltins(m: CommandMap) {
    StoresBuiltins(map[], m)
  }

  /** Each built-in key is claimed by the built-in it belongs to, and by no other. */
  lemma BuiltinOwner(b: seq<Command>, k: string)
    requires b == Builtins() && k in BuiltinKeys()
    ensures BuiltinKeys()[k] < |b| && Owner(b, k) == Some(b[BuiltinKeys()[k]])
  {
    var i :=
      if k in Keys(b[0]) then 0 else if k in Keys(b[1]) then 1
      else if k in Keys(b[2]) then 2 else if k in Keys(b[3]) then 3 else 4;
    OwnerUnique(b, i, k);
  }

  /** No built-in claims a key outside the eleven. */
  lemma BuiltinClaims(b: seq<Command>, k: string)
    requires b == Builtins() && Owner(b, k).Some?
    ensures k in BuiltinKeys()
  {
    OwnerIsLastClaimer(b, k);
    var i :| 0 <= i < |b| && k in Keys(b[i]);
  }

  /** registerBuiltInCommands stores the eleven keys, each with the
      built-in it belongs to, so that an alias maps to the command it is an
      alias of, and leaves every other key alone. */
  lemma BuiltinsStored(m0: CommandMap, b: seq<Command>)
    requires b == Builtins()
    ensures StoresBuiltins(m0, Register(m0, b))
  {
    RegisterCharacterised(m0, b);
    forall k | k in BuiltinKeys()
      ensures BuiltinKeys()[k] < |b| && k in Register(m0, b) && Register(m0, b)[k] == b[BuiltinKeys()[k]]
    {
      BuiltinOwner(b, k);
    }
    forall k | k in Register(m0, b) && k !in m0
      ensures k in BuiltinKeys()
    {
      BuiltinClaims(b, k);
    }
    forall k | k in Register(m0, b) && k !in BuiltinKeys()
      ensures Register(m0, b)[k] == m0[k]
    {
      if Owner(b, k).Some? {
        BuiltinClaims(b, k);
      }
    }
  }

  /** A command line split into its name, lower-cased, and its arguments. */
  datatype Invocation = Invocation(name: string, args: seq<string>)

  /** The parsing half of handleCommand (editor.go:124-132). */
  function ParseCommand(input: string): (p: Option<Invocation>)
    ensures p.None? <==> Blank(input)
    ensures p.Some? ==> IsField(p.value.name) && !HasUpper(p.value.name)
  {
    var parts := Fields(input);
    FieldsEmptyIffBlank(input);
    if |parts| == 0 then None
    else
      ToLowerKeepsField(parts[0]);
      ToLowerNormalises(parts[0]);
      Some(Invocation(ToLower(parts[0]), parts[1..]))
  }

  /** A line of words separated by single spaces parses to its first word,
      lower-cased, and the other words in order. */
  lemma ParseWords(words: seq<string>)
    requires |words| > 0 && forall i :: 0 <= i < |words| ==> IsField(words[i])
    ensures ParseCommand(Join(words)) == Some(Invocation(ToLower(words[0]), words[1..]))
  {
    FieldsOfJoin(words);
  }

  /** handleCommand (editor.go:123-137): the message shown, if any. A blank
      line runs nothing; otherwise the command runs, and its error, if any,
      is shown and not passed on. */
  function HandleCommand(m: CommandMap, input: string, run: Runner): (shown: Option<string>)
    ensures Blank(input) ==> shown == None
    ensures !Blank(input) ==>
      var inv := ParseCommand(input).value;
      shown == if ExecuteCommand(m, inv.name, inv.args, run).Some?
               then Some(Message(ExecuteCommand(m, inv.name, inv.args, run).value))
               else None
  {
    match ParseCommand(input)
    case None => None
    case Some(inv) =>
      match ExecuteCommand(m, inv.name, inv.args, run)
      case None => None
      case Some(err) => Some(Message(err))
  }

  /** A blank line shows nothing, whatever the commands and handlers. */
  lemma BlankLineRunsNothing(m: CommandMap, input: string, run: Runner)
    requires Blank(input)
    ensures HandleCommand(m, input, run) == None
  {
  }

  /** Only the lower-case "q" among the two is a built-in key; it holds quit. */
  lemma QuitKeys(m: CommandMap)
    requires HoldsBuiltins(m)
    ensures "Q" !in m && "q" in m && m["q"].Execute == Quit
  {
    assert "Q" !in BuiltinKeys() && "q" in BuiltinKeys();
  }

  /** handleCommand runs the first word of the line, lower-cased, with the
      other words, in order, as its arguments. */
  lemma HandleCommandRunsFirstWord(m: CommandMap, run: Runner, words: seq<string>)
    requires |words| > 0 && forall i :: 0 <= i < |words| ==> IsField(words[i])
    ensures var r := ExecuteCommand(m, ToLower(words[0]), words[1..], run);
      HandleCommand(m, Join(words), run) == if r.Some? then Some(Message(r.value)) else None
  {
    ParseWords(words);
  }

  /** The built-in keys are single words in lower case, so handleCommand,
      which lower-cases the name it looks up, reaches each of them. */
  lemma BuiltinKeyIsLowerCase(k: string)
    requires k in BuiltinKeys()
    ensures IsField(k) && ToLower(k) == k
  {
    assert k == "quit" || k == "q" || k == "write" || k == "w" || k == "save" || k == "s"
        || k == "open" || k == "o" || k == "help" || k == "h" || k == "?";
    assert |k| > 0 && forall i :: 0 <= i < |k| ==> 'a' <= k[i] <= 'z' || k[i] == '?';
    VisibleLowerWord(k);
  }

  lemma VisibleLowerWord(w: string)
    requires |w| > 0 && forall i :: 0 <= i < |w| ==> 'a' <= w[i] <= 'z' || w[i] == '?'
    ensures IsField(w) && ToLower(w) == w
  {
    assert forall i :: 0 <= i < |w| ==> '!' <= w[i] <= '~' && !('A' <= w[i] <= 'Z');
    ToLowerNormalises(w);
  }

  /** Every built-in key, typed as the first word of a line, runs the
      built-in it belongs to with the other words as arguments. */
  lemma BuiltinKeyRuns(m: CommandMap, run: Runner, k: string, args: seq<string>)
    requires HoldsBuiltins(m) && k in BuiltinKeys()
    requires forall i :: 0 <= i < |args| ==> IsField(args[i])
    ensures var h := Builtins()[BuiltinKeys()[k]].Execute;
      HandleCommand(m, Join([k] + args), run) ==
        if run(h, args).Some? then Some(Message(run(h, args).value)) else None
  {
    BuiltinKeyIsLowerCase(k);
    assert k in m && m[k] == Builtins()[BuiltinKeys()[k]];
    FirstWordRuns(m, run, k, args);
  }

  /** A line whose first word names a stored command, in any case, runs
      that command's handler on the other words. */
  lemma FirstWordRuns(m: CommandMap, run: Runner, w: string, args: seq<string>)
    requires IsField(w) && ToLower(w) in m
    requires forall i :: 0 <= i < |args| ==> IsField(args[i])
    ensures var h := m[ToLower(w)].Execute;
      HandleCommand(m, Join([w] + args), run) ==
        if run(h, args).Some? then Some(Message(run(h, args).value)) else None
  {
    var words := [w] + args;
    assert words[0] == w && words[1..] == args;
    assert forall i :: 0 <= i < |words| ==> IsField(words[i]) by {
      forall i | 0 < i < |words| ensures IsField(words[i]) {
        assert words[i] == args[i - 1];
      }
    }
    HandleCommandRunsFirstWord(m, run, words);
    assert ExecuteCommand(m, ToLower(w), args, run) == run(m[ToLower(w)].Execute, args);
  }

  /** The name is matched without regard to ASCII case: "Q" reaches quit
      through handleCommand, while ExecuteCommand itself, which compares
      names exactly, does not know it. */
  lemma UpperCaseNameResolves(m: CommandMap, run: Runner, args: seq<string>)
    requires HoldsBuiltins(m)
    requires forall i :: 0 <= i < |args| ==> IsField(args[i])
    ensures ExecuteCommand(m, "Q", args, run) == Some(UnknownCommand("Q"))
    ensures HandleCommand(m, Join(["Q"] + args), run) ==
      if run(Quit, args).Some? then Some(Message(run(Quit, args).value)) else None
  {
    QuitKeys(m);
    QuitLine(m, run, args);
  }

  lemma QuitLine(m: CommandMap, run: Runner, args: seq<string>)
    requires "q" in m && m["q"].Execute == Quit
    requires forall i :: 0 <= i < |args| ==> IsField(args[i])
    ensures HandleCommand(m, Join(["Q"] + args), run) ==
      if run(Quit, args).Some? then Some(Message(run(Quit, args).value)) else None
  {
    assert ToLower("Q") == "q";
    FirstWordRuns(m, run, "Q", args);
  }
}
