/** The interactive command line: a list of named commands, dispatch of an
 * entered line to the command with that exact name, and tab completion.
 *
 * A command's program is modelled by the value it returns for the given
 * arguments, and its own completion handler by the options it offers; the
 * built-in `quit` and `list` commands are told apart because `quit` changes
 * the command line's state. The line editor that collects keystrokes and
 * calls the two handlers, and all printing, are not part of this model. */
module Commandline {
  import opened Wrappers

  type String = seq<char>

  /** What running a command does. */
  datatype Program =
    | QuitProgram
    | ListProgram
    | Custom(run: seq<String> -> int, complete: seq<String> -> seq<String>)

  /** `Command`: a name, a description and a program. */
  datatype Command = Command(name: String, description: String, program: Program)

  /** Entries of the completion array, the terminating null included. */
  const AutoCompleteOptions: nat := 32

  /** The result of `ExecuteCommand` when no command has the entered name. */
  const NotFound: int := 0x7F

  const QuitCommand := Command("quit", "Quit from commandline", QuitProgram)
  const ListCommand := Command("list", "List all available commands", ListProgram)

  /** The value a command's program returns: `quit` and `list` return 0. */
  function ProgramResult(c: Command, argv: seq<String>): int
  {
    match c.program
    case QuitProgram => 0
    case ListProgram => 0
    case Custom(run, _) => run(argv)
  }

  /** The options a command's own `AutoComplete` offers: none, unless the
   * command provides a handler. */
  function CommandCompletions(c: Command, argv: seq<String>): seq<String>
  {
    match c.program
    case Custom(_, complete) => complete(argv)
    case _ => []
  }

  /** The index of the first command with exactly this name, if any. */
  function FirstNamed(commands: seq<Command>, name: String): (r: Option<nat>)
    ensures r.Some? ==> r.value < |commands| && commands[r.value].name == name
    ensures r.Some? ==> forall j :: 0 <= j < r.value ==> commands[j].name != name
    ensures r.None? <==> forall j :: 0 <= j < |commands| ==> commands[j].name != name
  {
    if |commands| == 0 then None
    else if commands[0].name == name then Some(0)
    else match FirstNamed(commands[1..], name)
      case None => None
      case Some(i) => Some(i + 1)
  }

  /** The names that start with `prefix`, in list order (`strstr(name,
   * prefix) == name`). */
  function Matches(commands: seq<Command>, prefix: String): (r: seq<String>)
    ensures |r| <= |commands|
    ensures forall i :: 0 <= i < |r| ==> prefix <= r[i]
  {
    if |commands| == 0 then []
    else
      var last := commands[|commands| - 1];
      Matches(commands[..|commands| - 1], prefix) + if prefix <= last.name then [last.name] else []
  }

  /** Every command whose name starts with the prefix is offered. */
  lemma {:induction false} MatchesComplete(commands: seq<Command>, prefix: String, j: nat)
    requires j < |commands| && prefix <= commands[j].name
    ensures commands[j].name in Matches(commands, prefix)
  {
    if j < |commands| - 1 {
      MatchesComplete(commands[..|commands| - 1], prefix, j);
    }
  }

  /** When every name starts with the prefix, every one is offered. */
  lemma {:induction false} AllMatch(commands: seq<Command>, prefix: String)
    requires forall j :: 0 <= j < |commands| ==> prefix <= commands[j].name
    ensures |Matches(commands, prefix)| == |commands|
  {
    if |commands| > 0 {
      AllMatch(commands[..|commands| - 1], prefix);
    }
  }

  /** At most `n` elements: the first ones. */
  function Take(s: seq<String>, n: nat): (r: seq<String>)
    ensures |r| <= n && |r| <= |s| && r == s[..|r|]
    ensures |s| <= n ==> r == s
  {
    if |s| <= n then s else s[..n]
  }

  /** The options `AutoCompleteHandler` offers for an entered line: with
   * only the command name typed, the names it starts; with arguments, the
   * options of the command with that exact name. Either way no more than
   * the array holds besides its terminating null. */
  function Completions(commands: seq<Command>, argv: seq<String>): (r: seq<String>)
    requires |argv| >= 1
    ensures |r| < AutoCompleteOptions
  {
    if |argv| <= 1 then Take(Matches(commands, argv[0]), AutoCompleteOptions - 1)
    else match FirstNamed(commands, argv[0])
      case None => []
      case Some(k) => Take(CommandCompletions(commands[k], argv), AutoCompleteOptions - 1)
  }

  /** Where `AutoCompleteHandler` as written stores the terminating null for
   * a line with only the command name typed: after every matching name,
   * however many there are. */
  function TerminatorIndexAsWritten(commands: seq<Command>, prefix: String): (r: nat)
    ensures r == |Matches(commands, prefix)|
  {
    |Matches(commands, prefix)|
  }

  /** With 32 commands named "a", typing "a" and tab stores the terminator
   * one past the end of the 32-entry array. */
  lemma TerminatorOverflowsAsWritten()
    ensures var commands := seq(32, _ => Command("a", "", ListProgram));
      TerminatorIndexAsWritten(commands, "a") == AutoCompleteOptions
  {
    var commands := seq(32, _ => Command("a", "", ListProgram));
    AllMatch(commands, "a");
  }

  /** `CommandLine`: the command list, the running flag and the completion
   * array shared with the line editor. */
  class CommandLine {
    var commands: seq<Command>
    var running: bool
    var initialized: bool
    const capacity: nat
    const options: array<Option<String>>

    /** The constructor empties the command list, which is reserved for
     * `capacity` commands (`kNumberOfCommands` of `CommandList_t`). */
    constructor(capacity: nat)
      ensures commands == [] && !running && !initialized
      ensures this.capacity == capacity
      ensures fresh(options) && options.Length == AutoCompleteOptions
    {
      this.capacity := capacity;
      commands := [];
      running := false;
      initialized := false;
      options := new Option<String>[AutoCompleteOptions](_ => None);
    }

    /** `Initialize`: `list`, then `quit`, join the command list. */
    method Initialize()
      requires |commands| + 2 <= capacity
      modifies this
      ensures |commands| <= capacity
      ensures commands == old(commands) + [ListCommand, QuitCommand]
      ensures initialized && running == old(running)
    {
      AddCommand(ListCommand);
      AddCommand(QuitCommand);
      initialized := true;
    }

    /** `AddCommand`: the command goes to the end of the list, which has
     * room for it. */
    method AddCommand(c: Command)
      requires |commands| < capacity
      modifies this
      ensures |commands| <= capacity
      ensures commands == old(commands) + [c]
      ensures running == old(running) && initialized == old(initialized)
    {
      commands := commands + [c];
    }

    /** `Quit`: the command line stops running; the result is 0. */
    method Quit() returns (r: int)
      modifies this
      ensures !running && r == 0
      ensures commands == old(commands) && initialized == old(initialized)
    {
      running := false;
      r := 0;
    }

    /** The scan both handlers make for the first command with exactly the
     * given name. */
    method Find(name: String) returns (k: Option<nat>)
      ensures k == FirstNamed(commands, name)
    {
      var i := 0;
      while i < |commands|
        invariant 0 <= i <= |commands|
        invariant forall j :: 0 <= j < i ==> commands[j].name != name
      {
        if commands[i].name == name {
          FirstNamedAt(commands, name, i);
          return Some(i);
        }
        i := i + 1;
      }
      return None;
    }

    /** `ExecuteCommand`: run the first command named `argv[0]` and return
     * its result; with no such command, run nothing and return 0x7F. */
    method ExecuteCommand(argv: seq<String>) returns (result: int)
      requires |argv| >= 1
      modifies this
      ensures commands == old(commands) && initialized == old(initialized)
      ensures FirstNamed(commands, argv[0]).None? ==> result == NotFound && running == old(running)
      ensures match FirstNamed(commands, argv[0])
        case None => true
        case Some(k) =>
          && result == ProgramResult(commands[k], argv)
          && running == (old(running) && !commands[k].program.QuitProgram?)
    {
      result := NotFound;
      var k := Find(argv[0]);
      if k.Some? {
        match commands[k.value].program
        case QuitProgram =>
          result := Quit();
        case ListProgram =>
          result := 0;
        case Custom(run, _) =>
          result := run(argv);
      }
    }

    /** `AutoCompleteHandler`: fill the completion array with the options
     * for the entered line, followed by a null. */
    method AutoCompleteHandler(argv: seq<String>)
      requires |argv| >= 1 && options.Length == AutoCompleteOptions
      modifies options
      ensures var c := Completions(commands, argv);
        && (forall i :: 0 <= i < |c| ==> options[i] == Some(c[i]))
        && options[|c|] == None
    {
      var position := 0;
      options[position] := None;
      if |argv| <= 1 {
        position := CollectMatches(argv[0]);
      } else {
        var k := Find(argv[0]);
        if k.Some? {
          position := StoreOptions(CommandCompletions(commands[k.value], argv));
        }
      }
      options[position] := None;
    }

    /** The loop of `AutoCompleteHandler` over the command list: every name
     * that starts with the prefix is stored, in list order, while there is
     * room for it and the terminating null. */
    method CollectMatches(prefix: String) returns (position: nat)
      requires options.Length == AutoCompleteOptions
      modifies options
      ensures var c := Take(Matches(commands, prefix), AutoCompleteOptions - 1);
        && position == |c|
        && forall i :: 0 <= i < position ==> options[i] == Some(c[i])
    {
      position := 0;
      var i := 0;
      while i < |commands|
        invariant 0 <= i <= |commands|
        invariant var c := Take(Matches(commands[..i], prefix), AutoCompleteOptions - 1);
          && position == |c|
          && forall j :: 0 <= j < position ==> options[j] == Some(c[j])
      {
        ghost var before := Matches(commands[..i], prefix);
        assert commands[..i + 1][..i] == commands[..i];
        if prefix <= commands[i].name && position < AutoCompleteOptions - 1 {
          options[position] := Some(commands[i].name);
          position := position + 1;
        }
        TakeSnoc(before, if prefix <= commands[i].name then [commands[i].name] else [], AutoCompleteOptions - 1);
        i := i + 1;
      }
      assert commands[..i] == commands;
    }

    /** A command's own completion handler storing its options, as many as
     * fit before the terminating null. */
    method StoreOptions(list: seq<String>) returns (position: nat)
      requires options.Length == AutoCompleteOptions
      modifies options
      ensures var c := Take(list, AutoCompleteOptions - 1);
        && position == |c|
        && forall i :: 0 <= i < position ==> options[i] == Some(c[i])
    {
      position := 0;
      while position < |list| && position < AutoCompleteOptions - 1
        invariant position <= |list| && position <= AutoCompleteOptions - 1
        invariant forall j :: 0 <= j < position ==> options[j] == Some(list[j])
      {
        options[position] := Some(list[position]);
        position := position + 1;
      }
    }
  }

  /** A command with the name, every one before it without it: the first
   * with the name. */
  lemma {:induction false} FirstNamedAt(commands: seq<Command>, name: String, i: nat)
    requires i < |commands| && commands[i].name == name
    requires forall j :: 0 <= j < i ==> commands[j].name != name
    ensures FirstNamed(commands, name) == Some(i)
  {
    if i > 0 {
      FirstNamedAt(commands[1..], name, i - 1);
    }
  }

  /** Taking a bounded prefix of a sequence that grows by at most one
   * element. */
  lemma TakeSnoc(s: seq<String>, extra: seq<String>, n: nat)
    requires |extra| <= 1
    ensures Take(s + extra, n) == if |s| >= n || |extra| == 0 then Take(s, n) else Take(s, n) + extra
  {
    if |s| >= n {
      assert (s + extra)[..n] == s[..n];
    }
  }
}
