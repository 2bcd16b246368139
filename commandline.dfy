/** Splitting the process arguments into a subcommand and its arguments. */
module CommandLine {
  import opened GoStrings

  datatype Subcommand = Subcommand(command: string, args: seq<string>)

  /**
   * GetSubcommand, with os.Args passed in: no subcommand when there is no
   * second argument or it is a flag; otherwise the second argument is the
   * subcommand and the rest are its arguments.
   */
  function GetSubcommand(argv: seq<string>): (r: Subcommand)
    requires |argv| >= 1
    ensures r.command != "" ==> [r.command] + r.args == argv[1..]
    ensures r.command != "" ==> r.command[0] != '-'
    ensures r.command == "" ==> r.args == argv[1..] || (|argv| > 1 && argv[1] == "" && r.args == argv[2..])
    ensures |argv| > 1 && HasPrefix(argv[1], "-") ==> r.command == "" && r.args == argv[1..]
    ensures |argv| > 1 && !HasPrefix(argv[1], "-") ==> r.command == argv[1] && r.args == argv[2..]
  {
    if |argv| == 1 || HasPrefix(argv[1], "-") then Subcommand("", argv[1..])
    else Subcommand(argv[1], argv[2..])
  }

  /** Only the program name: no subcommand and no arguments. */
  lemma ProgramNameOnly(prog: string)
    ensures GetSubcommand([prog]) == Subcommand("", [])
  {
  }

  /** An empty second argument is taken as the (empty) subcommand and so disappears from args. */
  lemma EmptySecondArgumentDropped(prog: string, rest: seq<string>)
    ensures GetSubcommand([prog, ""] + rest) == Subcommand("", rest)
  {
    assert ([prog, ""] + rest)[2..] == rest;
  }

  /**
   * The inverse direction: a subcommand written after the program name, not
   * starting with '-', comes back with exactly the arguments that follow it.
   */
  lemma SubcommandRoundTrip(prog: string, command: string, args: seq<string>)
    requires command != "" && command[0] != '-'
    ensures GetSubcommand([prog, command] + args) == Subcommand(command, args)
  {
    var argv := [prog, command] + args;
    assert argv[1] == command;
    assert argv[2..] == args;
  }

  /** Flags right after the program name are all passed on, nothing is taken as a subcommand. */
  lemma FlagsRoundTrip(prog: string, args: seq<string>)
    requires args == [] || HasPrefix(args[0], "-")
    ensures GetSubcommand([prog] + args) == Subcommand("", args)
  {
    assert ([prog] + args)[1..] == args;
  }
}
