/**
 * The helper side of a zenlog session: the session-membership check, the
 * fatal guards built on it, binary-update detection, the builtin subcommand
 * dispatch, and the CRLF rewriting done by `write-to-outer`.
 *
 * Everything the Go code reads from its surroundings (the controlling tty,
 * the resolved executable path, exported environment variables, the
 * executable's ctime) is a field of a `Context`. Process exits are returned
 * as an `Outcome` instead of ending the process.
 */
module Builtins {
  import opened Options
  import opened GoStrings
  import opened Protocol

  /** What a helper invocation knows about its surroundings; an unset variable reads as "". */
  datatype Context = Context(
    tty: string,                // util.Tty()
    bin: string,                // util.FindZenlogBin()
    exportedSignature: string,  // the session's exported signature variable
    exportedBinCtime: string,   // the session's exported executable ctime variable
    binCtime: int)              // util.ZenlogBinCtime().Unix()

  // ---------------------------------------------------------------------
  // Session membership

  /** The string a session exports and a helper recomputes: tty, ':', signature. */
  function MembershipKey(tty: string, bin: string, version: nat): string
  {
    tty + ":" + SignatureAt(bin, version)
  }

  /** InZenlog: the recomputed key equals the exported signature. */
  function InZenlog(ctx: Context): (r: bool)
    ensures r <==> ctx.exportedSignature == ctx.tty + ":" + Signature(ctx.bin)
    ensures r ==> |ctx.exportedSignature| == |ctx.tty| + |ctx.bin| + 5
    ensures r ==> ctx.exportedSignature[|ctx.exportedSignature| - 4..] == ":[1]"
  {
    MembershipKey(ctx.tty, ctx.bin, ProtocolVersion) == ctx.exportedSignature
  }

  /** With the signature fixed, the key tells ttys apart. */
  lemma MembershipKeyTtyInjective(tty1: string, tty2: string, bin: string, version: nat)
    ensures MembershipKey(tty1, bin, version) == MembershipKey(tty2, bin, version) <==> tty1 == tty2
  {
    var tail := ":" + SignatureAt(bin, version);
    var k1, k2 := MembershipKey(tty1, bin, version), MembershipKey(tty2, bin, version);
    assert k1 == tty1 + tail && k2 == tty2 + tail;
    if k1 == k2 {
      assert |tty1| == |tty2|;
      assert tty1 == k1[..|tty1|] == k2[..|tty2|] == tty2;
    }
  }

  /** With the tty fixed, the key tells executables and protocol versions apart. */
  lemma MembershipKeySignatureInjective(tty: string, bin1: string, v1: nat, bin2: string, v2: nat)
    ensures MembershipKey(tty, bin1, v1) == MembershipKey(tty, bin2, v2) <==> bin1 == bin2 && v1 == v2
  {
    var k1, k2 := MembershipKey(tty, bin1, v1), MembershipKey(tty, bin2, v2);
    if k1 == k2 {
      assert SignatureAt(bin1, v1) == k1[|tty| + 1..] == k2[|tty| + 1..] == SignatureAt(bin2, v2);
    }
    SignatureAtInjective(bin1, v1, bin2, v2);
  }

  /** A helper on another tty is not a member of the session. */
  lemma InZenlogRejectsOtherTty(ctx: Context, tty: string)
    requires InZenlog(ctx) && tty != ctx.tty
    ensures !InZenlog(ctx.(tty := tty))
  {
    MembershipKeyTtyInjective(ctx.tty, tty, ctx.bin, ProtocolVersion);
  }

  /** A helper running another executable is not a member of the session. */
  lemma InZenlogRejectsOtherBin(ctx: Context, bin: string)
    requires InZenlog(ctx) && bin != ctx.bin
    ensures !InZenlog(ctx.(bin := bin))
  {
    MembershipKeySignatureInjective(ctx.tty, ctx.bin, ProtocolVersion, bin, ProtocolVersion);
  }

  /** A session exported by another protocol version never admits this helper. */
  lemma InZenlogRejectsOtherVersion(ctx: Context, version: nat)
    requires ctx.exportedSignature == MembershipKey(ctx.tty, ctx.bin, version)
    ensures InZenlog(ctx) <==> version == ProtocolVersion
  {
    MembershipKeySignatureInjective(ctx.tty, ctx.bin, version, ctx.bin, ProtocolVersion);
  }

  /**
   * When neither tty contains ':' (device paths do not), the key identifies
   * the tty, the executable and the protocol version all at once.
   */
  lemma MembershipKeyIdentifiesSession(tty1: string, bin1: string, v1: nat, tty2: string, bin2: string, v2: nat)
    requires ':' !in tty1 && ':' !in tty2
    ensures MembershipKey(tty1, bin1, v1) == MembershipKey(tty2, bin2, v2)
            <==> tty1 == tty2 && bin1 == bin2 && v1 == v2
  {
    var k1, k2 := MembershipKey(tty1, bin1, v1), MembershipKey(tty2, bin2, v2);
    if k1 == k2 {
      assert k1[|tty1|] == ':' && k2[|tty2|] == ':';
      if |tty1| < |tty2| {
        assert false;
      } else if |tty2| < |tty1| {
        assert false;
      }
      assert tty1 == k1[..|tty1|] == k2[..|tty2|] == tty2;
      MembershipKeySignatureInjective(tty1, bin1, v1, bin2, v2);
    }
  }

  /** Without that restriction the key is ambiguous: a ':' can move between tty and path. */
  lemma MembershipKeyAmbiguousWithColonTty()
    ensures MembershipKey("a:b", "c", ProtocolVersion) == MembershipKey("a", "b:c", ProtocolVersion)
  {
  }

  // ---------------------------------------------------------------------
  // Outcomes of a helper invocation

  /** How a step ends: it returns to its caller, or the process exits. */
  datatype Outcome = Continue | Exit(success: bool) | Fatal(message: string)

  /** The builtin subcommands, one per distinct case of the dispatch. */
  datatype Builtin =
    | InZenlogCmd | ZenlogBinCmd | ZenlogSrcTopCmd | TempDirCmd
    | FailIfInZenlogCmd | FailUnlessInZenlogCmd
    | WriteToLoggerCmd | WriteToOuterCmd | OuterTtyCmd | LoggerPipeCmd
    | HistoryCmd | CurrentLogCmd | LastLogCmd | InsertLogBashCmd | InsertLogZshCmd
    | AllCommandsCmd | CheckBinUpdateCmd | StartCommandCmd | EndCommandCmd | ListLogsCmd

  /** Observable effects: a handler that is not part of this model ran, or a message was said. */
  datatype Effect = Handle(builtin: Builtin, args: seq<string>) | Say(message: string)

  /** The effects of an invocation, in order, and how it ended. */
  datatype Run = Run(effects: seq<Effect>, outcome: Outcome)

  /** Runs `first`, then `next` only if `first` returned. */
  function Then(first: Run, next: Run): Run
  {
    if first.outcome != Continue then first
    else if first.effects == [] then next
    else if next.effects == [] then Run(first.effects, next.outcome)
    else Run(first.effects + next.effects, next.outcome)
  }

  const AlreadyInZenlogMessage := "Already in zenlog."
  const NotInZenlogMessage := "Not in zenlog."
  const BinUpdatedMessage :=
    "Zenlog binary updated. Run \"zenlog_restart\" (or \"exit 13\") to restart a zenlog session."

  /** FailIfInZenlog: fatal exactly inside a session, otherwise returns with no effect. */
  function FailIfInZenlog(ctx: Context): (r: Outcome)
    ensures r != Continue <==> InZenlog(ctx)
    ensures r == Continue || r == Fatal(AlreadyInZenlogMessage)
  {
    if InZenlog(ctx) then Fatal(AlreadyInZenlogMessage) else Continue
  }

  /** FailUnlessInZenlog: fatal exactly outside a session, otherwise returns with no effect. */
  function FailUnlessInZenlog(ctx: Context): (r: Outcome)
    ensures r != Continue <==> !InZenlog(ctx)
    ensures r == Continue || r == Fatal(NotInZenlogMessage)
  {
    if !InZenlog(ctx) then Fatal(NotInZenlogMessage) else Continue
  }

  /** checkBinUpdate: success iff the decimal ctime matches the exported one, else a hint and failure. */
  function CheckBinUpdate(ctx: Context): (r: Run)
    ensures r.outcome == Exit(FormatInt(ctx.binCtime) == ctx.exportedBinCtime)
    ensures r.effects == if r.outcome.success then [] else [Say(BinUpdatedMessage)]
  {
    if FormatInt(ctx.binCtime) == ctx.exportedBinCtime then Run([], Exit(true))
    else Run([Say(BinUpdatedMessage)], Exit(false))
  }

  /**
   * When the session exported the ctime `t0` in decimal, the check passes
   * exactly when the executable's ctime is still `t0`.
   */
  lemma CheckBinUpdateDetectsReplacement(ctx: Context, t0: int)
    requires ctx.exportedBinCtime == FormatInt(t0)
    ensures CheckBinUpdate(ctx).outcome == Exit(ctx.binCtime == t0)
    ensures ctx.binCtime != t0 ==> CheckBinUpdate(ctx).effects == [Say(BinUpdatedMessage)]
  {
    FormatIntInjective(ctx.binCtime, t0);
  }

  // ---------------------------------------------------------------------
  // Dispatch

  /** `strings.Replace(command, "_", "-", -1)`. */
  function Normalize(command: string): (r: string)
    ensures |r| == |command| && '_' !in r
    ensures forall i :: 0 <= i < |command| && command[i] != '_' ==> r[i] == command[i]
    ensures forall i :: 0 <= i < |command| && command[i] == '_' ==> r[i] == '-'
  {
    ReplaceAllElem(command, '_', '-')
  }

  lemma NormalizeIdempotent(command: string)
    ensures Normalize(Normalize(command)) == Normalize(command)
  {
    var n := Normalize(command);
    assert Normalize(n) == n;
  }

  /** Spelling any '-' of a name as '_' selects the same name. */
  lemma NormalizeUndoesUnderscores(name: string)
    requires '_' !in name
    ensures Normalize(ReplaceAllElem(name, '-', '_')) == name
  {
    var spelled := ReplaceAllElem(name, '-', '_');
    assert Normalize(spelled) == name;
  }

  /** The case label of each builtin (the first one, for the two-label case). */
  function Name(b: Builtin): string
  {
    match b
    case InZenlogCmd => "in-zenlog"
    case ZenlogBinCmd => "zenlog-bin"
    case ZenlogSrcTopCmd => "zenlog-src-top"
    case TempDirCmd => "temp-dir"
    case FailIfInZenlogCmd => "fail-if-in-zenlog"
    case FailUnlessInZenlogCmd => "fail-unless-in-zenlog"
    case WriteToLoggerCmd => "write-to-logger"
    case WriteToOuterCmd => "write-to-outer"
    case OuterTtyCmd => "outer-tty"
    case LoggerPipeCmd => "logger-pipe"
    case HistoryCmd => "history"
    case CurrentLogCmd => "current-log"
    case LastLogCmd => "last-log"
    case InsertLogBashCmd => "insert-log-bash"
    case InsertLogZshCmd => "insert-log-zsh"
    case AllCommandsCmd => "all-commands"
    case CheckBinUpdateCmd => "check-bin-update"
    case StartCommandCmd => "start-command"
    case EndCommandCmd => "stop-log"
    case ListLogsCmd => "list-logs"
  }

  /** The switch's case labels: which builtin a normalised name selects, if any. */
  function Lookup(name: string): (r: Option<Builtin>)
    ensures r.Some? ==> name == Name(r.value) || (r.value == EndCommandCmd && name == "end-command")
  {
    match name
    case "in-zenlog" => Some(InZenlogCmd)
    case "zenlog-bin" => Some(ZenlogBinCmd)
    case "zenlog-src-top" => Some(ZenlogSrcTopCmd)
    case "temp-dir" => Some(TempDirCmd)
    case "fail-if-in-zenlog" => Some(FailIfInZenlogCmd)
    case "fail-unless-in-zenlog" => Some(FailUnlessInZenlogCmd)
    case "write-to-logger" => Some(WriteToLoggerCmd)
    case "write-to-outer" => Some(WriteToOuterCmd)
    case "outer-tty" => Some(OuterTtyCmd)
    case "logger-pipe" => Some(LoggerPipeCmd)
    case "history" => Some(HistoryCmd)
    case "current-log" => Some(CurrentLogCmd)
    case "last-log" => Some(LastLogCmd)
    case "insert-log-bash" => Some(InsertLogBashCmd)
    case "insert-log-zsh" => Some(InsertLogZshCmd)
    case "all-commands" => Some(AllCommandsCmd)
    case "check-bin-update" => Some(CheckBinUpdateCmd)
    case "start-command" => Some(StartCommandCmd)
    case "stop-log" | "end-command" => Some(EndCommandCmd)
    case "list-logs" => Some(ListLogsCmd)
    case _ => None
  }

  /** Every builtin is reached from its case label; `end-command` is a second label of `stop-log`. */
  lemma LookupName(b: Builtin)
    ensures Lookup(Name(b)) == Some(b)
    ensures b == EndCommandCmd ==> Lookup("end-command") == Some(b)
  {
    match b
    case InZenlogCmd => assert Lookup("in-zenlog") == Some(b);
    case ZenlogBinCmd => assert Lookup("zenlog-bin") == Some(b);
    case ZenlogSrcTopCmd => assert Lookup("zenlog-src-top") == Some(b);
    case TempDirCmd => assert Lookup("temp-dir") == Some(b);
    case FailIfInZenlogCmd => assert Lookup("fail-if-in-zenlog") == Some(b);
    case FailUnlessInZenlogCmd => assert Lookup("fail-unless-in-zenlog") == Some(b);
    case WriteToLoggerCmd => assert Lookup("write-to-logger") == Some(b);
    case WriteToOuterCmd => assert Lookup("write-to-outer") == Some(b);
    case OuterTtyCmd => assert Lookup("outer-tty") == Some(b);
    case LoggerPipeCmd => assert Lookup("logger-pipe") == Some(b);
    case HistoryCmd => assert Lookup("history") == Some(b);
    case CurrentLogCmd => assert Lookup("current-log") == Some(b);
    case LastLogCmd => assert Lookup("last-log") == Some(b);
    case InsertLogBashCmd => assert Lookup("insert-log-bash") == Some(b);
    case InsertLogZshCmd => assert Lookup("insert-log-zsh") == Some(b);
    case AllCommandsCmd => assert Lookup("all-commands") == Some(b);
    case CheckBinUpdateCmd => assert Lookup("check-bin-update") == Some(b);
    case StartCommandCmd => assert Lookup("start-command") == Some(b);
    case EndCommandCmd =>
      assert Lookup("stop-log") == Some(b);
      assert Lookup("end-command") == Some(b);
    case ListLogsCmd => assert Lookup("list-logs") == Some(b);
  }

  /** The cases that call FailUnlessInZenlog before doing anything. */
  predicate SessionOnly(b: Builtin)
  {
    match b
    case WriteToLoggerCmd | WriteToOuterCmd | OuterTtyCmd | LoggerPipeCmd => true
    case HistoryCmd | CurrentLogCmd | LastLogCmd | InsertLogBashCmd | InsertLogZshCmd => true
    case CheckBinUpdateCmd | StartCommandCmd | EndCommandCmd => true
    case _ => false
  }

  /** The handlers that are given the subcommand's arguments. */
  predicate TakesArgs(b: Builtin)
  {
    match b
    case HistoryCmd | CurrentLogCmd | LastLogCmd | InsertLogBashCmd | InsertLogZshCmd => true
    case AllCommandsCmd | StartCommandCmd | EndCommandCmd | ListLogsCmd => true
    case _ => false
  }

  function Guard(ctx: Context): Run
  {
    Run([], FailUnlessInZenlog(ctx))
  }

  function Do(b: Builtin, args: seq<string>): Run
  {
    Run([Handle(b, args)], Continue)
  }

  /**
   * WriteToLogger, WriteToOuter, OuterTty and LoggerPipe: each guards itself
   * with FailUnlessInZenlog before its I/O.
   */
  function SelfGuarded(b: Builtin, ctx: Context): Run
  {
    Then(Guard(ctx), Do(b, []))
  }

  /** The body of each case of MaybeRunBuiltin's switch, before the final ExitSuccess. */
  function Case(b: Builtin, args: seq<string>, ctx: Context): Run
  {
    match b
    case InZenlogCmd => Run([], Exit(InZenlog(ctx)))
    case ZenlogBinCmd => Do(b, [])
    case ZenlogSrcTopCmd => Do(b, [])
    case TempDirCmd => Do(b, [])
    case FailIfInZenlogCmd => Run([], FailIfInZenlog(ctx))
    case FailUnlessInZenlogCmd => Run([], FailUnlessInZenlog(ctx))
    case WriteToLoggerCmd => Then(Guard(ctx), SelfGuarded(b, ctx))
    case WriteToOuterCmd => Then(Guard(ctx), SelfGuarded(b, ctx))
    case OuterTtyCmd => Then(Guard(ctx), SelfGuarded(b, ctx))
    case LoggerPipeCmd => Then(Guard(ctx), SelfGuarded(b, ctx))
    case HistoryCmd => Then(Guard(ctx), Do(b, args))
    case CurrentLogCmd => Then(Guard(ctx), Do(b, args))
    case LastLogCmd => Then(Guard(ctx), Do(b, args))
    case InsertLogBashCmd => Then(Guard(ctx), Do(b, args))
    case InsertLogZshCmd => Then(Guard(ctx), Do(b, args))
    case AllCommandsCmd => Do(b, args)
    case CheckBinUpdateCmd => Then(Guard(ctx), CheckBinUpdate(ctx))
    case StartCommandCmd => Then(Guard(ctx), Do(b, args))
    case EndCommandCmd => Then(Guard(ctx), Do(b, args))
    case ListLogsCmd => Do(b, args)
  }

  /**
   * Reference behaviour of a builtin once it is past any membership guard:
   * the three membership builtins exit on their own decision, check-bin-update
   * on the ctime comparison, and every other one runs its handler once and
   * exits with success.
   */
  function Payload(b: Builtin, args: seq<string>, ctx: Context): Run
  {
    match b
    case InZenlogCmd => Run([], Exit(InZenlog(ctx)))
    case FailIfInZenlogCmd =>
      Run([], if InZenlog(ctx) then Fatal(AlreadyInZenlogMessage) else Exit(true))
    case FailUnlessInZenlogCmd =>
      Run([], if InZenlog(ctx) then Exit(true) else Fatal(NotInZenlogMessage))
    case CheckBinUpdateCmd => CheckBinUpdate(ctx)
    case _ => Run([Handle(b, if TakesArgs(b) then args else [])], Exit(true))
  }

  /** What a recognised builtin does, start to finish. */
  function Expected(b: Builtin, args: seq<string>, ctx: Context): Run
  {
    if SessionOnly(b) && !InZenlog(ctx) then Run([], Fatal(NotInZenlogMessage)) else Payload(b, args, ctx)
  }

  /**
   * Guard placement, case by case: a session-only case is fatal outside a
   * session before any effect, and otherwise each case, followed by the final
   * ExitSuccess, is its Payload; every case ends in an exit.
   */
  lemma CaseIsExpected(b: Builtin, args: seq<string>, ctx: Context)
    ensures Then(Case(b, args, ctx), Run([], Exit(true))) == Expected(b, args, ctx)
    ensures Expected(b, args, ctx).outcome != Continue
  {
    match b
    case InZenlogCmd =>
    case ZenlogBinCmd =>
    case ZenlogSrcTopCmd =>
    case TempDirCmd =>
    case FailIfInZenlogCmd =>
    case FailUnlessInZenlogCmd =>
    case WriteToLoggerCmd =>
    case WriteToOuterCmd =>
    case OuterTtyCmd =>
    case LoggerPipeCmd =>
    case HistoryCmd =>
    case CurrentLogCmd =>
    case LastLogCmd =>
    case InsertLogBashCmd =>
    case InsertLogZshCmd =>
    case AllCommandsCmd =>
    case CheckBinUpdateCmd =>
    case StartCommandCmd =>
    case EndCommandCmd =>
    case ListLogsCmd =>
  }

  /**
   * MaybeRunBuiltin: normalises the name, then either returns with no effect
   * (not a builtin) or runs the builtin and ends in an exit. A session-only
   * builtin outside a session is fatal before any effect; otherwise the
   * builtin behaves as its Payload.
   */
  function MaybeRunBuiltin(command: string, args: seq<string>, ctx: Context): (r: Run)
    ensures r.outcome == Continue <==> Lookup(Normalize(command)) == None
    ensures r.outcome == Continue ==> r.effects == []
    ensures Lookup(Normalize(command)).Some? ==> r == Expected(Lookup(Normalize(command)).value, args, ctx)
  {
    match Lookup(Normalize(command))
    case None => Run([], Continue)
    case Some(b) =>
      CaseIsExpected(b, args, ctx);
      Then(Case(b, args, ctx), Run([], Exit(true)))
  }

  /** Commands that differ only in '_' versus '-' do the same thing. */
  lemma SameNormalFormSameRun(c1: string, c2: string, args: seq<string>, ctx: Context)
    requires |c1| == |c2|
    requires forall i :: 0 <= i < |c1| ==> c1[i] == c2[i] || (c1[i] in "_-" && c2[i] in "_-")
    ensures MaybeRunBuiltin(c1, args, ctx) == MaybeRunBuiltin(c2, args, ctx)
  {
    assert Normalize(c1) == Normalize(c2);
  }

  /** The unguarded informational builtins behave the same inside and outside a session. */
  lemma UnguardedIgnoresMembership(b: Builtin, args: seq<string>, ctx1: Context, ctx2: Context)
    requires b in {ZenlogBinCmd, ZenlogSrcTopCmd, TempDirCmd, AllCommandsCmd, ListLogsCmd}
    ensures MaybeRunBuiltin(Name(b), args, ctx1) == MaybeRunBuiltin(Name(b), args, ctx2)
    ensures MaybeRunBuiltin(Name(b), args, ctx1).outcome == Exit(true)
  {
    LookupName(b);
    UnguardedNameIsNormal(b);
    var run := Run([Handle(b, if TakesArgs(b) then args else [])], Exit(true));
    assert Expected(b, args, ctx1) == run;
    assert Expected(b, args, ctx2) == run;
  }

  lemma UnguardedNameIsNormal(b: Builtin)
    requires b in {ZenlogBinCmd, ZenlogSrcTopCmd, TempDirCmd, AllCommandsCmd, ListLogsCmd}
    ensures Normalize(Name(b)) == Name(b)
  {
    match b
    case ZenlogBinCmd => NormalizeFixesNormal("zenlog-bin");
    case ZenlogSrcTopCmd => NormalizeFixesNormal("zenlog-src-top");
    case TempDirCmd => NormalizeFixesNormal("temp-dir");
    case AllCommandsCmd => NormalizeFixesNormal("all-commands");
    case ListLogsCmd => NormalizeFixesNormal("list-logs");
  }

  /** A name without '_' is its own normal form. */
  lemma NormalizeFixesNormal(name: string)
    requires '_' !in name
    ensures Normalize(name) == name
  {
    assert forall i :: 0 <= i < |name| ==> Normalize(name)[i] == name[i];
  }

  // ---------------------------------------------------------------------
  // write-to-outer

  newtype byte = x: int | 0 <= x < 256

  const CR: byte := 13
  const LF: byte := 10
  const CRLF: seq<byte> := [CR, LF]

  /** One line as sent to the outer tty: trailing CR/LF bytes removed, then one CRLF. */
  function Terminated(line: seq<byte>): seq<byte>
  {
    TrimRight(line, {CR, LF}) + CRLF
  }

  /** All that write-to-outer writes for the input `s`: each '\n'-ended piece, then the rest. */
  function Rendered(s: seq<byte>): seq<byte>
    decreases |s|
  {
    var i := IndexByte(s, LF);
    if i < 0 then Terminated(s) else Terminated(s[..i + 1]) + Rendered(s[i + 1..])
  }

  /**
   * WriteToOuter's copy loop: reads stdin line by line with ReadBytes('\n')
   * and writes each line, trailing CR/LF trimmed, followed by CRLF. The read
   * at end of input yields a non-nil (possibly empty) slice, so that last
   * piece is written too.
   */
  method WriteToOuter(stdin: seq<byte>) returns (out: seq<byte>)
    ensures out == Rendered(stdin)
  {
    out := [];
    var pos := 0;
    while true
      invariant 0 <= pos <= |stdin|
      invariant out + Rendered(stdin[pos..]) == Rendered(stdin)
      decreases |stdin| - pos
    {
      var rest := stdin[pos..];
      var i := IndexByte(rest, LF);
      if i < 0 {
        out := out + Terminated(rest);
        break;
      }
      var line := rest[..i + 1];
      ghost var written := out;
      out := out + Terminated(line);
      pos := pos + i + 1;
      assert stdin[pos..] == rest[i + 1..];
      assert written + Rendered(rest) == out + Rendered(stdin[pos..]);
    }
  }

  /** Every LF is preceded by a CR. */
  predicate CRBeforeEveryLF(s: seq<byte>)
  {
    forall k :: 0 <= k < |s| && s[k] == LF ==> 0 < k && s[k - 1] == CR
  }

  lemma CRBeforeEveryLFAppend(a: seq<byte>, b: seq<byte>)
    requires CRBeforeEveryLF(a) && CRBeforeEveryLF(b)
    ensures CRBeforeEveryLF(a + b)
  {
    forall k | 0 <= k < |a + b| && (a + b)[k] == LF
      ensures 0 < k && (a + b)[k - 1] == CR
    {
      if k >= |a| {
        assert b[k - |a|] == LF;
      }
    }
  }

  /** A line whose only LF, if any, is its last byte is terminated with a lone CRLF. */
  lemma TerminatedLineCRLF(line: seq<byte>)
    requires forall j :: 0 <= j < |line| - 1 ==> line[j] != LF
    ensures CRBeforeEveryLF(Terminated(line))
  {
    var t := TrimRight(line, {CR, LF});
    assert LF !in t;
    var r := Terminated(line);
    forall k | 0 <= k < |r| && r[k] == LF
      ensures 0 < k && r[k - 1] == CR
    {
      assert k == |t| + 1;
    }
  }

  /** What reaches the outer tty never holds a bare LF: every line ends in CRLF. */
  lemma {:induction false} RenderedUsesCRLF(s: seq<byte>)
    ensures CRBeforeEveryLF(Rendered(s))
    decreases |s|
  {
    var i := IndexByte(s, LF);
    if i < 0 {
      TerminatedLineCRLF(s);
    } else {
      TerminatedLineCRLF(s[..i + 1]);
      RenderedUsesCRLF(s[i + 1..]);
      CRBeforeEveryLFAppend(Terminated(s[..i + 1]), Rendered(s[i + 1..]));
    }
  }

  /** `lines` joined with LF bytes. */
  function JoinLF(lines: seq<seq<byte>>): seq<byte>
    requires lines != []
  {
    if |lines| == 1 then lines[0] else lines[0] + [LF] + JoinLF(lines[1..])
  }

  /** Each line terminated, concatenated in order. */
  function TerminatedAll(lines: seq<seq<byte>>): seq<byte>
  {
    if lines == [] then [] else Terminated(lines[0]) + TerminatedAll(lines[1..])
  }

  /**
   * Splitting on LF and rendering agree: for LF-free lines, write-to-outer
   * emits exactly one terminated line per piece, the last one included, and
   * leaves interior bytes alone.
   */
  lemma {:induction false} RenderedLines(lines: seq<seq<byte>>)
    requires lines != []
    requires forall n :: 0 <= n < |lines| ==> LF !in lines[n]
    ensures Rendered(JoinLF(lines)) == TerminatedAll(lines)
  {
    var l := lines[0];
    if |lines| == 1 {
      assert IndexByte(l, LF) < 0;
      assert TerminatedAll(lines) == Terminated(l) + TerminatedAll([]);
    } else {
      var rest := JoinLF(lines[1..]);
      var s := l + [LF] + rest;
      assert s == JoinLF(lines);
      assert s[|l|] == LF;
      assert forall j :: 0 <= j < |l| ==> s[j] != LF;
      assert IndexByte(s, LF) == |l|;
      assert s[..|l| + 1] == l + [LF];
      assert s[|l| + 1..] == rest;
      TrimRightAppendCut(l, LF, {CR, LF});
      RenderedLines(lines[1..]);
    }
  }

  /** A plain line keeps all its bytes and gains a CRLF. */
  lemma PlainLineTerminated(line: seq<byte>)
    requires line == [] || (line[|line| - 1] != CR && line[|line| - 1] != LF)
    ensures Terminated(line) == line + CRLF
  {
  }

  /** Input ending in a newline gets one more, empty, CRLF line: "a\n" becomes "a\r\n\r\n". */
  lemma TrailingNewlineGivesEmptyLine(line: seq<byte>)
    requires LF !in line && (line == [] || line[|line| - 1] != CR)
    ensures Rendered(line + [LF]) == line + CRLF + CRLF
  {
    var lines := [line, []];
    assert lines[1..] == [[]];
    assert JoinLF(lines) == line + [LF] + [];
    assert JoinLF(lines) == line + [LF];
    RenderedLines(lines);
    PlainLineTerminated(line);
    PlainLineTerminated([]);
    assert Terminated([]) == CRLF;
    assert TerminatedAll(lines) == Terminated(line) + (Terminated([]) + TerminatedAll([]));
    assert TerminatedAll(lines) == line + CRLF + CRLF;
  }
}
