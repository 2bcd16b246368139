# zenlog helper commands, modelled in Dafny

zenlog records a shell session into log files. Inside that session the same
executable also serves as a family of small helper subcommands that the shell
calls: `in-zenlog`, `fail-unless-in-zenlog`, `write-to-outer`, `history`,
`check-bin-update`, and so on. This project models the decision and string
logic of those helpers:

- the session-membership check. A helper is inside a session exactly when
  its controlling tty, a `:` and the executable's signature equal the
  signature the session exported;
- the fatal guards built on the membership check;
- the detection of a replaced executable by its ctime;
- the dispatch of builtin subcommand names, including which ones are
  session-only;
- the CRLF rewriting done by `write-to-outer`;
- the protocol signature;
- the split of the process arguments into a subcommand and its arguments;
- the per-file record that `all-commands` prints;
- the slice helpers used by the tests.

The model is organised in these modules:

- `GoStrings` (`go_strings.dfy`) states the parts of Go's `strings`, `bytes`
  and `strconv` that the helpers rely on, over sequences.
- `Protocol` (`protocol_version.dfy`) holds the protocol version and the
  signature.
- `Builtins` (`builtins.dfy`) holds membership, the guards, the binary check,
  dispatch and `write-to-outer`.
- `CommandLine` (`commandline.dfy`) splits the arguments.
- `History` (`history_all.dfy`) covers the `all-commands` listing.
- `TestUtil` (`testutil.dfy`) holds `Ar` and `SlicesEqual`.
- `Options` (`options.dfy`) is the option type.

Everything the Go code reads from its surroundings is passed in as a value:
environment variables, the tty, the resolved executable path, the
executable's ctime, standard input, and the files met by the directory walk.
A builtin's run is a `Run`: a list of observable effects and an `Outcome`.
The outcome is `Continue` when the code returns to its caller, `Exit(success)`
for `util.Exit`, `ExitSuccess` and `ExitFailure`, and `Fatal(message)` for
`util.Fatalf`. Sequencing (`Then`) drops everything after an exit, as
process termination does.

## Model

| member | source | states |
|---|---|---|
| GoStrings.LeadingIn | zenlog/builtins/history/all.go:38-39 | the length of the longest prefix drawn from the cut set, which is what `strings.TrimLeft` removes: every element before it is in the set, and the next one is not |
| GoStrings.TrailingIn | zenlog/builtins/builtins.go:69 | the length of the longest suffix drawn from the cut set, which is what `bytes.TrimRight` removes: every element after the cut is in the set, and the one before it is not |
| GoStrings.TrimLeftDropsLeadingCut | zenlog/builtins/history/all.go:38-39 | `TrimLeft` (`strings.TrimLeft`) keeps a suffix; everything it drops is in the cut set, and what it keeps does not start with a cut element |
| GoStrings.TrimRightDropsTrailingCut | zenlog/builtins/builtins.go:69 | `TrimRight` (`bytes.TrimRight`) keeps a prefix; everything it drops is in the cut set, and what it keeps does not end with a cut element |
| GoStrings.TrimRightAppendCut | zenlog/builtins/builtins.go:69 | trimming a line that ends in a cut byte gives the same result as trimming it without that byte |
| GoStrings.IndexByte | zenlog/builtins/builtins.go:67 | the index at which `ReadBytes('\n')` stops: -1 exactly when the byte is absent, otherwise an index holding it, with none earlier |
| GoStrings.Index | zenlog/builtins/history/all.go:42-44 | `strings.Index`: -1 or an occurrence of the pattern, with no occurrence earlier |
| GoStrings.ReplaceFirstAfterPrefix | zenlog/builtins/history/all.go:42-44 | `ReplaceFirst`, which is `strings.Replace(s, from, to, 1)`: when the first occurrence of `from` follows a prefix that holds none, replaces exactly that occurrence and keeps the prefix and the rest |
| GoStrings.ReplaceAllElem | zenlog/builtins/builtins.go:101 | `strings.Replace(_, "_", "-", -1)` on one character: same length; each position is replaced if it held `from` and unchanged otherwise |
| GoStrings.FormatNat | zenlog/builtins/builtins.go:92 | the decimal rendering is nonempty, all digits, and has no leading zero |
| GoStrings.FormatInt | zenlog/builtins/builtins.go:92 | `strconv.FormatInt(n, 10)`, which is also what `%d` prints at zenlog/logger/protocol_version.go:14: a nonempty string that starts with `-` exactly for negative numbers and is otherwise all digits |
| GoStrings.ParseFormatNat | zenlog/builtins/builtins.go:92 | reading the decimal digits back gives the number |
| GoStrings.FormatIntRoundTrip | zenlog/builtins/builtins.go:92 | `strconv.FormatInt(n, 10)` can be parsed back to `n`, negative numbers included |
| GoStrings.FormatIntInjective | zenlog/builtins/builtins.go:92 | two ctimes render to the same string exactly when they are equal |
| Protocol.SignatureAt | zenlog/logger/protocol_version.go:13-15 | the signature starts with the path and `:[`, ends in `]`, and holds only digits in between |
| Protocol.Signature | zenlog/logger/protocol_version.go:10-15 | at protocol version 1 the signature is the path followed by exactly `:[1]`, so its length is the path's length plus 4 |
| Protocol.SignatureAtInjective | zenlog/logger/protocol_version.go:13-15 | two signatures are equal exactly when the paths and the versions are equal |
| Protocol.SeparatorNotInTail | zenlog/logger/protocol_version.go:14 | after the path's `:` separator, a signature holds no further `:` |
| Protocol.SignatureInjective | zenlog/logger/protocol_version.go:13-15 | distinct executable paths give distinct signatures, and equal paths give equal ones |
| Protocol.SignatureDetectsVersionSkew | zenlog/logger/protocol_version.go:9-15 | for one path, two protocol versions give the same signature exactly when they are equal |
| Builtins.InZenlog | zenlog/builtins/builtins.go:21-25 | membership holds exactly when the exported value is the tty, `:` and the signature; such a value ends in `:[1]` and has the matching length |
| Builtins.MembershipKeyTtyInjective | zenlog/builtins/builtins.go:22-24 | for `MembershipKey`, the string `tty + ":" + Signature()` of builtins.go:22: with the signature fixed, equal keys mean equal ttys, and the converse holds |
| Builtins.MembershipKeySignatureInjective | zenlog/builtins/builtins.go:22-24 | with the tty fixed, equal keys mean the same executable and protocol version, and the converse holds |
| Builtins.InZenlogRejectsOtherTty | zenlog/builtins/builtins.go:22-24 | a member of a session stops being one when only the tty changes |
| Builtins.InZenlogRejectsOtherBin | zenlog/builtins/builtins.go:22-24 | a member of a session stops being one when only the executable changes |
| Builtins.InZenlogRejectsOtherVersion | zenlog/builtins/builtins.go:22-24 | a session exported at protocol version v admits the helper exactly when v is 1 |
| Builtins.MembershipKeyIdentifiesSession | zenlog/builtins/builtins.go:22-24 | for ttys without `:`, equal keys mean the same tty, executable and version, and the converse holds |
| Builtins.MembershipKeyAmbiguousWithColonTty | zenlog/builtins/builtins.go:22 | a tty containing `:` can produce the same key as a different tty and path |
| Builtins.FailIfInZenlog | zenlog/builtins/builtins.go:28-32 | fatal with "Already in zenlog." exactly inside a session; otherwise it returns |
| Builtins.FailUnlessInZenlog | zenlog/builtins/builtins.go:35-39 | fatal with "Not in zenlog." exactly outside a session; otherwise it returns |
| Builtins.CheckBinUpdate | zenlog/builtins/builtins.go:91-97 | exits with success exactly when the decimal ctime equals the exported string, with no output; otherwise prints the restart hint and exits with failure |
| Builtins.CheckBinUpdateDetectsReplacement | zenlog/builtins/builtins.go:92-96 | when the session exported ctime t0, the check succeeds exactly when the executable's ctime is still t0, and prints the hint otherwise |
| Builtins.Normalize | zenlog/builtins/builtins.go:101 | the normalised name has the same length and no `_`; every `_` becomes `-`, and every other character stays in place |
| Builtins.NormalizeIdempotent | zenlog/builtins/builtins.go:101 | normalising twice is the same as normalising once |
| Builtins.NormalizeUndoesUnderscores | zenlog/builtins/builtins.go:101 | writing a name's `-` as `_` still selects that name |
| Builtins.NormalizeFixesNormal | zenlog/builtins/builtins.go:101 | a name with no `_` is left unchanged |
| Builtins.Lookup | zenlog/builtins/builtins.go:101-179 | a recognised name is the case label of the builtin it selects; `end-command` is the only exception, a second label of `stop-log` |
| Builtins.LookupName | zenlog/builtins/builtins.go:102-175 | every builtin is selected by its own label, and `stop-log` and `end-command` select the same builtin |
| Builtins.CaseIsExpected | zenlog/builtins/builtins.go:102-180 | each case of the switch (`Case`, which keeps the source's double guards), followed by the final `ExitSuccess`, behaves as the reference: a session-only case outside a session is fatal before any effect; otherwise the three membership builtins decide their own exit, `check-bin-update` is the binary check, and every other builtin runs its handler once, with `args` exactly for the handlers that take them, then succeeds; every case ends in an exit |
| Builtins.MaybeRunBuiltin | zenlog/builtins/builtins.go:100-181 | returns with no effect exactly when the normalised name is not a builtin; otherwise it ends in an exit and behaves as that builtin's reference behaviour |
| Builtins.SameNormalFormSameRun | zenlog/builtins/builtins.go:101 | two commands that differ only in `_` versus `-` behave identically |
| Builtins.UnguardedIgnoresMembership | zenlog/builtins/builtins.go:105-175 | `zenlog-bin`, `zenlog-src-top`, `temp-dir`, `all-commands` and `list-logs` behave the same inside and outside a session and exit with success |
| Builtins.UnguardedNameIsNormal | zenlog/builtins/builtins.go:101-175 | the labels of the unguarded builtins are their own normal form |
| Builtins.WriteToOuter | zenlog/builtins/builtins.go:60-76 | the copy loop writes exactly the rendering of its input: each `\n`-ended piece and then the final, possibly empty, piece, each with trailing CR/LF trimmed and one CRLF added |
| Builtins.CRBeforeEveryLFAppend | zenlog/builtins/builtins.go:70-71 | concatenating two outputs in which every LF follows a CR gives another such output |
| Builtins.TerminatedLineCRLF | zenlog/builtins/builtins.go:69-71 | a written line has a CR before each of its LF bytes |
| Builtins.RenderedUsesCRLF | zenlog/builtins/builtins.go:66-76 | nothing written to the outer tty holds a bare LF |
| Builtins.RenderedLines | zenlog/builtins/builtins.go:66-76 | for `Rendered`, the output of the loop, and `Terminated`, one written line: for LF-joined lines, the output is each line, in order, with trailing CR/LF trimmed and one CRLF added, the last line included; interior bytes are kept |
| Builtins.PlainLineTerminated | zenlog/builtins/builtins.go:69-71 | a line ending in neither CR nor LF is written whole, followed by CRLF |
| Builtins.TrailingNewlineGivesEmptyLine | zenlog/builtins/builtins.go:66-76 | input ending in a newline gets an extra empty CRLF line, because the read at end of input returns a non-nil empty slice |
| CommandLine.GetSubcommand | zenlog/util/commandline.go:8-19 | with no second argument, or a second argument starting with `-`, there is no command and the args are all of `argv[1:]`; otherwise the command is `argv[1]` and the args are `argv[2:]`, so a nonempty command never starts with `-` and, followed by the args, rebuilds `argv[1:]`; an empty `argv[1]` becomes the empty command and is dropped |
| CommandLine.ProgramNameOnly | zenlog/util/commandline.go:10-12 | with only the program name there is no command and there are no args |
| CommandLine.EmptySecondArgumentDropped | zenlog/util/commandline.go:13-15 | an empty second argument becomes the empty command and disappears from args |
| CommandLine.SubcommandRoundTrip | zenlog/util/commandline.go:13-15 | a command not starting with `-`, written after the program name, comes back with exactly the arguments after it |
| CommandLine.FlagsRoundTrip | zenlog/util/commandline.go:10-12 | arguments that start with a flag are all passed on, and no command is taken |
| TestUtil.Ar | zenlog/util/testutil.go:7-9 | the arguments come back unchanged and in order |
| TestUtil.SlicesEqual | zenlog/util/testutil.go:11-21 | the result is true exactly when the two slices are equal as sequences, with the length check first and an early return at the first difference |
| TestUtil.SlicesEqualSymmetric | zenlog/util/testutil.go:11-21 | the relation decided is reflexive and symmetric |
| History.FirstLine | zenlog/builtins/history/all.go:34-37 | `ReadString('\n')` fails exactly when there is no `\n`; otherwise it returns a nonempty prefix that ends at the first `\n` |
| History.Summary | zenlog/builtins/history/all.go:38-39 | the summary is a suffix of the first line and never starts with a space; its exact value is given by SummaryDecomposes and SummaryOfMarkedLine |
| History.SummaryDropsOnlyMarkers | zenlog/builtins/history/all.go:38-39 | only `$` and space characters are removed, and a line ending in another character keeps a nonempty summary |
| History.LeadingInPrefix | zenlog/builtins/history/all.go:38-39 | a prefix drawn from the cut set, followed by an element outside it, is exactly what is trimmed |
| History.SummaryOfMarkedLine | zenlog/builtins/history/all.go:38-39 | any run of `$` markers followed by any run of spaces is stripped, and the command after them comes back unchanged |
| History.SummaryDecomposes | zenlog/builtins/history/all.go:38-39 | every line is a run of `$` markers, then a run of spaces, then its summary, and the summary starts with `$` only if that run of spaces is not empty; with SummaryOfMarkedLine this fixes the summary of every line |
| History.SummaryOfPrompt | zenlog/builtins/history/all.go:38-39 | `"$ ls\n"` is summarised as `"ls\n"` |
| History.RewriteSwitchesTree | zenlog/builtins/history/all.go:41-45 | for `RewritePath`: for a file under the sanitized tree, `-r` gives the same file in the raw tree even when `-e` is also given, `-e` alone gives the env tree, and no flag keeps the path |
| History.Record | zenlog/builtins/history/all.go:27-49 | a non-regular file, a file that cannot be opened, or content without `\n` prints nothing; otherwise the record ends with the first line's `\n` |
| History.PrintedByCallback | zenlog/builtins/history/all.go:27-49 | branch by branch, the callback prints nothing or the path, one space and the summary |
| History.ListingStep | zenlog/builtins/history/all.go:47-49 | one more walked entry appends exactly what the callback prints for it |
| History.AllCommands | zenlog/builtins/history/all.go:26-54 | the walk loop prints `Listing`: the concatenation of the records of the entries, in walk order |
| History.SummaryIsOneLine | zenlog/builtins/history/all.go:34-39 | the summary of a complete first line holds exactly one `\n` |
| History.RecordIsOneLine | zenlog/builtins/history/all.go:47-49 | a record whose path holds no `\n` is exactly one line |
| History.ListingLines | zenlog/builtins/history/all.go:47-54 | when no path holds `\n`, the listing has one line per entry that produced a record |

## Left out

- zenlog/starter.go, zenlog/logger/start.go, zenlog/logger/commands.go,
  zenlog/cmd/zenlog/main.go and zenlog/util/emergency.go are not part of
  this model. They hold pty creation, process exec, signals, goroutines, the
  logger's file I/O and the process entry point.
- Environment and OS reads are parameters of the model, not modelled:
  `os.Getenv`, `util.Tty`, `util.FindZenlogBin` and `util.ZenlogBinCtime`.
  An unset variable reads as the empty string.
- The handlers that `MaybeRunBuiltin` calls are opaque `Handle(builtin,
  args)` effects that are assumed to return. This covers `zenlog-bin`,
  `zenlog-src-top`, `temp-dir`, `write-to-logger`, `write-to-outer`,
  `outer-tty`, `logger-pipe`, the history, commandline, start and end
  commands, `all-commands` and `list-logs`. Exits or failures inside them,
  such as `util.Check` on an open error, are not modelled.
- Builtins.WriteToOuter: its result is what reaches the outer tty. Opening
  the tty, the errors of the reads and the ignored results of the writes are
  left out. The dispatch models `write-to-outer` only as a handler effect.
- History.AllCommands: `filepath.Walk` is replaced by the list of entries it
  would visit, in order. The walk's error argument is left out, and so is the
  closing of the files. When `Lstat` fails, for example because the sanitized
  log directory does not exist yet or an entry disappears during the walk,
  the walk calls the callback with a nil `info`. The callback then panics at
  `info.Mode()`. Every modelled entry has a known file mode, so this crash is
  outside the model. Flag parsing of `-r`/`-e` is replaced by two boolean
  parameters. The trailing `util.Exit(true)` is the dispatch's
  `Exit(true)`.
- The directory components `logfiles.SanDir`, `RawDir` and `EnvDir`, and the
  log directory, are parameters, because the package defining them is not
  part of this model.
- `AssertStringsEqual` and `AssertFileExist` only report test failures, so
  they are not modelled.
- Go strings are byte sequences, and the model uses Dafny `string`, a
  sequence of characters. Each character stands for one byte. Every cut set,
  separator and label involved is ASCII, so no multi-byte sequence is split
  differently.
- Debug logging (`util.Debugf`) has no observable effect in the model.
