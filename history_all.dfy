/**
 * The `all-commands` listing: for every log file met while walking the
 * sanitized log tree, one record made of the file's path (optionally moved
 * to the raw or env tree) and the file's first line with the prompt marker
 * stripped.
 */
module History {
  import opened Options
  import opened GoStrings

  /** A file met by the walk; `content` is None when it cannot be opened. */
  datatype Entry = Entry(path: string, isRegular: bool, content: Option<string>)

  /** The directory components of the three log trees (logfiles.SanDir, RawDir, EnvDir). */
  datatype Dirs = Dirs(san: string, raw: string, env: string)

  /** ReadString('\n') on a fresh reader: the first line with its '\n', or None when there is no '\n'. */
  function FirstLine(content: string): (r: Option<string>)
    ensures r.None? <==> '\n' !in content
    ensures r.Some? ==> HasPrefix(content, r.value) && r.value != []
    ensures r.Some? ==> r.value[|r.value| - 1] == '\n' && '\n' !in r.value[..|r.value| - 1]
  {
    var i := IndexByte(content, '\n');
    if i < 0 then None else Some(content[..i + 1])
  }

  /**
   * The summary of a first line: `strings.TrimLeft(first, "$")`, then
   * `strings.TrimLeft(_, " ")`. It is a suffix of the line, and it never
   * starts with a space.
   */
  function Summary(first: string): (r: string)
    ensures |r| <= |first| && r == first[|first| - |r|..]
    ensures r == [] || r[0] != ' '
  {
    TrimLeft(TrimLeft(first, {'$'}), {' '})
  }

  /** What the summary drops is markers and spaces only, and the line's last character stays. */
  lemma SummaryDropsOnlyMarkers(first: string)
    ensures forall i :: 0 <= i < |first| - |Summary(first)| ==> first[i] == '$' || first[i] == ' '
    ensures first != [] && first[|first| - 1] !in "$ " ==> Summary(first) != []
  {
    var t := TrimLeft(first, {'$'});
    var u := TrimLeft(t, {' '});
    assert u == Summary(first);
    forall i | 0 <= i < |first| - |u|
      ensures first[i] == '$' || first[i] == ' '
    {
      if i >= |first| - |t| {
        assert first[i] == t[i - (|first| - |t|)];
      }
    }
  }

  function Repeat(c: char, n: nat): (r: string)
    ensures |r| == n && forall i :: 0 <= i < n ==> r[i] == c
  {
    if n == 0 then [] else [c] + Repeat(c, n - 1)
  }

  /** A prefix drawn from `cutset`, followed by an element outside it, is exactly what TrimLeft drops. */
  lemma {:induction false} LeadingInPrefix(p: string, rest: string, cutset: set<char>)
    requires forall i :: 0 <= i < |p| ==> p[i] in cutset
    requires rest == [] || rest[0] !in cutset
    ensures LeadingIn(p + rest, cutset) == |p|
    decreases |p|
  {
    if p == [] {
      assert p + rest == rest;
    } else {
      assert (p + rest)[1..] == p[1..] + rest;
      LeadingInPrefix(p[1..], rest, cutset);
    }
  }

  /**
   * Any run of '$' markers followed by any run of spaces is stripped, and
   * nothing more: the command after them comes back as it was.
   */
  lemma SummaryOfMarkedLine(markers: nat, spaces: nat, command: string)
    requires command == [] || command[0] != ' '
    requires command == [] || spaces > 0 || command[0] != '$'
    ensures Summary(Repeat('$', markers) + Repeat(' ', spaces) + command) == command
  {
    var afterMarkers := Repeat(' ', spaces) + command;
    var line := Repeat('$', markers) + afterMarkers;
    assert line == Repeat('$', markers) + Repeat(' ', spaces) + command;
    LeadingInPrefix(Repeat('$', markers), afterMarkers, {'$'});
    assert line[markers..] == afterMarkers;
    LeadingInPrefix(Repeat(' ', spaces), command, {' '});
    assert afterMarkers[spaces..] == command;
  }

  /**
   * Every line has that shape: it is a run of '$' markers, then a run of
   * spaces, then its summary, which starts with '$' only if the run of
   * spaces is not empty. With SummaryOfMarkedLine this pins the summary of
   * every line down exactly.
   */
  lemma SummaryDecomposes(first: string)
    ensures LeadingIn(first, {'$'}) + |Summary(first)| <= |first|
    ensures var markers := LeadingIn(first, {'$'});
            var spaces := |first| - markers - |Summary(first)|;
            first == Repeat('$', markers) + Repeat(' ', spaces) + Summary(first)
            && (Summary(first) == [] || spaces > 0 || Summary(first)[0] != '$')
  {
    var markers := LeadingIn(first, {'$'});
    var t := first[markers..];
    var spaces := LeadingIn(t, {' '});
    var u := t[spaces..];
    assert u == Summary(first);
    RunIsRepeat(first, '$', markers);
    RunIsRepeat(t, ' ', spaces);
    SplitTwice(first, markers, spaces);
    assert spaces == |first| - markers - |u|;
    assert first == Repeat('$', markers) + Repeat(' ', spaces) + u;
  }

  /** Cutting `s` after `a` elements, and the rest after `b` more, gives back `s`. */
  lemma SplitTwice(s: string, a: nat, b: nat)
    requires a <= |s| && b <= |s| - a
    ensures s == s[..a] + s[a..][..b] + s[a..][b..]
  {
    assert s[a..] == s[a..][..b] + s[a..][b..];
  }

  /** A prefix made of one repeated element is that element's Repeat. */
  lemma RunIsRepeat(s: string, c: char, n: nat)
    requires n <= |s| && forall i :: 0 <= i < n ==> s[i] in {c}
    ensures s[..n] == Repeat(c, n)
  {
    assert forall i :: 0 <= i < n ==> s[..n][i] == c;
  }

  /** The prompt line of a sanitized log, "$ ls\n", is summarised as "ls\n". */
  lemma SummaryOfPrompt()
    ensures Summary("$ ls\n") == "ls\n"
  {
    SummaryOfMarkedLine(1, 1, "ls\n");
    assert Repeat('$', 1) + Repeat(' ', 1) + "ls\n" == "$ ls\n";
  }

  /** `-r` moves the path to the raw tree, else `-e` to the env tree; `-r` wins over `-e`. */
  function RewritePath(path: string, showRaw: bool, showEnv: bool, dirs: Dirs): string
  {
    if showRaw then ReplaceFirst(path, dirs.san, dirs.raw)
    else if showEnv then ReplaceFirst(path, dirs.san, dirs.env)
    else path
  }

  /**
   * For a file under the sanitized tree, whose first sanitized-dir component
   * is the one right after the log directory, `-r` and `-e` give the
   * parallel file in the raw or env tree, and no flag gives the path itself.
   */
  lemma RewriteSwitchesTree(logDir: string, rel: string, dirs: Dirs, showEnv: bool)
    requires forall j :: 0 <= j < |logDir| ==> !OccursAt(logDir + dirs.san, dirs.san, j)
    ensures RewritePath(logDir + dirs.san + rel, true, showEnv, dirs) == logDir + dirs.raw + rel
    ensures RewritePath(logDir + dirs.san + rel, false, true, dirs) == logDir + dirs.env + rel
    ensures RewritePath(logDir + dirs.san + rel, false, false, dirs) == logDir + dirs.san + rel
  {
    ReplaceFirstAfterPrefix(logDir, dirs.san, dirs.raw, rel);
    ReplaceFirstAfterPrefix(logDir, dirs.san, dirs.env, rel);
  }

  /**
   * The walk callback for one entry: nothing for a non-regular file, one that
   * cannot be opened or one without a complete first line; otherwise the
   * record "path summary", which ends with the first line's '\n'.
   */
  function Record(e: Entry, showRaw: bool, showEnv: bool, dirs: Dirs): (r: Option<string>)
    ensures r.None? <==> !e.isRegular || e.content.None? || '\n' !in e.content.value
    ensures r.Some? ==> r.value != [] && r.value[|r.value| - 1] == '\n'
  {
    if !e.isRegular then None
    else match e.content
      case None => None
      case Some(content) =>
        match FirstLine(content)
        case None => None
        case Some(first) =>
          var path := RewritePath(e.path, showRaw, showEnv, dirs);
          var summary := Summary(first);
          SummaryDropsOnlyMarkers(first);
          assert summary != [] && summary[|summary| - 1] == '\n';
          Some(path + " " + summary)
  }

  /** What the callback prints for one entry. */
  function Printed(e: Entry, showRaw: bool, showEnv: bool, dirs: Dirs): string
  {
    match Record(e, showRaw, showEnv, dirs)
    case None => ""
    case Some(r) => r
  }

  /** Everything printed for the walked entries, in walk order. */
  function Listing(entries: seq<Entry>, showRaw: bool, showEnv: bool, dirs: Dirs): string
  {
    if entries == [] then ""
    else
      var last := entries[|entries| - 1];
      Listing(entries[..|entries| - 1], showRaw, showEnv, dirs)
      + Printed(last, showRaw, showEnv, dirs)
  }

  /**
   * AllCommandsAndLogCommand's walk, driven over the entries the walk of the
   * sanitized tree meets, in order: prints each entry's record.
   */
  method AllCommands(entries: seq<Entry>, showRaw: bool, showEnv: bool, dirs: Dirs) returns (out: string)
    ensures out == Listing(entries, showRaw, showEnv, dirs)
  {
    out := "";
    for k := 0 to |entries|
      invariant out == Listing(entries[..k], showRaw, showEnv, dirs)
    {
      var e := entries[k];
      ListingStep(entries, k, showRaw, showEnv, dirs);
      PrintedByCallback(e, showRaw, showEnv, dirs);
      if e.isRegular && e.content.Some? {
        var first := FirstLine(e.content.value);
        if first.Some? {
          var path := RewritePath(e.path, showRaw, showEnv, dirs);
          var record := path + " " + Summary(first.value);
          out := out + record;
        }
      }
    }
    assert entries[..|entries|] == entries;
  }

  /** The callback's output for one entry, branch by branch. */
  lemma PrintedByCallback(e: Entry, showRaw: bool, showEnv: bool, dirs: Dirs)
    ensures !e.isRegular || e.content.None? || FirstLine(e.content.value).None? ==> Printed(e, showRaw, showEnv, dirs) == ""
    ensures e.isRegular && e.content.Some? && FirstLine(e.content.value).Some? ==>
      Printed(e, showRaw, showEnv, dirs)
      == RewritePath(e.path, showRaw, showEnv, dirs) + " " + Summary(FirstLine(e.content.value).value)
  {
  }

  /** One more walked entry adds exactly what the callback prints for it. */
  lemma ListingStep(entries: seq<Entry>, k: nat, showRaw: bool, showEnv: bool, dirs: Dirs)
    requires k < |entries|
    ensures Listing(entries[..k + 1], showRaw, showEnv, dirs)
            == Listing(entries[..k], showRaw, showEnv, dirs) + Printed(entries[k], showRaw, showEnv, dirs)
  {
    assert entries[..k + 1][..k] == entries[..k];
  }

  /** The number of `c` in `s`. */
  function Count(s: string, c: char): nat
  {
    if s == [] then 0 else Count(s[..|s| - 1], c) + (if s[|s| - 1] == c then 1 else 0)
  }

  lemma {:induction false} CountAppend(a: string, b: string, c: char)
    ensures Count(a + b, c) == Count(a, c) + Count(b, c)
    decreases |b|
  {
    if b == [] {
      assert a + b == a;
    } else {
      assert (a + b)[..|a + b| - 1] == a + b[..|b| - 1];
      CountAppend(a, b[..|b| - 1], c);
    }
  }

  lemma {:induction false} CountAbsent(s: string, c: char)
    requires c !in s
    ensures Count(s, c) == 0
    decreases |s|
  {
    if s != [] {
      CountAbsent(s[..|s| - 1], c);
    }
  }

  /** A string holding a single '\n', at its end, counts one line. */
  lemma OneLine(s: string)
    requires s != [] && s[|s| - 1] == '\n'
    requires forall i :: 0 <= i < |s| - 1 ==> s[i] != '\n'
    ensures Count(s, '\n') == 1
  {
    CountAbsent(s[..|s| - 1], '\n');
  }

  /** The summary of a complete first line is still one complete line. */
  lemma SummaryIsOneLine(first: string)
    requires first != [] && first[|first| - 1] == '\n'
    requires '\n' !in first[..|first| - 1]
    ensures Count(Summary(first), '\n') == 1
  {
    var summary := Summary(first);
    SummaryDropsOnlyMarkers(first);
    assert summary[|summary| - 1] == first[|first| - 1];
    forall i | 0 <= i < |summary| - 1
      ensures summary[i] != '\n'
    {
      assert summary[i] == first[|first| - |summary| + i];
      assert first[..|first| - 1][|first| - |summary| + i] == first[|first| - |summary| + i];
    }
    OneLine(summary);
  }

  /** A record whose path holds no '\n' is exactly one line. */
  lemma RecordIsOneLine(e: Entry, showRaw: bool, showEnv: bool, dirs: Dirs)
    requires Record(e, showRaw, showEnv, dirs).Some?
    requires '\n' !in RewritePath(e.path, showRaw, showEnv, dirs)
    ensures Count(Record(e, showRaw, showEnv, dirs).value, '\n') == 1
  {
    var first := FirstLine(e.content.value).value;
    var head := RewritePath(e.path, showRaw, showEnv, dirs) + " ";
    SummaryIsOneLine(first);
    CountAbsent(head, '\n');
    CountAppend(head, Summary(first), '\n');
    assert Record(e, showRaw, showEnv, dirs).value == head + Summary(first);
  }

  /** How many entries produce a record. */
  function Produced(entries: seq<Entry>, showRaw: bool, showEnv: bool, dirs: Dirs): nat
  {
    if entries == [] then 0
    else Produced(entries[..|entries| - 1], showRaw, showEnv, dirs)
         + if Record(entries[|entries| - 1], showRaw, showEnv, dirs).Some? then 1 else 0
  }

  /** With '\n'-free paths, the listing has exactly one line per entry that produced a record. */
  lemma {:induction false} ListingLines(entries: seq<Entry>, showRaw: bool, showEnv: bool, dirs: Dirs)
    requires forall k :: 0 <= k < |entries| ==> '\n' !in RewritePath(entries[k].path, showRaw, showEnv, dirs)
    ensures Count(Listing(entries, showRaw, showEnv, dirs), '\n') == Produced(entries, showRaw, showEnv, dirs)
    decreases |entries|
  {
    if entries != [] {
      var init := entries[..|entries| - 1];
      var last := entries[|entries| - 1];
      ListingLines(init, showRaw, showEnv, dirs);
      var tail := Printed(last, showRaw, showEnv, dirs);
      assert Listing(entries, showRaw, showEnv, dirs) == Listing(init, showRaw, showEnv, dirs) + tail;
      CountAppend(Listing(init, showRaw, showEnv, dirs), tail, '\n');
      if Record(last, showRaw, showEnv, dirs).Some? {
        RecordIsOneLine(last, showRaw, showEnv, dirs);
      }
    }
  }
}
