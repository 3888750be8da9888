/** Invocations of the program and the history they leave: a fresh request is saved and run; an
    invocation without URL or command offers the history, replays the chosen line and saves what
    that prints again. */
module Interactive {
  import opened Outcomes
  import opened CommandLine
  import opened ShellWords
  import opened Misread
  import opened ArgParser
  import opened Command
  import opened PrintedOptions
  import opened RoundTrip
  import opened MethodReplay
  import opened QuickReplay
  import opened History

  /** The request as it was parsed and, should the menu open, the entry chosen in it. */
  datatype Invocation = Invocation(cli: Cli, pick: Option<nat>)

  datatype Outcome = Executed(cli: Cli) | NothingToSelect | Cancelled | Failed(error: ReplayError)

  predicate OpensMenu(c: Cli) {
    c.url.None? && c.quick.None?
  }

  /** What an invocation does, given the commands in the history. */
  function OutcomeOf(h: seq<string>, inv: Invocation): Outcome {
    if !OpensMenu(inv.cli) then Executed(inv.cli)
    else if h == [] then NothingToSelect
    else if inv.pick.None? || inv.pick.value >= |h| then Cancelled
    else
      match Replay(h[inv.pick.value])
      case Ok(c) => Executed(c)
      case Err(e) => Failed(e)
  }

  /** Exactly the executed requests are saved. */
  function After(h: seq<string>, inv: Invocation): seq<string> {
    match OutcomeOf(h, inv)
    case Executed(c) => Save(h, CommandText(c))
    case _ => h
  }

  method DoRequest(file: HistoryFile, inv: Invocation) returns (outcome: Outcome)
    modifies file
    ensures outcome == OutcomeOf(old(file.Lines()), inv)
    ensures file.Lines() == After(old(file.Lines()), inv)
    ensures inv.cli.url.Some? || inv.cli.quick.Some? ==>
              outcome == Executed(inv.cli) && file.Lines() == Save(old(file.Lines()), CommandText(inv.cli))
  {
    if inv.cli.url.None? && inv.cli.quick.None? {
      outcome := InteractiveMode(file, inv);
      return;
    }
    var command := CommandFromCli(inv.cli);
    file.SaveRequest(command, inv.cli);
    outcome := Executed(inv.cli);
  }

  method InteractiveMode(file: HistoryFile, inv: Invocation) returns (outcome: Outcome)
    requires OpensMenu(inv.cli)
    modifies file
    ensures outcome == OutcomeOf(old(file.Lines()), inv)
    ensures file.Lines() == After(old(file.Lines()), inv)
  {
    var loaded := file.Load();
    var history := if loaded.Ok? then loaded.value else [];
    assert history == file.Lines();
    if history == [] {
      return NothingToSelect;
    }
    if inv.pick.None? || inv.pick.value >= |history| {
      return Cancelled;
    }
    var replayed := Replay(history[inv.pick.value]);
    if replayed.Err? {
      return Failed(replayed.error);
    }
    var cli := replayed.value;
    var command := CommandFromCli(cli);
    file.SaveRequest(command, cli);
    outcome := Executed(cli);
  }

  // ---------- What is executed ----------

  /** A URL or a quick command is enough: the request is executed as it was given, and saved. */
  lemma FreshIsExecuted(h: seq<string>, inv: Invocation)
    requires inv.cli.url.Some? || inv.cli.quick.Some?
    ensures OutcomeOf(h, inv) == Executed(inv.cli)
    ensures After(h, inv) == Save(h, CommandText(inv.cli))
  {
    hide CommandText, Save;
  }

  /** With neither, the history decides: it may be empty, nothing may be chosen, the chosen line may
      not split or not parse; otherwise what it says is executed, and saved as it is then printed. */
  lemma ChosenIsExecuted(h: seq<string>, inv: Invocation)
    requires inv.cli.url.None? && inv.cli.quick.None?
    ensures h == [] ==> OutcomeOf(h, inv) == NothingToSelect && After(h, inv) == h
    ensures h != [] && (inv.pick.None? || inv.pick.value >= |h|) ==>
              OutcomeOf(h, inv) == Cancelled && After(h, inv) == h
    ensures inv.pick.Some? && inv.pick.value < |h| ==>
              var words := Split(h[inv.pick.value]);
              && (words.Err? ==> OutcomeOf(h, inv) == Failed(BadQuoting) && After(h, inv) == h)
              && (words.Ok? ==>
                    var parsed := ParseCommandLine(words.value);
                    && (parsed.Err? ==>
                          OutcomeOf(h, inv) == Failed(BadArguments(parsed.error)) && After(h, inv) == h)
                    && (parsed.Ok? ==>
                          && OutcomeOf(h, inv) == Executed(parsed.value)
                          && After(h, inv) == Save(h, CommandText(parsed.value))))
  {
    hide CommandText, Save, ParseCommandLine;
  }

  // ---------- Replay is stable ----------

  /** A request that its printed line says again. */
  predicate IsWellFormed(c: Cli) {
    if c.quick.Some? then QuickIsReplayable(c.quick.value) else RequestIsReplayable(c)
  }

  /** What a printed line still says of a request. */
  function Printed(c: Cli): Cli {
    if c.quick.Some? then QuickRequest(c.quick.value) else c
  }

  /** For every request and quick command: its printed line says on replay what it said, if and only
      if it is well-formed. */
  lemma ReplaysExactly(c: Cli)
    ensures Replay(CommandText(c)) == Ok(Printed(c)) <==> IsWellFormed(c)
  {
    hide CommandText, Replay, RequestIsReplayable, QuickIsReplayable;
    if c.quick.Some? {
      QuickRoundTripExactly(c);
    } else {
      RequestReplaysExactly(c);
    }
  }

  lemma ReplayOfPrinted(c: Cli)
    requires IsWellFormed(c)
    ensures Replay(CommandText(c)) == Ok(Printed(c))
    ensures CommandText(Printed(c)) == CommandText(c)
  {
    ReplaysExactly(c);
    hide ArgsOf, Replay;
  }

  /** A line that is printed again once it has been replayed. */
  predicate IsStable(line: string) {
    Replay(line).Ok? && CommandText(Replay(line).value) == line
  }

  /** The stable lines are exactly the printed lines of well-formed requests, even where the printer
      drops data. */
  lemma StableExactly(line: string)
    ensures IsStable(line) <==> exists c :: IsWellFormed(c) && CommandText(c) == line
  {
    hide CommandText, Replay, IsWellFormed, Printed;
    if IsStable(line) {
      OnlyWellFormedIsStable(Replay(line).value);
    }
    forall c | IsWellFormed(c) && CommandText(c) == line
      ensures IsStable(line)
    {
      ReplayOfPrinted(c);
    }
  }

  lemma OnlyWellFormedIsStable(c: Cli)
    requires Replay(CommandText(c)) == Ok(c)
    ensures IsWellFormed(c)
  {
    hide CommandText, Replay, RequestIsReplayable, QuickIsReplayable;
    if c.quick.Some? {
      QuickRoundTripExactly(c);
      if c.quick.value.Port? {
        PortIsReplayable(c.quick.value);
      }
    } else {
      RequestReplaysExactly(c);
    }
  }

  lemma PortIsReplayable(q: QuickCommand)
    requires q.Port?
    ensures QuickIsReplayable(q)
  {
  }

  /** Printing what was replayed gives the same line, even where the printer drops data. */
  lemma ReplayFixpoint(c: Cli)
    requires IsWellFormed(c)
    ensures IsStable(CommandText(c))
  {
    ReplayOfPrinted(c);
    hide CommandText, Replay;
  }

  /** Two requests share a history line only if they say the same, so removing duplicate lines
      never merges different requests. */
  lemma SameLineSameRequest(c: Cli, d: Cli)
    requires IsWellFormed(c) && IsWellFormed(d)
    ensures CommandText(c) == CommandText(d) <==> Printed(c) == Printed(d)
  {
    ReplayOfPrinted(c);
    ReplayOfPrinted(d);
    hide CommandText, Replay, Printed;
  }

  // ---------- One selection ----------

  /** The history with one line moved to the front. */
  function Moved(h: seq<string>, i: nat): seq<string>
    requires i < |h|
  {
    [h[i]] + h[..i] + h[i + 1..]
  }

  /** What choosing a line does, whatever the line: if it cannot be replayed, nothing; else it is
      moved to the front and nothing else changes exactly if it is stable; and the history grows by
      one line exactly if what was saved is new to it. */
  lemma SelectionExactly(h: seq<string>, inv: Invocation)
    requires NoDuplicates(h) && OpensMenu(inv.cli)
    requires inv.pick.Some? && inv.pick.value < |h|
    ensures var line, after := h[inv.pick.value], After(h, inv);
            && (Replay(line).Err? ==> after == h)
            && (Replay(line).Ok? ==> (after == Moved(h, inv.pick.value) <==> IsStable(line)))
            && (Replay(line).Ok? ==>
                  |after| == |h| + if CommandText(Replay(line).value) in h then 0 else 1)
  {
    hide CommandText, Replay, Without;
    var i := inv.pick.value;
    var line := h[i];
    if Replay(line).Ok? {
      var saved := CommandText(Replay(line).value);
      assert After(h, inv) == Save(h, saved);
      if saved in h {
        var k :| 0 <= k < |h| && h[k] == saved;
        SaveMoves(h, k);
        assert |multiset(Save(h, saved))| == |multiset(h)|;
      } else {
        WithoutAbsent(h, saved);
      }
      assert Save(h, saved)[0] == saved && Moved(h, i)[0] == line;
      SaveMoves(h, i);
    }
  }

  /** Choosing the line of a well-formed request runs it and only moves the line. */
  lemma SelectionMoves(h: seq<string>, inv: Invocation, c: Cli)
    requires NoDuplicates(h) && OpensMenu(inv.cli)
    requires inv.pick.Some? && inv.pick.value < |h|
    requires IsWellFormed(c) && h[inv.pick.value] == CommandText(c)
    ensures OutcomeOf(h, inv) == Executed(Printed(c))
    ensures After(h, inv) == Moved(h, inv.pick.value)
    ensures multiset(After(h, inv)) == multiset(h)
  {
    ReplayOfPrinted(c);
    ReplayFixpoint(c);
    hide CommandText, Replay, Without;
    SelectionExactly(h, inv);
    SaveMoves(h, inv.pick.value);
  }

  /** A URL such as `http://a #b` is cut at the blank, as what follows is a comment: choosing its
      line saves another line instead. */
  lemma CommentedUrlChanges(h: seq<string>, inv: Invocation, c: Cli, u: string, comment: string)
    requires NoDuplicates(h) && OpensMenu(inv.cli)
    requires inv.pick.Some? && inv.pick.value < |h| && h[inv.pick.value] == CommandText(c)
    requires IsPlainWord(u) && IsReplayableUrl(u) && '\n' !in comment
    requires c.quick.None? && c.url == Some(u + " #" + comment)
    requires MethodIsPlain(c) && ValuesUnhyphenated(ArgsOf(c))
    ensures OutcomeOf(h, inv) == Executed(c.(url := Some(u))) && !IsStable(CommandText(c))
    ensures CommandText(c.(url := Some(u))) !in h ==> |After(h, inv)| == |h| + 1
  {
    ReadCommented(c, u, comment);
    CommentedLine(c, u, comment);
    hide CommandText, Replay, ArgsOf, IsPlainWord, Without;
    SelectionExactly(h, inv);
  }

  lemma CommentedLine(c: Cli, u: string, comment: string)
    requires c.quick.None? && c.url == Some(u + " #" + comment)
    ensures CommandText(c) != CommandText(c.(url := Some(u)))
  {
    var d := c.(url := Some(u));
    SameOptions(c, d);
    hide ArgsOf, ArgsText;
    assert |CommandText(d)| < |CommandText(c)|;
  }

  lemma SameOptions(c: Cli, d: Cli)
    requires d == c.(url := d.url)
    ensures ArgsOf(c) == ArgsOf(d)
  {
  }

  lemma ReadCommented(c: Cli, u: string, comment: string)
    requires c.quick.None? && c.url == Some(u + " #" + comment)
    requires IsPlainWord(u) && IsReplayableUrl(u) && '\n' !in comment
    requires MethodIsPlain(c) && ValuesUnhyphenated(ArgsOf(c))
    ensures Replay(CommandText(c)) == Ok(c.(url := Some(u)))
  {
    var words := [PROGRAM] + Tokens(ArgsOf(c));
    RunCommented(words, u, comment);
    hide ArgsOf, CommandText, Tokens, IsPlainWord, Run, Finish;
    SplitRequest(c);
    ParsePrinted(c, [u]);
    LoneToken(c.(url := None, quick := None), u);
  }

  lemma RunCommented(words: seq<string>, u: string, comment: string)
    requires IsPlainWord(u) && '\n' !in comment
    ensures Finish(Run(Config(Delimiter, "", words), u + " #" + comment)) == Ok(words + [u])
  {
    var st := Config(Unquoted, u, words);
    assert u + " #" + comment == u + (" #" + comment);
    RunConcat(Config(Delimiter, "", words), u, " #" + comment);
    RunPlain(Config(Delimiter, "", words), u);
    assert "" + u == u;
    assert (" #" + comment)[1..] == "#" + comment && ("#" + comment)[1..] == comment;
    var open := Step(Step(st, ' '), '#');
    assert Run(st, " #" + comment) == Run(Step(st, ' '), "#" + comment);
    assert Run(Step(st, ' '), "#" + comment) == Run(open, comment);
    CommentNeedsNewline(open, comment);
  }

  // ---------- Any run ----------

  function AfterAll(run: seq<Invocation>): seq<string> {
    if run == [] then [] else After(AfterAll(run[..|run| - 1]), run[|run| - 1])
  }

  /** The lines a run saves, in order. */
  function Saved(run: seq<Invocation>): seq<string> {
    if run == [] then []
    else
      var before, last := run[..|run| - 1], run[|run| - 1];
      Saved(before) +
      match OutcomeOf(AfterAll(before), last)
      case Executed(c) => [CommandText(c)]
      case _ => []
  }

  /** Whatever the invocations, fresh or selected, well-formed or not, the history is the list of
      the lines saved, each once, the latest first. */
  lemma {:induction false} HistoryOfRun(run: seq<Invocation>)
    ensures AfterAll(run) == SaveAll(Saved(run))
    ensures IsMostRecentFirst(AfterAll(run), Saved(run))
    ensures NoDuplicates(AfterAll(run))
  {
    if run != [] {
      var before, last := run[..|run| - 1], run[|run| - 1];
      HistoryOfRun(before);
      var outcome := OutcomeOf(AfterAll(before), last);
      if outcome.Executed? {
        var line := CommandText(outcome.cli);
        SaveKeepsNoDuplicates(AfterAll(before), line);
        assert (Saved(before) + [line])[..|Saved(before)|] == Saved(before);
      } else {
        assert Saved(run) == Saved(before);
      }
    }
    SaveAllIsMostRecentFirst(Saved(run));
  }

  predicate FreshAreWellFormed(run: seq<Invocation>) {
    forall inv | inv in run :: OpensMenu(inv.cli) || IsWellFormed(inv.cli)
  }

  function Fresh(run: seq<Invocation>): seq<Invocation> {
    if run == [] then []
    else Fresh(run[..|run| - 1]) + if OpensMenu(run[|run| - 1].cli) then [] else [run[|run| - 1]]
  }

  predicate IsLineOf(line: string, inv: Invocation) {
    !OpensMenu(inv.cli) && IsWellFormed(inv.cli) && line == CommandText(inv.cli)
  }

  ghost predicate HasSource(line: string, run: seq<Invocation>) {
    exists inv :: inv in run && IsLineOf(line, inv)
  }

  lemma ReplayableLine(line: string, inv: Invocation)
    requires IsLineOf(line, inv)
    ensures Replay(line) == Ok(Printed(inv.cli)) && CommandText(Printed(inv.cli)) == line
  {
    ReplayOfPrinted(inv.cli);
  }

  lemma SourceExtends(line: string, before: seq<Invocation>, last: Invocation)
    requires HasSource(line, before)
    ensures HasSource(line, before + [last])
  {
    var inv :| inv in before && IsLineOf(line, inv);
    assert inv in before + [last];
  }

  /** In a run of well-formed requests every history line is the line of one of them. */
  lemma {:induction false} LinesHaveSources(run: seq<Invocation>)
    requires FreshAreWellFormed(run)
    ensures forall line | line in AfterAll(run) :: HasSource(line, run)
  {
    hide CommandText, Replay, IsWellFormed, Printed;
    if run != [] {
      var before, last := run[..|run| - 1], run[|run| - 1];
      assert run == before + [last];
      LinesHaveSources(before);
      forall line | line in AfterAll(run)
        ensures HasSource(line, run)
      {
        NewLine(AfterAll(before), last, before, line);
        if line in AfterAll(before) {
          SourceExtends(line, before, last);
        } else {
          assert last in run && IsLineOf(line, last);
        }
      }
    }
  }

  lemma NewLine(h: seq<string>, last: Invocation, before: seq<Invocation>, line: string)
    requires forall l | l in h :: HasSource(l, before)
    requires OpensMenu(last.cli) || IsWellFormed(last.cli)
    requires line in After(h, last)
    ensures line in h || IsLineOf(line, last)
  {
    hide CommandText, Replay, IsWellFormed, Printed;
    var outcome := OutcomeOf(h, last);
    if outcome.Executed? {
      WithoutMembers(h, CommandText(outcome.cli));
      if OpensMenu(last.cli) {
        var chosen := h[last.pick.value];
        assert chosen in h;
        var inv :| inv in before && IsLineOf(chosen, inv);
        ReplayableLine(chosen, inv);
      }
    }
  }

  /** A selection in a history of replayable lines only reorders it. */
  lemma SelectionReorders(h: seq<string>, last: Invocation, before: seq<Invocation>)
    requires NoDuplicates(h) && OpensMenu(last.cli)
    requires forall l | l in h :: HasSource(l, before)
    ensures multiset(After(h, last)) == multiset(h)
  {
    hide CommandText, Replay, IsWellFormed, Printed;
    if OutcomeOf(h, last).Executed? {
      var line := h[last.pick.value];
      assert line in h;
      var inv :| inv in before && IsLineOf(line, inv);
      SelectionMoves(h, last, inv.cli);
    }
  }

  /** Selections only reorder: a run of well-formed requests leaves the same lines, each once, as
      its fresh requests alone. */
  lemma {:induction false} SelectionsOnlyReorder(run: seq<Invocation>)
    requires FreshAreWellFormed(run)
    ensures multiset(AfterAll(run)) == multiset(AfterAll(Fresh(run)))
  {
    hide CommandText, Replay, IsWellFormed, Printed;
    if run != [] {
      var before, last := run[..|run| - 1], run[|run| - 1];
      assert run == before + [last];
      SelectionsOnlyReorder(before);
      HistoryOfRun(before);
      LinesHaveSources(before);
      if OpensMenu(last.cli) {
        assert Fresh(run) == Fresh(before);
        SelectionReorders(AfterAll(before), last, before);
      } else {
        assert Fresh(run)[..|Fresh(run)| - 1] == Fresh(before);
        SaveSameLines(AfterAll(before), AfterAll(Fresh(before)), CommandText(last.cli));
      }
    }
  }

  lemma {:induction false} WithoutMultiset(h: seq<string>, c: string)
    ensures multiset(Without(h, c)) == multiset(h)[c := 0]
  {
    if h != [] {
      assert h == [h[0]] + h[1..];
      WithoutMultiset(h[1..], c);
    }
  }

  lemma SaveSameLines(h: seq<string>, f: seq<string>, c: string)
    requires multiset(h) == multiset(f)
    ensures multiset(Save(h, c)) == multiset(Save(f, c))
  {
    WithoutMultiset(h, c);
    WithoutMultiset(f, c);
  }
}
