/** Requests that do not come back, although every request can be entered. */
module LostRequests {
  import opened Outcomes
  import opened CommandLine
  import opened ShellWords
  import opened ArgParser
  import opened Command
  import opened PrintedOptions
  import opened RoundTrip
  import opened MethodReplay
  import opened QuickReplay
  import Decimal
  import Text

  // ---------- Every request can be entered ----------

  /** Values are attached to their option, so that they may start with a hyphen. */
  function EnteredArg(a: Arg): string {
    match a
    case Valued(o, v) => ['-', LetterOf(o), '='] + v
    case Switched(f) => FlagText(f)
    case Verbose => "-v"
  }

  function EnteredArgs(args: seq<Arg>): seq<string> {
    if args == [] then [] else EnteredArgs(args[..|args| - 1]) + [EnteredArg(args[|args| - 1])]
  }

  function EnteredUrl(url: Option<string>): seq<string> {
    match url
    case None => []
    case Some(u) => ["--", u]
  }

  function Entered(c: Cli): seq<string> {
    [PROGRAM] + EnteredArgs(ArgsOf(c)) + EnteredUrl(c.url)
  }

  lemma ParseEnteredValue(c: Cli, o: ValueOption, v: string, rest: seq<string>)
    ensures Parse(Progress(c, None), [EnteredArg(Valued(o, v))] + rest) == ParseAfter(SetValue(c, o, v), rest)
  {
    var token := EnteredArg(Valued(o, v));
    var tokens := [token] + rest;
    assert KeyOfLetter(LetterOf(o)) == Some(ValueKey(o));
    HyphenatedIsNoCommand(token);
    assert token[1..][2..] == v;
    assert Cluster(c, token[1..]) == Settled(SetValue(c, o, v));
    assert tokens[0] == token && tokens[1..] == rest;
  }

  lemma ParseEntered(c: Cli, a: Arg, rest: seq<string>)
    ensures Parse(Progress(c, None), [EnteredArg(a)] + rest) == ParseAfter(Apply(c, a), rest)
  {
    if a.Valued? {
      ParseEnteredValue(c, a.option, a.value, rest);
    } else {
      ParseArg(c, a, rest);
    }
  }

  lemma {:induction false} ParseEnteredArgs(c: Cli, args: seq<Arg>, rest: seq<string>)
    ensures Parse(Progress(c, None), EnteredArgs(args) + rest) == ParseAfter(ApplyAll(c, args), rest)
  {
    hide EnteredArg, Apply, Parse;
    if args == [] {
      assert EnteredArgs(args) + rest == rest;
    } else {
      var n := |args| - 1;
      var last := args[n];
      assert EnteredArgs(args) + rest == EnteredArgs(args[..n]) + ([EnteredArg(last)] + rest);
      ParseEnteredArgs(c, args[..n], [EnteredArg(last)] + rest);
      if ApplyAll(c, args[..n]).Ok? {
        ParseEntered(ApplyAll(c, args[..n]).value, last, rest);
      }
    }
  }

  lemma ParseEnteredUrl(c: Cli, url: Option<string>)
    requires c.url.None?
    ensures Parse(Progress(c, None), EnteredUrl(url)) == Ok(c.(url := url))
  {
    if url.Some? {
      var u := url.value;
      assert ["--", u][1..] == [u] && [u][1..] == [];
      assert Positionals(c, [u]) == Positionals(c.(url := Some(u)), []);
    }
  }

  /** Whatever its fields hold, some command line enters the request. */
  lemma EveryRequestIsEntered(c: Cli)
    requires c.quick.None?
    ensures ParseCommandLine(Entered(c)) == Ok(c)
  {
    hide ArgsOf, EnteredArgs, EnteredUrl, Parse;
    var args, rest := EnteredArgs(ArgsOf(c)), EnteredUrl(c.url);
    assert Entered(c)[1..] == args + rest;
    ParseEnteredArgs(DEFAULT_CLI, ArgsOf(c), rest);
    RebuildsOptions(c);
    ParseEnteredUrl(c.(url := None, quick := None), c.url);
  }

  function QuickAlias(q: QuickCommand): (string, Subcommand) {
    match q
    case Ping(_) => ("p", PingCommand)
    case Disk(_) => ("d", DiskCommand)
    case Telnet(_, _) => ("t", TelnetCommand)
    case Ns(_) => ("ns", NsCommand)
    case Whois(_) => ("w", WhoisCommand)
    case Port(_, _) => ("port", PortCommand)
  }

  function EnteredQuick(q: QuickCommand): seq<string> {
    match q
    case Ping(target) => ["--", target]
    case Disk(path) => ["--", path]
    case Telnet(host, service) => ["--", host, Decimal.Print(service)]
    case Ns(domain) => ["--", domain]
    case Whois(query) => ["--", query]
    case Port(port, kill) =>
      (if kill then ["--kill"] else []) + (if port.Some? then ["--", Decimal.Print(port.value)] else [])
  }

  lemma EnteredOne(sub: Subcommand, st: SubState, s: string)
    requires st.arguments == [] && sub != HelpCommand
    ensures SubParse(sub, st, ["--", s]) == Ok(st.(arguments := [s]))
  {
    assert ["--", s][1..] == [s] && [s][1..] == [] && [] + [s] == [s];
    assert SubArguments(sub, st, [s]) == SubArguments(sub, st.(arguments := [s]), []);
  }

  lemma EnteredTwo(s: string, t: string)
    ensures SubParse(TelnetCommand, FRESH, ["--", s, t]) == Ok(FRESH.(arguments := [s, t]))
  {
    assert ["--", s, t][1..] == [s, t] && [s, t][1..] == [t] && [t][1..] == [];
    assert [] + [s] == [s] && [s] + [t] == [s, t];
    assert SubArguments(TelnetCommand, FRESH, [s, t]) == SubArguments(TelnetCommand, FRESH.(arguments := [s]), [t]);
    assert SubArguments(TelnetCommand, FRESH.(arguments := [s]), [t]) ==
           SubArguments(TelnetCommand, FRESH.(arguments := [s, t]), []);
  }

  lemma EnteredPort(port: Option<U16>, kill: bool)
    ensures QuickCommandOf(PortCommand, EnteredQuick(Port(port, kill))) == Ok((Port(port, kill), None))
  {
    var number := if port.Some? then ["--", Decimal.Print(port.value)] else [];
    var st := FRESH.(kill := kill);
    if port.Some? {
      EnteredOne(PortCommand, st, Decimal.Print(port.value));
      Decimal.ParseOfPrint(port.value);
    }
    if kill {
      assert (["--kill"] + number)[1..] == number;
      assert SubParse(PortCommand, FRESH, ["--kill"] + number) == SubParse(PortCommand, st, number);
    } else {
      assert [] + number == number;
    }
  }

  lemma QuickIsAssembled(q: QuickCommand)
    ensures QuickCommandOf(QuickAlias(q).1, EnteredQuick(q)) == Ok((q, None))
  {
    hide SubParse;
    match q
    case Ping(target) => EnteredOne(PingCommand, FRESH, target);
    case Disk(path) => EnteredOne(DiskCommand, FRESH, path);
    case Telnet(host, service) =>
      EnteredTwo(host, Decimal.Print(service));
      Decimal.ParseOfPrint(service);
    case Ns(domain) => EnteredOne(NsCommand, FRESH, domain);
    case Whois(query) => EnteredOne(WhoisCommand, FRESH, query);
    case Port(port, kill) => EnteredPort(port, kill);
  }

  /** Likewise every quick command. */
  lemma EveryQuickIsEntered(q: QuickCommand)
    ensures ParseCommandLine([PROGRAM, QuickAlias(q).0] + EnteredQuick(q)) == Ok(DEFAULT_CLI.(quick := Some(q)))
  {
    hide EnteredQuick, QuickCommandOf;
    QuickIsAssembled(q);
    ParseQuick(QuickAlias(q).0, QuickAlias(q).1, EnteredQuick(q));
  }

  // ---------- Bad quoting ----------

  /** Printed options never leave a quote open: with a plain method, the splitter refuses a line
      exactly when it refuses the URL. */
  lemma BadQuotingExactly(c: Cli)
    requires c.quick.None? && MethodIsPlain(c)
    ensures Replay(CommandText(c)) == Err(BadQuoting) <==> c.url.Some? && Split(c.url.value).Err?
  {
    hide ArgsOf, CommandText, Tokens, IsPlainWord;
    if c.url.None? {
      SplitOptions(c);
    } else {
      var words := [PROGRAM] + Tokens(ArgsOf(c));
      SplitRequest(c);
      assert words + [] == words;
      RunIgnoresWords(Delimiter, "", words, [], c.url.value);
    }
  }

  lemma {:induction false} SingleQuoteStaysOpen(st: Config, r: string)
    requires st.mode == SingleQuoted && '\'' !in r
    ensures Run(st, r).mode == SingleQuoted
    decreases |r|
  {
    if r != "" {
      SingleQuoteStaysOpen(Step(st, r[0]), r[1..]);
    }
  }

  lemma ApostropheOpens(left: string, right: string)
    requires AllPlain(left) && (left == "" || left[0] != '#') && '\'' !in right
    ensures Split(left + "'" + right).Err?
  {
    assert left + "'" + right == left + ("'" + right);
    RunConcat(START, left, "'" + right);
    if left != "" {
      RunPlain(START, left);
    }
    var st := Run(START, left);
    assert ("'" + right)[0] == '\'' && ("'" + right)[1..] == right;
    assert Run(st, "'" + right) == Run(Step(st, '\''), right);
    SingleQuoteStaysOpen(Step(st, '\''), right);
  }

  /** A URL with one apostrophe makes its own history line unreadable, whatever follows it. */
  lemma LoneApostropheFails(c: Cli, left: string, right: string)
    requires c.quick.None? && c.url == Some(left + "'" + right)
    requires AllPlain(left) && (left == "" || left[0] != '#') && '\'' !in right
    ensures Replay(CommandText(c)) != Ok(c)
    ensures MethodIsPlain(c) ==> Replay(CommandText(c)) == Err(BadQuoting)
  {
    hide CommandText, ArgsOf, Replay;
    ApostropheOpens(left, right);
    assert !IsPlainEnding(c.url.value) by {
      assert c.url.value[|left|] == '\'';
    }
    RequestReplaysExactly(c);
    if MethodIsPlain(c) {
      BadQuotingExactly(c);
    }
  }

  // ---------- Values that look like options ----------

  /** A printed value that looks like an option never comes back; after a plain method, the parser
      refuses the line. */
  lemma HyphenatedValueFails(c: Cli)
    requires c.quick.None? && !ValuesUnhyphenated(ArgsOf(c))
    ensures Replay(CommandText(c)) != Ok(c)
    ensures MethodIsPlain(c) ==> Replay(CommandText(c)).Err?
  {
    hide ArgsOf, CommandText, Tokens, IsPlainWord;
    RequestReplaysExactly(c);
    if MethodIsPlain(c) {
      if c.url.None? {
        OptionsReplayExactly(c);
      } else {
        SplitRequest(c);
        if Split(CommandText(c)).Ok? {
          var words := [PROGRAM] + Tokens(ArgsOf(c));
          var found := Split(CommandText(c)).value;
          RunExtends(Config(Delimiter, "", words), c.url.value);
          assert words <= found;
          assert found == words + found[|words|..];
          ParsePrinted(c, found[|words|..]);
        }
      }
    }
  }

  /** A body such as `-5`, which can be given as `--data=-5`, is printed as `-d '-5'`. */
  lemma HyphenatedDataIsLost(c: Cli)
    requires c.quick.None? && c.body.Some? && IsHyphenated(c.body.value)
    ensures Replay(CommandText(c)) != Ok(c)
    ensures MethodIsPlain(c) ==> Replay(CommandText(c)).Err?
  {
    BodyIsPrinted(c, c.body.value);
    hide ArgsOf, CommandText, Tokens, IsPlainWord;
    HyphenatedValueFails(c);
  }

  lemma BodyIsPrinted(c: Cli, v: string)
    requires c.body == Some(v)
    ensures Valued(Data, v) in ArgsOf(c)
  {
    var first := Optional(Request, c.requestMethod);
    var payload := WithPayload([], c);
    assert payload[|first|] == Valued(Data, v);
    assert payload <= WithIdentity(payload, c);
    var identity := WithIdentity(payload, c);
    assert identity <= WithFiles(identity, c);
    var files := WithFiles(identity, c);
    assert files <= WithTransfer(files, c);
    var transfer := WithTransfer(files, c);
    assert transfer <= WithProtocol(transfer, c);
    var protocol := WithProtocol(transfer, c);
    assert protocol <= WithReports(protocol, c);
    assert ArgsOf(c)[|first|] == Valued(Data, v);
  }

  // ---------- Two command lines ----------

  const ADDRESS := "http://a"
  const APOSTROPHE := "http://a/it's"

  lemma DataText()
    ensures Text.IndexOf("data=-5", '=') == 4
    ensures "data=-5"[..4] == "data" && "data=-5"[5..] == "-5" && KeyOfName("data=-5") == None
  {
    hide Text.IndexOf;
    Text.IndexIsFirst("data=-5", '=', 4);
  }

  lemma DataOption()
    ensures OptionToken(DEFAULT_CLI, "--data=-5") == Ok(Progress(DEFAULT_CLI.(body := Some("-5")), None))
  {
    hide Text.IndexOf;
    DataText();
    assert "--data=-5"[2..] == "data=-5";
    assert KeyOfName("data") == Some(ValueKey(Data));
  }

  lemma EnteredData()
    ensures ParseCommandLine([PROGRAM, "--data=-5", ADDRESS]) ==
            Ok(DEFAULT_CLI.(body := Some("-5"), url := Some(ADDRESS)))
  {
    hide OptionToken;
    var words, c := [PROGRAM, "--data=-5", ADDRESS], DEFAULT_CLI.(body := Some("-5"));
    DataOption();
    HyphenatedIsNoCommand("--data=-5");
    assert words[1..][0] == "--data=-5" && words[1..][1..] == [ADDRESS] && [ADDRESS][1..] == [];
    assert Parse(Progress(DEFAULT_CLI, None), words[1..]) == Parse(Progress(c, None), [ADDRESS]);
    assert Parse(Progress(c, None), [ADDRESS]) == Parse(Progress(c.(url := Some(ADDRESS)), None), []);
  }

  lemma EnteredApostrophe()
    ensures ParseCommandLine([PROGRAM, APOSTROPHE]) == Ok(DEFAULT_CLI.(url := Some(APOSTROPHE)))
  {
    var words := [PROGRAM, APOSTROPHE];
    assert words[1..] == [APOSTROPHE] && [APOSTROPHE][1..] == [];
    assert Parse(Progress(DEFAULT_CLI, None), [APOSTROPHE]) ==
           Parse(Progress(DEFAULT_CLI.(url := Some(APOSTROPHE)), None), []);
  }

  /** `rcurl --data=-5 http://a` and `rcurl "http://a/it's"` are accepted and saved, and neither can
      be selected from the history. */
  lemma AcceptedAndLost()
    ensures var r := ParseCommandLine([PROGRAM, "--data=-5", ADDRESS]);
            r.Ok? && Replay(CommandText(r.value)).Err?
    ensures var r := ParseCommandLine([PROGRAM, APOSTROPHE]);
            r.Ok? && Replay(CommandText(r.value)) == Err(BadQuoting)
  {
    hide CommandText, Replay, ParseCommandLine;
    EnteredData();
    EnteredApostrophe();
    HyphenatedDataIsLost(DEFAULT_CLI.(body := Some("-5"), url := Some(ADDRESS)));
    assert APOSTROPHE == "http://a/it" + "'" + "s";
    LoneApostropheFails(DEFAULT_CLI.(url := Some(APOSTROPHE)), "http://a/it", "s");
  }
}
