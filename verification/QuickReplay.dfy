/** Quick commands on a history line: their arguments are printed without quotes and everything
    else about the request is dropped. */
module QuickReplay {
  import opened Outcomes
  import opened CommandLine
  import opened ShellWords
  import opened ArgParser
  import opened Command
  import opened BareWords
  import opened RoundTrip
  import Decimal

  /** What a printed quick command still says: `--kill` needs a port. */
  function Normal(q: QuickCommand): QuickCommand {
    if q.Port? && q.port.None? then Port(None, false) else q
  }

  function QuickRequest(q: QuickCommand): Cli {
    DEFAULT_CLI.(quick := Some(Normal(q)))
  }

  /** Replaying the line gives this command, whatever else it sets. */
  predicate SaysAgain(line: string, q: QuickCommand) {
    Replay(line).Ok? && Replay(line).value.quick == Some(Normal(q))
  }

  predicate IsReplayableArgument(s: string) {
    IsPlainEnding(s) && !IsHyphenated(s)
  }

  /** The host of a telnet command is followed by the port, so it cannot end in a backslash. */
  predicate QuickIsReplayable(q: QuickCommand) {
    match q
    case Ping(target) => IsReplayableArgument(target)
    case Disk(path) => IsReplayableArgument(path)
    case Telnet(host, _) => IsPlainWord(host) && !IsHyphenated(host)
    case Ns(domain) => IsReplayableArgument(domain)
    case Whois(query) => IsReplayableArgument(query)
    case Port(_, _) => true
  }

  // ---------- Parsing a quick command ----------

  const FRESH := SubState([], false, None)

  lemma ParseQuick(alias: string, sub: Subcommand, tail: seq<string>)
    requires SubcommandOf(alias) == Some(sub)
    ensures ParseCommandLine([PROGRAM, alias] + tail).Ok? <==> QuickCommandOf(sub, tail).Ok?
    ensures QuickCommandOf(sub, tail).Ok? ==>
            ParseCommandLine([PROGRAM, alias] + tail).value ==
            DEFAULT_CLI.(quick := Some(QuickCommandOf(sub, tail).value.0),
                         outputFile := QuickCommandOf(sub, tail).value.1)
  {
    var words := [PROGRAM, alias] + tail;
    assert words[1..][0] == alias && words[1..][1..] == tail;
  }

  lemma {:induction false} SubArgumentsFromTokens(sub: Subcommand, st: SubState, tokens: seq<string>)
    requires SubArguments(sub, st, tokens).Ok?
    ensures forall a | a in SubArguments(sub, st, tokens).value.arguments :: a in st.arguments || a in tokens
    decreases |tokens|
  {
    if tokens != [] {
      SubArgumentsFromTokens(sub, st.(arguments := st.arguments + [tokens[0]]), tokens[1..]);
    }
  }

  /** Every argument of a quick command is one of its tokens. */
  lemma {:induction false} ArgumentsAreTokens(sub: Subcommand, st: SubState, tokens: seq<string>)
    requires SubParse(sub, st, tokens).Ok?
    ensures forall a | a in SubParse(sub, st, tokens).value.arguments :: a in st.arguments || a in tokens
    decreases |tokens|
  {
    if tokens != [] {
      var token, rest := tokens[0], tokens[1..];
      if token == "--" {
        SubArgumentsFromTokens(sub, st, rest);
      } else if token == "-o" || token == "--output" {
        ArgumentsAreTokens(sub, SubOutput(st, rest[0]).value, rest[1..]);
      } else if IsHyphenated(token) {
        if token == "--kill" && sub == PortCommand {
          ArgumentsAreTokens(sub, st.(kill := true), rest);
        } else if token[1] == 'o' {
          ArgumentsAreTokens(sub, SubOutput(st, if token[2] == '=' then token[3..] else token[2..]).value, rest);
        } else {
          ArgumentsAreTokens(sub, SubOutput(st, token[9..]).value, rest);
        }
      } else {
        ArgumentsAreTokens(sub, st.(arguments := st.arguments + [token]), rest);
      }
    }
  }

  // ---------- Commands with one argument ----------

  predicate TakesOne(sub: Subcommand) {
    sub in {PingCommand, DiskCommand, NsCommand, WhoisCommand}
  }

  function OneArgument(sub: Subcommand, argument: string): QuickCommand
    requires TakesOne(sub)
  {
    match sub
    case PingCommand => Ping(argument)
    case DiskCommand => Disk(argument)
    case NsCommand => Ns(argument)
    case WhoisCommand => Whois(argument)
  }

  lemma ParseOneToken(sub: Subcommand, argument: string)
    requires TakesOne(sub)
    ensures !IsHyphenated(argument) ==> QuickCommandOf(sub, [argument]) == Ok((OneArgument(sub, argument), None))
    ensures IsHyphenated(argument) && SubParse(sub, FRESH, [argument]).Ok? ==>
            SubParse(sub, FRESH, [argument]).value.arguments == []
  {
    assert [argument][1..] == [];
    if !IsHyphenated(argument) {
      assert [] + [argument] == [argument];
      assert SubParse(sub, FRESH, [argument]) == SubParse(sub, FRESH.(arguments := [argument]), []);
    }
  }

  lemma OneArgumentComesBack(alias: string, sub: Subcommand, argument: string)
    requires IsPlainWord(alias) && SubcommandOf(alias) == Some(sub) && TakesOne(sub)
    requires IsReplayableArgument(argument)
    ensures Replay(PROGRAM + (" " + alias) + (" " + argument)) == Ok(QuickRequest(OneArgument(sub, argument)))
  {
    SplitAfterFirst(alias, argument);
    RunEnding([PROGRAM, alias], argument);
    ParseQuick(alias, sub, [argument]);
    ParseOneToken(sub, argument);
  }

  lemma OnlyReplayableArgumentComesBack(alias: string, sub: Subcommand, argument: string)
    requires IsPlainWord(alias) && SubcommandOf(alias) == Some(sub) && TakesOne(sub)
    requires SaysAgain(PROGRAM + (" " + alias) + (" " + argument), OneArgument(sub, argument))
    ensures IsReplayableArgument(argument)
  {
    hide IsPlainWord, IsPlainEnding, Run, SubParse, ParseCommandLine;
    var line, words := PROGRAM + (" " + alias) + (" " + argument), [PROGRAM, alias];
    if sub == DiskCommand && argument == "." {
      assert IsPlainEnding(".") by {
        DotIsPlain();
      }
      return;
    }
    SplitAfterFirst(alias, argument);
    var found := Split(line).value;
    RunExtends(Config(Delimiter, "", words), argument);
    assert words <= found && found == words + found[2..];
    ParseQuick(alias, sub, found[2..]);
    ArgumentsAreTokens(sub, FRESH, found[2..]);
    assert argument in found[2..];
    WordOfItself(words, found[2..], argument);
    RunEnding(words, argument);
    assert found[2..] == [argument];
    ParseOneToken(sub, argument);
  }

  lemma DotIsPlain()
    ensures IsPlainEnding(".")
  {
  }

  lemma OneArgumentExactly(alias: string, sub: Subcommand, argument: string)
    requires IsPlainWord(alias) && SubcommandOf(alias) == Some(sub) && TakesOne(sub)
    ensures var line, q := PROGRAM + (" " + alias) + (" " + argument), OneArgument(sub, argument);
            && (Replay(line) == Ok(QuickRequest(q)) <==> IsReplayableArgument(argument))
            && (SaysAgain(line, q) ==> IsReplayableArgument(argument))
  {
    hide IsPlainWord, IsPlainEnding, Replay;
    var line, q := PROGRAM + (" " + alias) + (" " + argument), OneArgument(sub, argument);
    if IsReplayableArgument(argument) {
      OneArgumentComesBack(alias, sub, argument);
    } else if Replay(line) == Ok(QuickRequest(q)) || SaysAgain(line, q) {
      OnlyReplayableArgumentComesBack(alias, sub, argument);
    }
  }

  // ---------- telnet ----------

  const TELNET := "t"

  lemma DigitsArePlain(n: nat)
    ensures IsPlainWord(Decimal.Print(n)) && IsPlainEnding(Decimal.Print(n)) && !IsHyphenated(Decimal.Print(n))
    ensures IsCalm(Decimal.Print(n))
  {
    var s := Decimal.Print(n);
    assert Decimal.IsDigit(s[0]);
  }

  lemma ParseTelnetTokens(host: string, service: U16)
    ensures !IsHyphenated(host) ==>
            QuickCommandOf(TelnetCommand, [host, Decimal.Print(service)]) == Ok((Telnet(host, service), None))
    ensures IsHyphenated(host) ==> QuickCommandOf(TelnetCommand, [host, Decimal.Print(service)]).Err?
  {
    var s := Decimal.Print(service);
    var tokens := [host, s];
    DigitsArePlain(service);
    assert tokens[1..] == [s] && [s][1..] == [];
    if !IsHyphenated(host) {
      assert [] + [host] == [host] && [host] + [s] == tokens;
      assert SubParse(TelnetCommand, FRESH, tokens) == SubParse(TelnetCommand, FRESH.(arguments := [host]), [s]);
      assert SubParse(TelnetCommand, FRESH.(arguments := [host]), [s]) ==
             SubParse(TelnetCommand, FRESH.(arguments := tokens), []);
      Decimal.ParseOfPrint(service);
    } else if SubParse(TelnetCommand, FRESH, tokens).Ok? {
      TelnetNeedsTwo(host, s);
    }
  }

  lemma TelnetNeedsTwo(host: string, s: string)
    requires IsHyphenated(host) && !IsHyphenated(s)
    requires SubParse(TelnetCommand, FRESH, [host, s]).Ok?
    ensures |SubParse(TelnetCommand, FRESH, [host, s]).value.arguments| < 2
  {
    var tokens := [host, s];
    assert tokens[1..] == [s] && [s][1..] == [];
    if host == "--" {
      assert SubArguments(TelnetCommand, FRESH, [s]) == SubArguments(TelnetCommand, FRESH.(arguments := [] + [s]), []);
    } else if host == "-o" || host == "--output" {
      assert SubParse(TelnetCommand, FRESH, tokens) == SubParse(TelnetCommand, SubOutput(FRESH, s).value, []);
    } else {
      var output := if host[1] == 'o' then (if host[2] == '=' then host[3..] else host[2..]) else host[9..];
      var st' := SubOutput(FRESH, output).value;
      assert SubParse(TelnetCommand, FRESH, tokens) == SubParse(TelnetCommand, st', [s]);
      assert SubParse(TelnetCommand, st', [s]) == SubParse(TelnetCommand, st'.(arguments := [] + [s]), []);
    }
  }

  lemma TelnetComesBack(host: string, service: U16)
    requires IsPlainWord(host) && !IsHyphenated(host)
    ensures Replay(PROGRAM + (" " + TELNET) + (" " + (host + " " + Decimal.Print(service)))) ==
            Ok(QuickRequest(Telnet(host, service)))
  {
    var words, s := [PROGRAM, TELNET], Decimal.Print(service);
    TelnetAliasIsPlain();
    DigitsArePlain(service);
    SplitAfterFirst(TELNET, host + " " + s);
    BareWordExactly(words, host, s);
    RunEnding(words + [host], s);
    assert words + [host] + [s] == words + [host, s];
    ParseQuick(TELNET, TelnetCommand, [host, s]);
    ParseTelnetTokens(host, service);
  }

  lemma OnlyPlainHostComesBack(host: string, service: U16)
    requires SaysAgain(PROGRAM + (" " + TELNET) + (" " + (host + " " + Decimal.Print(service))), Telnet(host, service))
    ensures IsPlainWord(host) && !IsHyphenated(host)
  {
    hide IsPlainWord, IsPlainEnding, IsCalm;
    var words, s := [PROGRAM, TELNET], Decimal.Print(service);
    var line := PROGRAM + (" " + TELNET) + (" " + (host + " " + s));
    TelnetAliasIsPlain();
    DigitsArePlain(service);
    SplitAfterFirst(TELNET, host + " " + s);
    var found := Split(line).value;
    RunExtends(Config(Delimiter, "", words), host + " " + s);
    assert words <= found && found == words + found[2..];
    ParseQuick(TELNET, TelnetCommand, found[2..]);
    ArgumentsAreTokens(TelnetCommand, FRESH, found[2..]);
    assert host in found[2..];
    BareWordExactly(words, host, s);
    RunEnding(words + [host], s);
    assert words + [host] + [s] == words + [host, s];
    assert found[2..] == [host, s];
    ParseTelnetTokens(host, service);
  }

  lemma TelnetAliasIsPlain()
    ensures IsPlainWord(TELNET) && SubcommandOf(TELNET) == Some(TelnetCommand)
  {
  }

  // ---------- port ----------

  const PORT := "port"
  const KILL := "--kill"

  lemma PortWordsArePlain()
    ensures IsPlainWord(PORT) && SubcommandOf(PORT) == Some(PortCommand) && IsPlainEnding(KILL) && IsCalm(KILL)
  {
  }

  lemma PortAloneComesBack()
    ensures Replay(PROGRAM + (" " + PORT)) == Ok(QuickRequest(Port(None, false)))
  {
    PortWordsArePlain();
    RunFirst(PORT);
    assert [PROGRAM] + [PORT] == [PROGRAM, PORT] + [];
    ParseQuick(PORT, PortCommand, []);
  }

  lemma PortComesBack(p: U16)
    ensures Replay(PROGRAM + (" " + PORT) + (" " + Decimal.Print(p))) == Ok(QuickRequest(Port(Some(p), false)))
  {
    var words, s := [PROGRAM, PORT], Decimal.Print(p);
    PortWordsArePlain();
    DigitsArePlain(p);
    SplitAfterFirst(PORT, s);
    RunEnding(words, s);
    ParseQuick(PORT, PortCommand, [s]);
    ParsePortToken(s);
    Decimal.ParseOfPrint(p);
  }

  lemma ParsePortToken(s: string)
    requires !IsHyphenated(s)
    ensures SubParse(PortCommand, FRESH, [s]) == Ok(FRESH.(arguments := [s]))
    ensures SubParse(PortCommand, FRESH, [s, KILL]) == Ok(FRESH.(arguments := [s], kill := true))
  {
    var one := FRESH.(arguments := [s]);
    assert [] + [s] == [s] && [s][1..] == [] && [s, KILL][1..] == [KILL] && [KILL][1..] == [];
    assert SubParse(PortCommand, FRESH, [s]) == SubParse(PortCommand, one, []);
    assert SubParse(PortCommand, FRESH, [s, KILL]) == SubParse(PortCommand, one, [KILL]);
    assert SubParse(PortCommand, one, [KILL]) == SubParse(PortCommand, one.(kill := true), []);
  }

  lemma PortKillComesBack(p: U16)
    ensures Replay(PROGRAM + (" " + PORT) + (" " + (Decimal.Print(p) + " " + KILL))) ==
            Ok(QuickRequest(Port(Some(p), true)))
  {
    hide IsPlainWord, IsPlainEnding, IsCalm, SubParse, Run, Finish, SubcommandOf, ParseCommandLine;
    var words, s := [PROGRAM, PORT], Decimal.Print(p);
    PortWordsArePlain();
    DigitsArePlain(p);
    SplitAfterFirst(PORT, s + " " + KILL);
    BareWordExactly(words, s, KILL);
    RunEnding(words + [s], KILL);
    assert words + [s] + [KILL] == words + [s, KILL];
    ParseQuick(PORT, PortCommand, [s, KILL]);
    ParsePortToken(s);
    Decimal.ParseOfPrint(p);
  }

  // ---------- All quick commands ----------

  lemma AliasesArePlain()
    ensures IsPlainWord("p") && IsPlainWord("d") && IsPlainWord("ns") && IsPlainWord("w")
  {
  }

  lemma AliasLine(alias: string, text: string)
    ensures PROGRAM + (" " + alias + " " + text) == PROGRAM + (" " + alias) + (" " + text)
  {
    assert " " + alias + " " + text == " " + alias + (" " + text);
  }

  /** The printed line as program name, alias and arguments. */
  lemma QuickLine(q: QuickCommand)
    ensures q.Ping? ==> PROGRAM + QuickText(q) == PROGRAM + (" " + "p") + (" " + q.target)
    ensures q.Disk? ==> PROGRAM + QuickText(q) == PROGRAM + (" " + "d") + (" " + q.path)
    ensures q.Ns? ==> PROGRAM + QuickText(q) == PROGRAM + (" " + "ns") + (" " + q.domain)
    ensures q.Whois? ==> PROGRAM + QuickText(q) == PROGRAM + (" " + "w") + (" " + q.query)
    ensures q.Telnet? ==>
            PROGRAM + QuickText(q) == PROGRAM + (" " + TELNET) + (" " + (q.host + " " + Decimal.Print(q.service)))
  {
    match q
    case Ping(target) =>
      assert " p " == " " + "p" + " ";
      AliasLine("p", target);
    case Disk(path) =>
      assert " d " == " " + "d" + " ";
      AliasLine("d", path);
    case Ns(domain) =>
      assert " ns " == " " + "ns" + " ";
      AliasLine("ns", domain);
    case Whois(query) =>
      assert " w " == " " + "w" + " ";
      AliasLine("w", query);
    case Telnet(host, service) =>
      var s := Decimal.Print(service);
      assert " t " == " " + TELNET + " ";
      AliasLine(TELNET, host + " " + s);
      assert " t " + host + " " + s == " " + TELNET + " " + (host + " " + s);
    case Port(_, _) =>
  }

  lemma PortLine(p: U16)
    ensures PROGRAM + QuickText(Port(Some(p), false)) == PROGRAM + (" " + PORT) + (" " + Decimal.Print(p))
    ensures PROGRAM + QuickText(Port(Some(p), true)) == PROGRAM + (" " + PORT) + (" " + (Decimal.Print(p) + " " + KILL))
  {
    var s := Decimal.Print(p);
    assert " port " == " " + PORT + " ";
    AliasLine(PORT, s);
    AliasLine(PORT, s + " " + KILL);
    assert " port " + s + "" == " port " + s;
    assert " --kill" == " " + KILL;
    assert " port " + s + " --kill" == " " + PORT + " " + (s + " " + KILL);
  }

  /** A printed quick command is replayed as that command, stripped of everything not printed, if
      and only if its bare arguments can stand without quotes; otherwise the line does not even give
      the same command together with other options. */
  lemma QuickRoundTripExactly(c: Cli)
    requires c.quick.Some?
    ensures Replay(CommandText(c)) == Ok(QuickRequest(c.quick.value)) <==> QuickIsReplayable(c.quick.value)
    ensures SaysAgain(CommandText(c), c.quick.value) ==> QuickIsReplayable(c.quick.value)
  {
    hide IsPlainWord, IsPlainEnding, Replay;
    var q := c.quick.value;
    AliasesArePlain();
    QuickLine(q);
    match q
    case Ping(target) => OneArgumentExactly("p", PingCommand, target);
    case Disk(path) => OneArgumentExactly("d", DiskCommand, path);
    case Ns(domain) => OneArgumentExactly("ns", NsCommand, domain);
    case Whois(query) => OneArgumentExactly("w", WhoisCommand, query);
    case Telnet(host, service) =>
      if QuickIsReplayable(q) {
        TelnetComesBack(host, service);
      } else if Replay(CommandText(c)) == Ok(QuickRequest(q)) || SaysAgain(CommandText(c), q) {
        OnlyPlainHostComesBack(host, service);
      }
    case Port(None, _) =>
      assert " port" == " " + PORT;
      PortAloneComesBack();
    case Port(Some(p), kill) =>
      PortLine(p);
      if kill {
        PortKillComesBack(p);
      } else {
        PortComesBack(p);
      }
  }
}
