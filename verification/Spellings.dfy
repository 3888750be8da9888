/** The command line word by word: what each spelling sets, what is refused, and what a request is
    printed as. */
module Spellings {
  import opened Outcomes
  import opened CommandLine
  import opened ShellWords
  import opened ArgParser
  import opened Command
  import opened PrintedOptions
  import opened RoundTrip
  import opened MethodReplay
  import opened QuickReplay
  import opened LostRequests
  import Decimal

  /** No URL, no quick command, nothing given. */
  lemma NothingGiven()
    ensures ParseCommandLine(["rcurl"]) == Ok(
              Cli(None, None, None, [], [], None, None, None, None, None, None, None, None, None, 0, {}, None))
  {
    assert ["rcurl"][1..] == [];
  }

  // ---------- Values ----------

  /** A value may be any word but one of at least two characters that starts with a hyphen. */
  predicate IsValue(v: string) {
    !(|v| >= 2 && v[0] == '-')
  }

  lemma ValueFollows(token: string, o: ValueOption, v: string)
    requires IsHyphenated(token) && token != "--" && SubcommandOf(token).None?
    requires OptionToken(DEFAULT_CLI, token) == Ok(Progress(DEFAULT_CLI, Some(o)))
    ensures ParseCommandLine(["rcurl", token, v]) ==
            if IsValue(v) then SetValue(DEFAULT_CLI, o, v) else Err(MissingValue)
    ensures ParseCommandLine(["rcurl", token]) == Err(MissingValue)
  {
    hide SetValue, OptionToken, SubcommandOf;
    var st := Progress(DEFAULT_CLI, None);
    assert ["rcurl", token, v][1..] == [token, v] && [token, v][1..] == [v] && [v][1..] == [];
    assert ["rcurl", token][1..] == [token] && [token][1..] == [];
    assert Parse(st, [token, v]) == Parse(Progress(DEFAULT_CLI, Some(o)), [v]);
    assert Parse(st, [token]) == Parse(Progress(DEFAULT_CLI, Some(o)), []);
    if IsValue(v) && SetValue(DEFAULT_CLI, o, v).Ok? {
      assert Parse(Progress(DEFAULT_CLI, Some(o)), [v]) == Parse(Progress(SetValue(DEFAULT_CLI, o, v).value, None), []);
    }
  }

  lemma ShortGives(o: ValueOption, v: string)
    requires IsValue(v)
    ensures ParseCommandLine(["rcurl", ['-', LetterOf(o)], v]) == SetValue(DEFAULT_CLI, o, v)
  {
    hide SetValue, LetterOf, OptionToken, ParseCommandLine;
    ValueTokenParses(DEFAULT_CLI, o);
    ValueFollows(['-', LetterOf(o)], o, v);
  }

  lemma LongGives(name: string, o: ValueOption, v: string)
    requires IsValue(v) && KeyOfName(name) == Some(ValueKey(o))
    ensures ParseCommandLine(["rcurl", "--" + name, v]) == SetValue(DEFAULT_CLI, o, v)
  {
    var token := "--" + name;
    NameIsNotEmpty(name);
    assert token[2..] == name && token[0] == '-' && token[1] == '-';
    HyphenatedIsNoCommand(token);
    hide SetValue, KeyOfName, ParseCommandLine;
    assert OptionToken(DEFAULT_CLI, token) == LongOption(DEFAULT_CLI, name);
    ValueFollows(token, o, v);
  }

  lemma NameIsNotEmpty(name: string)
    requires KeyOfName(name).Some?
    ensures name != ""
  {
  }

  lemma LettersOfOptions()
    ensures ['-', LetterOf(Request)] == "-X" && ['-', LetterOf(Data)] == "-d"
    ensures ['-', LetterOf(Form)] == "-F" && ['-', LetterOf(Header)] == "-H"
    ensures ['-', LetterOf(CertificatePath)] == "-c" && ['-', LetterOf(User)] == "-u"
    ensures ['-', LetterOf(UserAgent)] == "-A" && ['-', LetterOf(Cookie)] == "-b"
    ensures ['-', LetterOf(Referer)] == "-e" && ['-', LetterOf(Output)] == "-o"
    ensures ['-', LetterOf(UploadFile)] == "-T" && ['-', LetterOf(QuoteCommand)] == "-Q"
    ensures ['-', LetterOf(Range)] == "-r"
  {
  }

  lemma SetValues(v: string)
    ensures SetValue(DEFAULT_CLI, Request, v) == Ok(DEFAULT_CLI.(requestMethod := Some(v)))
    ensures SetValue(DEFAULT_CLI, Data, v) == Ok(DEFAULT_CLI.(body := Some(v)))
    ensures SetValue(DEFAULT_CLI, Form, v) == Ok(DEFAULT_CLI.(forms := [v]))
    ensures SetValue(DEFAULT_CLI, Header, v) == Ok(DEFAULT_CLI.(headers := [v]))
    ensures SetValue(DEFAULT_CLI, CertificatePath, v) == Ok(DEFAULT_CLI.(certificatePath := Some(v)))
    ensures SetValue(DEFAULT_CLI, User, v) == Ok(DEFAULT_CLI.(authority := Some(v)))
    ensures SetValue(DEFAULT_CLI, UserAgent, v) == Ok(DEFAULT_CLI.(userAgent := Some(v)))
  {
    assert [] + [v] == [v];
  }

  lemma SetMoreValues(v: string)
    ensures SetValue(DEFAULT_CLI, Cookie, v) == Ok(DEFAULT_CLI.(cookie := Some(v)))
    ensures SetValue(DEFAULT_CLI, Referer, v) == Ok(DEFAULT_CLI.(referer := Some(v)))
    ensures SetValue(DEFAULT_CLI, Output, v) == Ok(DEFAULT_CLI.(outputFile := Some(v)))
    ensures SetValue(DEFAULT_CLI, UploadFile, v) == Ok(DEFAULT_CLI.(uploadFile := Some(v)))
    ensures SetValue(DEFAULT_CLI, QuoteCommand, v) == Ok(DEFAULT_CLI.(quote := Some(v)))
    ensures SetValue(DEFAULT_CLI, Range, v) == Ok(DEFAULT_CLI.(range := Some(v)))
  {
  }

  /** The thirteen one-letter options that take a value, and the field each sets. */
  lemma ShortOptions(v: string)
    requires IsValue(v)
    ensures ParseCommandLine(["rcurl", "-X", v]) == Ok(DEFAULT_CLI.(requestMethod := Some(v)))
    ensures ParseCommandLine(["rcurl", "-d", v]) == Ok(DEFAULT_CLI.(body := Some(v)))
    ensures ParseCommandLine(["rcurl", "-F", v]) == Ok(DEFAULT_CLI.(forms := [v]))
    ensures ParseCommandLine(["rcurl", "-H", v]) == Ok(DEFAULT_CLI.(headers := [v]))
    ensures ParseCommandLine(["rcurl", "-c", v]) == Ok(DEFAULT_CLI.(certificatePath := Some(v)))
    ensures ParseCommandLine(["rcurl", "-u", v]) == Ok(DEFAULT_CLI.(authority := Some(v)))
    ensures ParseCommandLine(["rcurl", "-A", v]) == Ok(DEFAULT_CLI.(userAgent := Some(v)))
    ensures ParseCommandLine(["rcurl", "-b", v]) == Ok(DEFAULT_CLI.(cookie := Some(v)))
    ensures ParseCommandLine(["rcurl", "-e", v]) == Ok(DEFAULT_CLI.(referer := Some(v)))
    ensures ParseCommandLine(["rcurl", "-o", v]) == Ok(DEFAULT_CLI.(outputFile := Some(v)))
    ensures ParseCommandLine(["rcurl", "-T", v]) == Ok(DEFAULT_CLI.(uploadFile := Some(v)))
    ensures ParseCommandLine(["rcurl", "-Q", v]) == Ok(DEFAULT_CLI.(quote := Some(v)))
    ensures ParseCommandLine(["rcurl", "-r", v]) == Ok(DEFAULT_CLI.(range := Some(v)))
  {
    LettersOfOptions();
    SetValues(v);
    SetMoreValues(v);
    hide LetterOf, ParseCommandLine, SetValue;
    forall o: ValueOption
      ensures ParseCommandLine(["rcurl", ['-', LetterOf(o)], v]) == SetValue(DEFAULT_CLI, o, v)
    {
      ShortGives(o, v);
    }
  }

  lemma LongNames()
    ensures KeyOfName("request") == Some(ValueKey(Request)) && KeyOfName("data") == Some(ValueKey(Data))
    ensures KeyOfName("form") == Some(ValueKey(Form)) && KeyOfName("header") == Some(ValueKey(Header))
    ensures KeyOfName("certificate-path-option") == Some(ValueKey(CertificatePath))
    ensures KeyOfName("user") == Some(ValueKey(User)) && KeyOfName("user-agent") == Some(ValueKey(UserAgent))
  {
  }

  lemma MoreLongNames()
    ensures KeyOfName("cookie") == Some(ValueKey(Cookie)) && KeyOfName("referer") == Some(ValueKey(Referer))
    ensures KeyOfName("output") == Some(ValueKey(Output)) && KeyOfName("upload-file") == Some(ValueKey(UploadFile))
    ensures KeyOfName("quote") == Some(ValueKey(QuoteCommand)) && KeyOfName("range") == Some(ValueKey(Range))
  {
  }

  /** Their long names. */
  lemma LongOptions(v: string)
    requires IsValue(v)
    ensures ParseCommandLine(["rcurl", "--" + "request", v]) == Ok(DEFAULT_CLI.(requestMethod := Some(v)))
    ensures ParseCommandLine(["rcurl", "--" + "data", v]) == Ok(DEFAULT_CLI.(body := Some(v)))
    ensures ParseCommandLine(["rcurl", "--" + "form", v]) == Ok(DEFAULT_CLI.(forms := [v]))
    ensures ParseCommandLine(["rcurl", "--" + "header", v]) == Ok(DEFAULT_CLI.(headers := [v]))
    ensures ParseCommandLine(["rcurl", "--" + "certificate-path-option", v]) ==
            Ok(DEFAULT_CLI.(certificatePath := Some(v)))
    ensures ParseCommandLine(["rcurl", "--" + "user", v]) == Ok(DEFAULT_CLI.(authority := Some(v)))
    ensures ParseCommandLine(["rcurl", "--" + "user-agent", v]) == Ok(DEFAULT_CLI.(userAgent := Some(v)))
  {
    LongNames();
    SetValues(v);
    hide KeyOfName, ParseCommandLine, SetValue;
    LongGives("request", Request, v);
    LongGives("data", Data, v);
    LongGives("form", Form, v);
    LongGives("header", Header, v);
    LongGives("certificate-path-option", CertificatePath, v);
    LongGives("user", User, v);
    LongGives("user-agent", UserAgent, v);
  }

  lemma MoreLongOptions(v: string)
    requires IsValue(v)
    ensures ParseCommandLine(["rcurl", "--" + "cookie", v]) == Ok(DEFAULT_CLI.(cookie := Some(v)))
    ensures ParseCommandLine(["rcurl", "--" + "referer", v]) == Ok(DEFAULT_CLI.(referer := Some(v)))
    ensures ParseCommandLine(["rcurl", "--" + "output", v]) == Ok(DEFAULT_CLI.(outputFile := Some(v)))
    ensures ParseCommandLine(["rcurl", "--" + "upload-file", v]) == Ok(DEFAULT_CLI.(uploadFile := Some(v)))
    ensures ParseCommandLine(["rcurl", "--" + "quote", v]) == Ok(DEFAULT_CLI.(quote := Some(v)))
    ensures ParseCommandLine(["rcurl", "--" + "range", v]) == Ok(DEFAULT_CLI.(range := Some(v)))
  {
    MoreLongNames();
    SetMoreValues(v);
    hide KeyOfName, ParseCommandLine, SetValue;
    LongGives("cookie", Cookie, v);
    LongGives("referer", Referer, v);
    LongGives("output", Output, v);
    LongGives("upload-file", UploadFile, v);
    LongGives("quote", QuoteCommand, v);
    LongGives("range", Range, v);
  }

  /** An option whose value is missing or looks like an option is an error. */
  lemma MissingValues(o: ValueOption, v: string)
    requires |v| >= 2 && v[0] == '-'
    ensures ParseCommandLine(["rcurl", ['-', LetterOf(o)], v]) == Err(MissingValue)
    ensures ParseCommandLine(["rcurl", ['-', LetterOf(o)]]) == Err(MissingValue)
  {
    hide LetterOf, OptionToken, ParseCommandLine;
    ValueTokenParses(DEFAULT_CLI, o);
    ValueFollows(['-', LetterOf(o)], o, v);
  }

  /** Given twice, `-F` and `-H` accumulate in order; any other option is an error. */
  lemma GivenTwice(o: ValueOption, v: string, w: string)
    requires IsValue(v) && IsValue(w)
    ensures var r := ParseCommandLine(["rcurl", ['-', LetterOf(o)], v, ['-', LetterOf(o)], w]);
            if o == Form then r == Ok(DEFAULT_CLI.(forms := [v, w]))
            else if o == Header then r == Ok(DEFAULT_CLI.(headers := [v, w]))
            else r == Err(Repeated)
  {
    var name := ['-', LetterOf(o)];
    var first := SetValue(DEFAULT_CLI, o, v).value;
    assert SetValue(first, o, w) ==
           if o == Form then Ok(DEFAULT_CLI.(forms := [v, w]))
           else if o == Header then Ok(DEFAULT_CLI.(headers := [v, w]))
           else Err(Repeated) by {
      assert [] + [v] == [v] && [v] + [w] == [v, w];
    }
    hide LetterOf, OptionToken, SetValue, Parse;
    assert ["rcurl", name, v, name, w][1..] == ArgTokens(Valued(o, v)) + (ArgTokens(Valued(o, w)) + []);
    ParseArg(DEFAULT_CLI, Valued(o, v), ArgTokens(Valued(o, w)) + []);
    ParseArg(first, Valued(o, w), []);
    AtTheEnd();
  }

  lemma AtTheEnd()
    ensures forall c :: Parse(Progress(c, None), []) == Ok(c)
  {
  }

  // ---------- Switches ----------

  lemma SwitchGives(token: string, f: Flag)
    requires IsHyphenated(token) && token != "--" && SubcommandOf(token).None?
    requires OptionToken(DEFAULT_CLI, token) == Ok(Progress(DEFAULT_CLI.(flags := {f}), None))
    ensures ParseCommandLine(["rcurl", token]) == Ok(DEFAULT_CLI.(flags := {f}))
  {
    hide OptionToken, SubcommandOf;
    assert ["rcurl", token][1..] == [token] && [token][1..] == [];
    assert Parse(Progress(DEFAULT_CLI, None), [token]) == Parse(Progress(DEFAULT_CLI.(flags := {f}), None), []);
  }

  lemma PrintedSwitch(f: Flag)
    ensures ParseCommandLine(["rcurl", FlagText(f)]) == Ok(DEFAULT_CLI.(flags := {f}))
  {
    FlagTextIsHyphenated(f);
    HyphenatedIsNoCommand(FlagText(f));
    FlagTokenParses(DEFAULT_CLI, f);
    hide FlagText, ParseCommandLine, OptionToken;
    assert {} + {f} == {f};
    SwitchGives(FlagText(f), f);
  }

  /** The ten switches, the first two with a long name as well. */
  lemma Switches()
    ensures ParseCommandLine(["rcurl", "-k"]) == Ok(DEFAULT_CLI.(flags := {Insecure}))
    ensures ParseCommandLine(["rcurl", "-I"]) == Ok(DEFAULT_CLI.(flags := {Head}))
    ensures ParseCommandLine(["rcurl", "--http2"]) == Ok(DEFAULT_CLI.(flags := {Http2}))
    ensures ParseCommandLine(["rcurl", "--http2-prior-knowledge"]) == Ok(DEFAULT_CLI.(flags := {Http2PriorKnowledge}))
    ensures ParseCommandLine(["rcurl", "--noproxy"]) == Ok(DEFAULT_CLI.(flags := {NoProxy}))
    ensures ParseCommandLine(["rcurl", "--time"]) == Ok(DEFAULT_CLI.(flags := {Time}))
    ensures ParseCommandLine(["rcurl", "--tls-info"]) == Ok(DEFAULT_CLI.(flags := {TlsInfo}))
    ensures ParseCommandLine(["rcurl", "--cert-info"]) == Ok(DEFAULT_CLI.(flags := {CertInfo}))
    ensures ParseCommandLine(["rcurl", "--tls-info-json"]) == Ok(DEFAULT_CLI.(flags := {TlsInfoJson}))
    ensures ParseCommandLine(["rcurl", "--cert-info-json"]) == Ok(DEFAULT_CLI.(flags := {CertInfoJson}))
    ensures ParseCommandLine(["rcurl", "--" + "insecure"]) == Ok(DEFAULT_CLI.(flags := {Insecure}))
    ensures ParseCommandLine(["rcurl", "--" + "head"]) == Ok(DEFAULT_CLI.(flags := {Head}))
  {
    SwitchTexts();
    hide ParseCommandLine, FlagText;
    forall f: Flag
      ensures ParseCommandLine(["rcurl", FlagText(f)]) == Ok(DEFAULT_CLI.(flags := {f}))
    {
      PrintedSwitch(f);
    }
    LongSwitch("insecure", Insecure);
    LongSwitch("head", Head);
  }

  lemma SwitchTexts()
    ensures FlagText(Insecure) == "-k" && FlagText(Head) == "-I" && FlagText(Http2) == "--http2"
    ensures FlagText(Http2PriorKnowledge) == "--http2-prior-knowledge" && FlagText(NoProxy) == "--noproxy"
    ensures FlagText(Time) == "--time" && FlagText(TlsInfo) == "--tls-info" && FlagText(CertInfo) == "--cert-info"
    ensures FlagText(TlsInfoJson) == "--tls-info-json" && FlagText(CertInfoJson) == "--cert-info-json"
    ensures KeyOfName("insecure") == Some(FlagKey(Insecure)) && KeyOfName("head") == Some(FlagKey(Head))
  {
  }

  lemma LongSwitch(name: string, f: Flag)
    requires KeyOfName(name) == Some(FlagKey(f))
    ensures ParseCommandLine(["rcurl", "--" + name]) == Ok(DEFAULT_CLI.(flags := {f}))
  {
    var token := "--" + name;
    NameIsNotEmpty(name);
    assert token[2..] == name && token[0] == '-' && token[1] == '-';
    HyphenatedIsNoCommand(token);
    hide KeyOfName, ParseCommandLine;
    assert {} + {f} == {f};
    assert OptionToken(DEFAULT_CLI, token) == LongOption(DEFAULT_CLI, name);
    SwitchGives(token, f);
  }

  /** A switch given twice is an error. */
  lemma SwitchedTwice(f: Flag)
    ensures ParseCommandLine(["rcurl", FlagText(f), FlagText(f)]) == Err(Repeated)
  {
    var once := DEFAULT_CLI.(flags := {} + {f});
    var text := FlagText(f);
    hide FlagText, Parse;
    assert ["rcurl", text, text][1..] == ArgTokens(Switched(f)) + (ArgTokens(Switched(f)) + []);
    ParseArg(DEFAULT_CLI, Switched(f), ArgTokens(Switched(f)) + []);
    ParseArg(once, Switched(f), []);
  }

  function Times(n: nat, s: string): seq<string> {
    seq(n, _ => s)
  }

  lemma {:induction false} VerboseFrom(c: Cli, n: nat)
    ensures Parse(Progress(c, None), Times(n, "-v")) ==
            Ok(c.(verbosity := if c.verbosity + n <= 255 then c.verbosity + n else 255))
    decreases n
  {
    if n > 0 {
      assert Times(n, "-v") == ["-v"] + Times(n - 1, "-v");
      assert ArgTokens(Verbose) == ["-v"];
      ParseArg(c, Verbose, Times(n - 1, "-v"));
      VerboseFrom(CountVerbose(c), n - 1);
    } else {
      assert Times(0, "-v") == [];
    }
  }

  /** `-v` is counted up to 255. */
  lemma VerboseCounts(n: nat)
    ensures ParseCommandLine(["rcurl"] + Times(n, "-v")) == Ok(DEFAULT_CLI.(verbosity := if n <= 255 then n else 255))
  {
    assert (["rcurl"] + Times(n, "-v"))[1..] == Times(n, "-v");
    VerboseFrom(DEFAULT_CLI, n);
  }

  function Letters(n: nat, c: char): string {
    seq(n, _ => c)
  }

  lemma {:induction false} ClusterCounts(c: Cli, n: nat)
    ensures Cluster(c, Letters(n, 'v')) ==
            Ok(Progress(c.(verbosity := if c.verbosity + n <= 255 then c.verbosity + n else 255), None))
    decreases n
  {
    if n > 0 {
      assert Letters(n, 'v')[0] == 'v' && Letters(n, 'v')[1..] == Letters(n - 1, 'v');
      ClusterCounts(CountVerbose(c), n - 1);
    } else {
      assert Letters(0, 'v') == "";
    }
  }

  /** `-vv` counts like two of them, and so on. */
  lemma VerboseTogether(n: nat)
    requires n > 0
    ensures ParseCommandLine(["rcurl", "-" + Letters(n, 'v')]) ==
            Ok(DEFAULT_CLI.(verbosity := if n <= 255 then n else 255))
  {
    var token := "-" + Letters(n, 'v');
    assert token[1..] == Letters(n, 'v') && token[1] == 'v';
    HyphenatedIsNoCommand(token);
    ClusterCounts(DEFAULT_CLI, n);
    hide Cluster, Letters, SubcommandOf;
    assert ["rcurl", token][1..] == [token] && [token][1..] == [];
    var c := DEFAULT_CLI.(verbosity := if n <= 255 then n else 255);
    assert OptionToken(DEFAULT_CLI, token) == Ok(Progress(c, None));
    assert Parse(Progress(DEFAULT_CLI, None), [token]) == Parse(Progress(c, None), []);
  }

  // ---------- The URL ----------

  lemma CommandNames(token: string)
    ensures SubcommandOf(token).Some? <==>
            token in ["ping", "p", "disk", "d", "telnet", "t", "ns", "whois", "w", "port", "l", "help"]
  {
  }

  /** A lone word that is no option and none of the twelve command names is the URL; behind `--`, any
      word is; two are an error. */
  lemma UrlExactly(u: string, v: string)
    ensures IsValue(u) && u !in ["ping", "p", "disk", "d", "telnet", "t", "ns", "whois", "w", "port", "l", "help"] ==>
              ParseCommandLine(["rcurl", u]) == Ok(DEFAULT_CLI.(url := Some(u)))
    ensures ParseCommandLine(["rcurl", "--", u]) == Ok(DEFAULT_CLI.(url := Some(u)))
    ensures ParseCommandLine(["rcurl", "--", u, v]) == Err(UnknownArgument)
  {
    CommandNames(u);
    assert ["rcurl", u][1..] == [u];
    LoneToken(DEFAULT_CLI, u);
    assert ["rcurl", "--", u][1..] == ["--", u];
    ParseEnteredUrl(DEFAULT_CLI, Some(u));
    assert ["rcurl", "--", u, v][1..] == ["--", u, v] && ["--", u, v][1..] == [u, v] && [u, v][1..] == [v];
    hide SubcommandOf;
    HyphenatedIsNoCommand("--");
    assert Positionals(DEFAULT_CLI, [u, v]) == Positionals(DEFAULT_CLI.(url := Some(u)), [v]);
  }

  // ---------- Quick commands ----------

  lemma QuickGives(alias: string, sub: Subcommand, tail: seq<string>, q: QuickCommand)
    requires SubcommandOf(alias) == Some(sub) && QuickCommandOf(sub, tail) == Ok((q, None))
    ensures ParseCommandLine(["rcurl", alias] + tail) == Ok(DEFAULT_CLI.(quick := Some(q)))
  {
    hide SubcommandOf, QuickCommandOf;
    ParseQuick(alias, sub, tail);
  }

  /** The names of the quick commands with one argument; a missing path means the current directory. */
  lemma OneArgumentCommands(x: string)
    requires IsValue(x)
    ensures ParseCommandLine(["rcurl", "ping"] + [x]) == Ok(DEFAULT_CLI.(quick := Some(Ping(x))))
    ensures ParseCommandLine(["rcurl", "p"] + [x]) == Ok(DEFAULT_CLI.(quick := Some(Ping(x))))
    ensures ParseCommandLine(["rcurl", "disk"] + [x]) == Ok(DEFAULT_CLI.(quick := Some(Disk(x))))
    ensures ParseCommandLine(["rcurl", "d"] + [x]) == Ok(DEFAULT_CLI.(quick := Some(Disk(x))))
    ensures ParseCommandLine(["rcurl", "ns"] + [x]) == Ok(DEFAULT_CLI.(quick := Some(Ns(x))))
    ensures ParseCommandLine(["rcurl", "whois"] + [x]) == Ok(DEFAULT_CLI.(quick := Some(Whois(x))))
    ensures ParseCommandLine(["rcurl", "w"] + [x]) == Ok(DEFAULT_CLI.(quick := Some(Whois(x))))
    ensures ParseCommandLine(["rcurl", "disk"] + []) == Ok(DEFAULT_CLI.(quick := Some(Disk("."))))
    ensures ParseCommandLine(["rcurl", "d"] + []) == Ok(DEFAULT_CLI.(quick := Some(Disk("."))))
  {
    hide ParseCommandLine, SubParse;
    ParseOneToken(PingCommand, x);
    ParseOneToken(DiskCommand, x);
    ParseOneToken(NsCommand, x);
    ParseOneToken(WhoisCommand, x);
    NoTokens(DiskCommand);
    hide QuickCommandOf;
    QuickGives("ping", PingCommand, [x], Ping(x));
    QuickGives("p", PingCommand, [x], Ping(x));
    QuickGives("disk", DiskCommand, [x], Disk(x));
    QuickGives("d", DiskCommand, [x], Disk(x));
    QuickGives("ns", NsCommand, [x], Ns(x));
    QuickGives("whois", WhoisCommand, [x], Whois(x));
    QuickGives("w", WhoisCommand, [x], Whois(x));
    QuickGives("disk", DiskCommand, [], Disk("."));
    QuickGives("d", DiskCommand, [], Disk("."));
  }

  lemma NoTokens(sub: Subcommand)
    ensures SubParse(sub, FRESH, []) == Ok(FRESH)
    ensures QuickCommandOf(DiskCommand, []) == Ok((Disk("."), None))
    ensures QuickCommandOf(PortCommand, []) == Ok((Port(None, false), None))
    ensures forall s | s in [PingCommand, NsCommand, WhoisCommand, TelnetCommand] ::
              QuickCommandOf(s, []) == Err(MissingArgument)
  {
  }

  /** Those with a port, printed in decimal, and what is missing or too much. */
  lemma PortCommands(host: string, n: U16)
    requires IsValue(host)
    ensures ParseCommandLine(["rcurl", "telnet"] + [host, Decimal.Print(n)]) ==
            Ok(DEFAULT_CLI.(quick := Some(Telnet(host, n))))
    ensures ParseCommandLine(["rcurl", "t"] + [host, Decimal.Print(n)]) ==
            Ok(DEFAULT_CLI.(quick := Some(Telnet(host, n))))
    ensures ParseCommandLine(["rcurl", "port"] + [Decimal.Print(n)]) ==
            Ok(DEFAULT_CLI.(quick := Some(Port(Some(n), false))))
    ensures ParseCommandLine(["rcurl", "l"] + [Decimal.Print(n)]) ==
            Ok(DEFAULT_CLI.(quick := Some(Port(Some(n), false))))
    ensures ParseCommandLine(["rcurl", "port"] + [Decimal.Print(n), "--kill"]) ==
            Ok(DEFAULT_CLI.(quick := Some(Port(Some(n), true))))
    ensures ParseCommandLine(["rcurl", "port"] + []) == Ok(DEFAULT_CLI.(quick := Some(Port(None, false))))
  {
    var s := Decimal.Print(n);
    DigitsArePlain(n);
    Decimal.ParseOfPrint(n);
    hide SubParse, ParseCommandLine, Decimal.ParseU16, Decimal.Print;
    ParseTelnetTokens(host, n);
    ParsePortToken(s);
    NoTokens(PortCommand);
    assert QuickCommandOf(PortCommand, [s]) == Ok((Port(Some(n), false), None));
    assert QuickCommandOf(PortCommand, [s, KILL]) == Ok((Port(Some(n), true), None));
    hide QuickCommandOf;
    QuickGives("telnet", TelnetCommand, [host, s], Telnet(host, n));
    QuickGives("t", TelnetCommand, [host, s], Telnet(host, n));
    QuickGives("port", PortCommand, [s], Port(Some(n), false));
    QuickGives("l", PortCommand, [s], Port(Some(n), false));
    QuickGives("port", PortCommand, [s, KILL], Port(Some(n), true));
    QuickGives("port", PortCommand, [], Port(None, false));
  }

  lemma QuickFails(alias: string, sub: Subcommand, tail: seq<string>, e: ArgError)
    requires SubcommandOf(alias) == Some(sub) && QuickCommandOf(sub, tail) == Err(e)
    ensures ParseCommandLine(["rcurl", alias] + tail) == Err(e)
  {
    hide SubcommandOf, QuickCommandOf;
    var words := ["rcurl", alias] + tail;
    assert words[1..][0] == alias && words[1..][1..] == tail;
  }

  /** A missing argument, one too many, and `help` are errors. */
  lemma QuickErrors(x: string, y: string)
    requires IsValue(x) && IsValue(y)
    ensures ParseCommandLine(["rcurl", "ping"] + []) == Err(MissingArgument)
    ensures ParseCommandLine(["rcurl", "ns"] + []) == Err(MissingArgument)
    ensures ParseCommandLine(["rcurl", "whois"] + []) == Err(MissingArgument)
    ensures ParseCommandLine(["rcurl", "telnet"] + [x]) == Err(MissingArgument)
    ensures ParseCommandLine(["rcurl", "ping"] + [x, y]) == Err(UnknownArgument)
    ensures ParseCommandLine(["rcurl", "help"] + []) == Err(HelpRequested)
  {
    NoTokens(PingCommand);
    TooFewOrMany(x, y);
    hide QuickCommandOf, ParseCommandLine;
    QuickFails("ping", PingCommand, [], MissingArgument);
    QuickFails("ns", NsCommand, [], MissingArgument);
    QuickFails("whois", WhoisCommand, [], MissingArgument);
    QuickFails("telnet", TelnetCommand, [x], MissingArgument);
    QuickFails("ping", PingCommand, [x, y], UnknownArgument);
    QuickFails("help", HelpCommand, [], HelpRequested);
  }

  lemma TooFewOrMany(x: string, y: string)
    requires IsValue(x) && IsValue(y)
    ensures QuickCommandOf(TelnetCommand, [x]) == Err(MissingArgument)
    ensures QuickCommandOf(PingCommand, [x, y]) == Err(UnknownArgument)
    ensures QuickCommandOf(HelpCommand, []) == Err(HelpRequested)
  {
    assert [x][1..] == [] && [x, y][1..] == [y] && [] + [x] == [x];
    assert SubParse(TelnetCommand, FRESH, [x]) == SubParse(TelnetCommand, FRESH.(arguments := [x]), []);
    assert SubParse(PingCommand, FRESH, [x, y]) == SubParse(PingCommand, FRESH.(arguments := [x]), [y]);
  }

  /** `-o` behind a quick command is kept with it. */
  lemma OutputOfQuick(x: string, file: string)
    requires IsValue(x) && IsValue(file)
    ensures ParseCommandLine(["rcurl", "ping"] + [x, "-o", file]) ==
            Ok(DEFAULT_CLI.(quick := Some(Ping(x)), outputFile := Some(file)))
  {
    var one := FRESH.(arguments := [x]);
    assert [x, "-o", file][1..] == ["-o", file] && ["-o", file][1..] == [file] && [file][1..] == [] && [] + [x] == [x];
    assert SubParse(PingCommand, FRESH, [x, "-o", file]) == SubParse(PingCommand, one, ["-o", file]);
    assert SubParse(PingCommand, one, ["-o", file]) == SubParse(PingCommand, one.(output := Some(file)), []);
    hide SubParse;
    ParseQuick("ping", PingCommand, [x, "-o", file]);
  }

  // ---------- The printed line ----------

  /** ` -F 'x' -F 'y'` and so on, in order. */
  function QuotedEach(option: string, values: seq<string>): string {
    if values == [] then ""
    else QuotedEach(option, values[..|values| - 1]) + (option + Quote(values[|values| - 1]))
  }

  function Copies(text: string, n: nat): string {
    if n == 0 then "" else Copies(text, n - 1) + text
  }

  lemma OneArgText(a: Arg)
    ensures ArgsText([a]) == ArgText(a)
  {
    hide ArgText;
    var none: seq<Arg> := [];
    assert none + [a] == [a];
    ArgsTextSnoc(none, a);
    assert "" + ArgText(a) == ArgText(a);
  }

  lemma ValuedText(o: ValueOption, v: string, option: string)
    requires option == " " + ['-', LetterOf(o)] + " "
    ensures ArgText(Valued(o, v)) == option + if o == Request then v else Quote(v)
  {
    hide LetterOf, Quote;
  }

  lemma OptionalText(o: ValueOption, field: Option<string>, option: string)
    requires option == " " + ['-', LetterOf(o)] + " "
    ensures ArgsText(Optional(o, field)) ==
            if field.None? then "" else option + if o == Request then field.value else Quote(field.value)
  {
    hide LetterOf, Quote, ArgText;
    if field.Some? {
      OneArgText(Valued(o, field.value));
      ValuedText(o, field.value, option);
    }
  }

  lemma WhenText(f: Flag, flags: set<Flag>)
    ensures ArgsText(When(f, flags)) == if f in flags then " " + FlagText(f) else ""
  {
    hide FlagText;
    if f in flags {
      OneArgText(Switched(f));
    }
  }

  lemma {:induction false} EachText(o: ValueOption, values: seq<string>, option: string)
    requires o != Request && option == " " + ['-', LetterOf(o)] + " "
    ensures ArgsText(Each(o, values)) == QuotedEach(option, values)
  {
    if values != [] {
      var n := |values| - 1;
      EachText(o, values[..n], option);
      EachSnoc(o, values, n);
      assert values[..n + 1] == values;
      hide Each, Quote, LetterOf, ArgText, ArgsText;
      ArgsTextSnoc(Each(o, values[..n]), Valued(o, values[n]));
      ValuedText(o, values[n], option);
    }
  }

  lemma RepeatSnoc(n: nat)
    ensures if n == 0 then Repeat(n) == [] else Repeat(n) == Repeat(n - 1) + [Verbose]
  {
  }

  lemma {:induction false} RepeatText(n: nat)
    ensures ArgsText(Repeat(n)) == Copies(" -v", n)
  {
    RepeatSnoc(n);
    if n > 0 {
      hide Repeat, ArgsText;
      RepeatText(n - 1);
      ArgsTextSnoc(Repeat(n - 1), Verbose);
    }
  }

  lemma FourTexts(done: seq<Arg>, a: seq<Arg>, b: seq<Arg>, c: seq<Arg>, d: seq<Arg>)
    ensures ArgsText(done + a + b + c + d) == ArgsText(done) + ArgsText(a) + ArgsText(b) + ArgsText(c) + ArgsText(d)
  {
    hide ArgsText;
    ArgsTextConcat(done, a);
    ArgsTextConcat(done + a, b);
    ArgsTextConcat(done + a + b, c);
    ArgsTextConcat(done + a + b + c, d);
  }

  function ValuesText(c: Cli): string {
    ArgsText(WithFiles(WithIdentity(WithPayload([], c), c), c))
  }

  lemma ValuesLine(c: Cli)
    ensures ValuesText(c) ==
            (if c.requestMethod.None? then "" else " -X " + c.requestMethod.value) +
            (if c.body.None? then "" else " -d " + Quote(c.body.value)) +
            QuotedEach(" -F ", c.forms) +
            QuotedEach(" -H ", c.headers) +
            (if c.certificatePath.None? then "" else " -c " + Quote(c.certificatePath.value)) +
            (if c.authority.None? then "" else " -u " + Quote(c.authority.value)) +
            (if c.userAgent.None? then "" else " -A " + Quote(c.userAgent.value)) +
            (if c.cookie.None? then "" else " -b " + Quote(c.cookie.value)) +
            (if c.referer.None? then "" else " -e " + Quote(c.referer.value)) +
            (if c.outputFile.None? then "" else " -o " + Quote(c.outputFile.value)) +
            (if c.uploadFile.None? then "" else " -T " + Quote(c.uploadFile.value)) +
            (if c.quote.None? then "" else " -Q " + Quote(c.quote.value))
  {
    hide ArgsText, Quote, QuotedEach, WithPayload, WithIdentity, WithFiles;
    PayloadText(c);
    IdentityText(WithPayload([], c), c);
    FilesText(WithIdentity(WithPayload([], c), c), c);
  }

  lemma OptionTexts()
    ensures " " + ['-', LetterOf(Request)] + " " == " -X " && " " + ['-', LetterOf(Data)] + " " == " -d "
    ensures " " + ['-', LetterOf(Form)] + " " == " -F " && " " + ['-', LetterOf(Header)] + " " == " -H "
    ensures " " + ['-', LetterOf(CertificatePath)] + " " == " -c " && " " + ['-', LetterOf(User)] + " " == " -u "
    ensures " " + ['-', LetterOf(UserAgent)] + " " == " -A " && " " + ['-', LetterOf(Cookie)] + " " == " -b "
    ensures " " + ['-', LetterOf(Referer)] + " " == " -e " && " " + ['-', LetterOf(Output)] + " " == " -o "
    ensures " " + ['-', LetterOf(UploadFile)] + " " == " -T " && " " + ['-', LetterOf(QuoteCommand)] + " " == " -Q "
    ensures " " + ['-', LetterOf(Range)] + " " == " -r "
  {
  }

  lemma PayloadText(c: Cli)
    ensures ArgsText(WithPayload([], c)) ==
            (if c.requestMethod.None? then "" else " -X " + c.requestMethod.value) +
            (if c.body.None? then "" else " -d " + Quote(c.body.value)) +
            QuotedEach(" -F ", c.forms) +
            QuotedEach(" -H ", c.headers)
  {
    OptionTexts();
    var none: seq<Arg> := [];
    assert ArgsText(none) == "";
    hide ArgsText, Quote, QuotedEach, Optional, Each, LetterOf;
    var first := if c.requestMethod.None? then "" else " -X " + c.requestMethod.value;
    assert "" + first == first;
    OptionalText(Request, c.requestMethod, " -X ");
    OptionalText(Data, c.body, " -d ");
    EachText(Form, c.forms, " -F ");
    EachText(Header, c.headers, " -H ");
    FourTexts(none, Optional(Request, c.requestMethod), Optional(Data, c.body), Each(Form, c.forms),
              Each(Header, c.headers));
  }

  lemma IdentityText(done: seq<Arg>, c: Cli)
    ensures ArgsText(WithIdentity(done, c)) ==
            ArgsText(done) +
            (if c.certificatePath.None? then "" else " -c " + Quote(c.certificatePath.value)) +
            (if c.authority.None? then "" else " -u " + Quote(c.authority.value)) +
            (if c.userAgent.None? then "" else " -A " + Quote(c.userAgent.value)) +
            (if c.cookie.None? then "" else " -b " + Quote(c.cookie.value))
  {
    OptionTexts();
    hide ArgsText, Quote, Optional, LetterOf;
    OptionalText(CertificatePath, c.certificatePath, " -c ");
    OptionalText(User, c.authority, " -u ");
    OptionalText(UserAgent, c.userAgent, " -A ");
    OptionalText(Cookie, c.cookie, " -b ");
    FourTexts(done, Optional(CertificatePath, c.certificatePath), Optional(User, c.authority),
              Optional(UserAgent, c.userAgent), Optional(Cookie, c.cookie));
  }

  lemma FilesText(done: seq<Arg>, c: Cli)
    ensures ArgsText(WithFiles(done, c)) ==
            ArgsText(done) +
            (if c.referer.None? then "" else " -e " + Quote(c.referer.value)) +
            (if c.outputFile.None? then "" else " -o " + Quote(c.outputFile.value)) +
            (if c.uploadFile.None? then "" else " -T " + Quote(c.uploadFile.value)) +
            (if c.quote.None? then "" else " -Q " + Quote(c.quote.value))
  {
    OptionTexts();
    hide ArgsText, Quote, Optional, LetterOf;
    OptionalText(Referer, c.referer, " -e ");
    OptionalText(Output, c.outputFile, " -o ");
    OptionalText(UploadFile, c.uploadFile, " -T ");
    OptionalText(QuoteCommand, c.quote, " -Q ");
    FourTexts(done, Optional(Referer, c.referer), Optional(Output, c.outputFile), Optional(UploadFile, c.uploadFile),
              Optional(QuoteCommand, c.quote));
  }

  lemma SwitchesLine(c: Cli)
    ensures ArgsText(ArgsOf(c)) ==
            ValuesText(c) +
            (if Insecure in c.flags then " -k" else "") +
            (if Head in c.flags then " -I" else "") +
            (if c.range.None? then "" else " -r " + Quote(c.range.value)) +
            Copies(" -v", c.verbosity) +
            (if Http2 in c.flags then " --http2" else "") +
            (if Http2PriorKnowledge in c.flags then " --http2-prior-knowledge" else "") +
            (if NoProxy in c.flags then " --noproxy" else "") +
            (if Time in c.flags then " --time" else "") +
            (if TlsInfo in c.flags then " --tls-info" else "") +
            (if CertInfo in c.flags then " --cert-info" else "") +
            (if TlsInfoJson in c.flags then " --tls-info-json" else "") +
            (if CertInfoJson in c.flags then " --cert-info-json" else "")
  {
    hide ArgsText, Quote, Copies, WithPayload, WithIdentity, WithFiles, WithTransfer, WithProtocol, WithReports;
    var values := WithFiles(WithIdentity(WithPayload([], c), c), c);
    TransferText(values, c);
    ProtocolText(WithTransfer(values, c), c);
    ReportsText(WithProtocol(WithTransfer(values, c), c), c);
  }

  lemma SwitchText(f: Flag, flags: set<Flag>, text: string)
    requires text == " " + FlagText(f)
    ensures ArgsText(When(f, flags)) == if f in flags then text else ""
  {
    WhenText(f, flags);
  }

  lemma TransferText(done: seq<Arg>, c: Cli)
    ensures ArgsText(WithTransfer(done, c)) ==
            ArgsText(done) +
            (if Insecure in c.flags then " -k" else "") +
            (if Head in c.flags then " -I" else "") +
            (if c.range.None? then "" else " -r " + Quote(c.range.value)) +
            Copies(" -v", c.verbosity)
  {
    OptionTexts();
    SwitchTexts();
    BlankAndSwitch();
    hide ArgsText, Quote, Copies, Optional, When, Repeat, LetterOf, FlagText;
    SwitchText(Insecure, c.flags, " -k");
    SwitchText(Head, c.flags, " -I");
    OptionalText(Range, c.range, " -r ");
    RepeatText(c.verbosity);
    FourTexts(done, When(Insecure, c.flags), When(Head, c.flags), Optional(Range, c.range), Repeat(c.verbosity));
  }

  lemma ProtocolText(done: seq<Arg>, c: Cli)
    ensures ArgsText(WithProtocol(done, c)) ==
            ArgsText(done) +
            (if Http2 in c.flags then " --http2" else "") +
            (if Http2PriorKnowledge in c.flags then " --http2-prior-knowledge" else "") +
            (if NoProxy in c.flags then " --noproxy" else "") +
            (if Time in c.flags then " --time" else "")
  {
    SwitchTexts();
    BlankAndSwitch();
    hide ArgsText, When, FlagText;
    SwitchText(Http2, c.flags, " --http2");
    SwitchText(Http2PriorKnowledge, c.flags, " --http2-prior-knowledge");
    SwitchText(NoProxy, c.flags, " --noproxy");
    SwitchText(Time, c.flags, " --time");
    FourTexts(done, When(Http2, c.flags), When(Http2PriorKnowledge, c.flags), When(NoProxy, c.flags),
              When(Time, c.flags));
  }

  lemma ReportsText(done: seq<Arg>, c: Cli)
    ensures ArgsText(WithReports(done, c)) ==
            ArgsText(done) +
            (if TlsInfo in c.flags then " --tls-info" else "") +
            (if CertInfo in c.flags then " --cert-info" else "") +
            (if TlsInfoJson in c.flags then " --tls-info-json" else "") +
            (if CertInfoJson in c.flags then " --cert-info-json" else "")
  {
    SwitchTexts();
    BlankAndSwitch();
    hide ArgsText, When, FlagText;
    SwitchText(TlsInfo, c.flags, " --tls-info");
    SwitchText(CertInfo, c.flags, " --cert-info");
    SwitchText(TlsInfoJson, c.flags, " --tls-info-json");
    SwitchText(CertInfoJson, c.flags, " --cert-info-json");
    FourTexts(done, When(TlsInfo, c.flags), When(CertInfo, c.flags), When(TlsInfoJson, c.flags),
              When(CertInfoJson, c.flags));
  }

  lemma BlankAndSwitch()
    ensures " " + "-k" == " -k" && " " + "-I" == " -I" && " " + "--http2" == " --http2"
    ensures " " + "--http2-prior-knowledge" == " --http2-prior-knowledge" && " " + "--noproxy" == " --noproxy"
    ensures " " + "--time" == " --time" && " " + "--tls-info" == " --tls-info"
    ensures " " + "--cert-info" == " --cert-info" && " " + "--tls-info-json" == " --tls-info-json"
    ensures " " + "--cert-info-json" == " --cert-info-json"
  {
  }

  /** A printed request, in full. */
  lemma PrintedLine(c: Cli)
    requires c.quick.None?
    ensures CommandText(c) ==
            "rcurl" +
            ((if c.requestMethod.None? then "" else " -X " + c.requestMethod.value) +
             (if c.body.None? then "" else " -d " + Quote(c.body.value)) +
             QuotedEach(" -F ", c.forms) +
             QuotedEach(" -H ", c.headers) +
             (if c.certificatePath.None? then "" else " -c " + Quote(c.certificatePath.value)) +
             (if c.authority.None? then "" else " -u " + Quote(c.authority.value)) +
             (if c.userAgent.None? then "" else " -A " + Quote(c.userAgent.value)) +
             (if c.cookie.None? then "" else " -b " + Quote(c.cookie.value)) +
             (if c.referer.None? then "" else " -e " + Quote(c.referer.value)) +
             (if c.outputFile.None? then "" else " -o " + Quote(c.outputFile.value)) +
             (if c.uploadFile.None? then "" else " -T " + Quote(c.uploadFile.value)) +
             (if c.quote.None? then "" else " -Q " + Quote(c.quote.value)) +
             (if Insecure in c.flags then " -k" else "") +
             (if Head in c.flags then " -I" else "") +
             (if c.range.None? then "" else " -r " + Quote(c.range.value)) +
             Copies(" -v", c.verbosity) +
             (if Http2 in c.flags then " --http2" else "") +
             (if Http2PriorKnowledge in c.flags then " --http2-prior-knowledge" else "") +
             (if NoProxy in c.flags then " --noproxy" else "") +
             (if Time in c.flags then " --time" else "") +
             (if TlsInfo in c.flags then " --tls-info" else "") +
             (if CertInfo in c.flags then " --cert-info" else "") +
             (if TlsInfoJson in c.flags then " --tls-info-json" else "") +
             (if CertInfoJson in c.flags then " --cert-info-json" else "")) +
            (if c.url.None? then "" else " " + c.url.value)
  {
    hide ArgsText, ArgsOf, Quote, QuotedEach, Copies, ValuesText;
    ValuesLine(c);
    SwitchesLine(c);
  }

  /** A printed quick command, in full. */
  lemma PrintedQuick(c: Cli)
    requires c.quick.Some?
    ensures c.quick.value.Ping? ==> CommandText(c) == "rcurl" + " p " + c.quick.value.target
    ensures c.quick.value.Disk? ==> CommandText(c) == "rcurl" + " d " + c.quick.value.path
    ensures c.quick.value.Telnet? ==>
              CommandText(c) == "rcurl" + " t " + c.quick.value.host + " " + Decimal.Print(c.quick.value.service)
    ensures c.quick.value.Ns? ==> CommandText(c) == "rcurl" + " ns " + c.quick.value.domain
    ensures c.quick.value.Whois? ==> CommandText(c) == "rcurl" + " w " + c.quick.value.query
    ensures c.quick.value.Port? && c.quick.value.port.None? ==> CommandText(c) == "rcurl" + " port"
    ensures c.quick.value.Port? && c.quick.value.port.Some? ==>
              CommandText(c) ==
              "rcurl" + " port " + Decimal.Print(c.quick.value.port.value) +
              if c.quick.value.kill then " --kill" else ""
  {
    hide Decimal.Print;
  }
}
