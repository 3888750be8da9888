/** The argument parser that the option declarations induce, as a machine over tokens: a request
    under construction, perhaps an option waiting for its value, and the `--` mark. */
module ArgParser {
  import opened Outcomes
  import opened CommandLine
  import Decimal
  import Text

  datatype ArgError =
    | MissingValue
    | Repeated
    | UnexpectedValue
    | UnknownArgument
    | InvalidNumber
    | MissingArgument
    | HelpRequested

  type Parsed<T> = Result<T, ArgError>

  // ---------- Where each option is kept ----------

  /** Options that may be given once; `-F` and `-H` accumulate. */
  predicate IsSingle(o: ValueOption) {
    o != Form && o != Header
  }

  function FieldOf(c: Cli, o: ValueOption): Option<string>
    requires IsSingle(o)
  {
    match o
    case Request => c.requestMethod
    case Data => c.body
    case CertificatePath => c.certificatePath
    case User => c.authority
    case UserAgent => c.userAgent
    case Cookie => c.cookie
    case Referer => c.referer
    case Output => c.outputFile
    case UploadFile => c.uploadFile
    case QuoteCommand => c.quote
    case Range => c.range
  }

  function WithField(c: Cli, o: ValueOption, v: Option<string>): Cli
    requires IsSingle(o)
  {
    match o
    case Request => c.(requestMethod := v)
    case Data => c.(body := v)
    case CertificatePath => c.(certificatePath := v)
    case User => c.(authority := v)
    case UserAgent => c.(userAgent := v)
    case Cookie => c.(cookie := v)
    case Referer => c.(referer := v)
    case Output => c.(outputFile := v)
    case UploadFile => c.(uploadFile := v)
    case QuoteCommand => c.(quote := v)
    case Range => c.(range := v)
  }

  /** A second value for a single option is an error. */
  function SetValue(c: Cli, o: ValueOption, v: string): Parsed<Cli> {
    if o == Form then Ok(c.(forms := c.forms + [v]))
    else if o == Header then Ok(c.(headers := c.headers + [v]))
    else if FieldOf(c, o).Some? then Err(Repeated)
    else Ok(WithField(c, o, Some(v)))
  }

  function SetFlag(c: Cli, f: Flag): Parsed<Cli> {
    if f in c.flags then Err(Repeated) else Ok(c.(flags := c.flags + {f}))
  }

  /** The counted switch saturates at the top of its byte. */
  function CountVerbose(c: Cli): Cli {
    c.(verbosity := if c.verbosity == 0xFF then 0xFF else c.verbosity + 1)
  }

  /** A request and the option, if any, whose value must be the next token. */
  datatype Progress = Progress(cli: Cli, pending: Option<ValueOption>)

  /** A cluster of one-letter options; a value may be attached to the last one. */
  function Cluster(c: Cli, letters: string): Parsed<Progress>
    decreases |letters|
  {
    if letters == "" then Ok(Progress(c, None))
    else
      match KeyOfLetter(letters[0])
      case None => Err(UnknownArgument)
      case Some(HelpOrVersion) => Err(HelpRequested)
      case Some(FlagKey(f)) =>
        var c' :- SetFlag(c, f);
        Cluster(c', letters[1..])
      case Some(VerboseKey) => Cluster(CountVerbose(c), letters[1..])
      case Some(ValueKey(o)) =>
        if |letters| == 1 then Ok(Progress(c, Some(o)))
        else
          var c' :- SetValue(c, o, if letters[1] == '=' then letters[2..] else letters[1..]);
          Ok(Progress(c', None))
  }

  /** A long option, with or without `=value`. */
  function LongOption(c: Cli, text: string): Parsed<Progress> {
    match KeyOfName(text)
    case Some(HelpOrVersion) => Err(HelpRequested)
    case Some(FlagKey(f)) => var c' :- SetFlag(c, f); Ok(Progress(c', None))
    case Some(VerboseKey) => Ok(Progress(CountVerbose(c), None))
    case Some(ValueKey(o)) => Ok(Progress(c, Some(o)))
    case None =>
      var n := Text.IndexOf(text, '=');
      if n == |text| then Err(UnknownArgument)
      else
        match KeyOfName(text[..n])
        case Some(ValueKey(o)) => var c' :- SetValue(c, o, text[n + 1..]); Ok(Progress(c', None))
        case Some(_) => Err(UnexpectedValue)
        case None => Err(UnknownArgument)
  }

  function OptionToken(c: Cli, token: string): Parsed<Progress>
    requires IsHyphenated(token)
  {
    if token[1] == '-' then LongOption(c, token[2..]) else Cluster(c, token[1..])
  }

  function Positional(c: Cli, token: string): Parsed<Cli> {
    if c.url.Some? then Err(UnknownArgument) else Ok(c.(url := Some(token)))
  }

  function Positionals(c: Cli, tokens: seq<string>): Parsed<Cli>
    decreases |tokens|
  {
    if tokens == [] then Ok(c)
    else
      var c' :- Positional(c, tokens[0]);
      Positionals(c', tokens[1..])
  }

  function Parse(st: Progress, tokens: seq<string>): Parsed<Cli>
    decreases |tokens|
  {
    if tokens == [] then
      if st.pending.Some? then Err(MissingValue) else Ok(st.cli)
    else
      var token, rest := tokens[0], tokens[1..];
      match st.pending
      case Some(o) =>
        if IsHyphenated(token) then Err(MissingValue)
        else
          var c :- SetValue(st.cli, o, token);
          Parse(Progress(c, None), rest)
      case None =>
        if SubcommandOf(token).Some? then
          var (quick, output) :- QuickCommandOf(SubcommandOf(token).value, rest);
          Ok(st.cli.(quick := Some(quick), outputFile := if output.Some? then output else st.cli.outputFile))
        else if token == "--" then Positionals(st.cli, rest)
        else if IsHyphenated(token) then
          var st' :- OptionToken(st.cli, token);
          Parse(st', rest)
        else
          var c :- Positional(st.cli, token);
          Parse(Progress(c, None), rest)
  }

  /** The program name is skipped, whatever it is. */
  function ParseCommandLine(words: seq<string>): Parsed<Cli> {
    if words == [] then Ok(DEFAULT_CLI) else Parse(Progress(DEFAULT_CLI, None), words[1..])
  }

  // ---------- Subcommands ----------

  /** What a subcommand has read: its positional arguments, `--kill`, and the global `-o`. */
  datatype SubState = SubState(arguments: seq<string>, kill: bool, output: Option<string>)

  function Capacity(sub: Subcommand): nat {
    if sub == TelnetCommand then 2 else 1
  }

  function SubArguments(sub: Subcommand, st: SubState, tokens: seq<string>): Parsed<SubState>
    decreases |tokens|
  {
    if tokens == [] then Ok(st)
    else if |st.arguments| >= Capacity(sub) then Err(UnknownArgument)
    else SubArguments(sub, st.(arguments := st.arguments + [tokens[0]]), tokens[1..])
  }

  function SubOutput(st: SubState, v: string): Parsed<SubState> {
    if st.output.Some? then Err(Repeated) else Ok(st.(output := Some(v)))
  }

  function SubParse(sub: Subcommand, st: SubState, tokens: seq<string>): Parsed<SubState>
    decreases |tokens|
  {
    if tokens == [] then Ok(st)
    else
      var token, rest := tokens[0], tokens[1..];
      if token == "--" then SubArguments(sub, st, rest)
      else if token == "-o" || token == "--output" then
        if rest == [] || IsHyphenated(rest[0]) then Err(MissingValue)
        else
          var st' :- SubOutput(st, rest[0]);
          SubParse(sub, st', rest[1..])
      else if IsHyphenated(token) then
        if token == "--kill" && sub == PortCommand then
          if st.kill then Err(Repeated) else SubParse(sub, st.(kill := true), rest)
        else if token == "-h" || token == "--help" then Err(HelpRequested)
        else if token[1] == 'o' then
          var st' :- SubOutput(st, if token[2] == '=' then token[3..] else token[2..]);
          SubParse(sub, st', rest)
        else if "--output=" <= token then
          var st' :- SubOutput(st, token[9..]);
          SubParse(sub, st', rest)
        else Err(UnknownArgument)
      else if |st.arguments| >= Capacity(sub) then Err(UnknownArgument)
      else SubParse(sub, st.(arguments := st.arguments + [token]), rest)
  }

  function NumberArgument(s: string): Parsed<U16> {
    match Decimal.ParseU16(s)
    case Some(n) => Ok(n)
    case None => Err(InvalidNumber)
  }

  function Assemble(sub: Subcommand, st: SubState): Parsed<QuickCommand> {
    var n := |st.arguments|;
    match sub
    case PingCommand => if n == 0 then Err(MissingArgument) else Ok(Ping(st.arguments[0]))
    case DiskCommand => Ok(Disk(if n == 0 then "." else st.arguments[0]))
    case TelnetCommand =>
      if n < 2 then Err(MissingArgument)
      else
        var p :- NumberArgument(st.arguments[1]);
        Ok(Telnet(st.arguments[0], p))
    case NsCommand => if n == 0 then Err(MissingArgument) else Ok(Ns(st.arguments[0]))
    case WhoisCommand => if n == 0 then Err(MissingArgument) else Ok(Whois(st.arguments[0]))
    case PortCommand =>
      if n == 0 then Ok(Port(None, st.kill))
      else
        var p :- NumberArgument(st.arguments[0]);
        Ok(Port(Some(p), st.kill))
    case HelpCommand => Err(HelpRequested)
  }

  function QuickCommandOf(sub: Subcommand, tokens: seq<string>): Parsed<(QuickCommand, Option<string>)> {
    if sub == HelpCommand then Err(HelpRequested)
    else
      var st :- SubParse(sub, SubState([], false, None), tokens);
      var quick :- Assemble(sub, st);
      Ok((quick, st.output))
  }
}
