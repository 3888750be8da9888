/** The command line as data: the request record, the quick commands, and the spellings that
    the argument declarations give to every option. */
module CommandLine {
  import opened Outcomes

  type U8 = n: nat | n < 0x100
  type U16 = n: nat | n < 0x1_0000

  datatype QuickCommand =
    | Ping(target: string)
    | Disk(path: string)
    | Telnet(host: string, service: U16)
    | Ns(domain: string)
    | Whois(query: string)
    | Port(port: Option<U16>, kill: bool)

  /** The switches that are either on or off. */
  datatype Flag =
    | Insecure | Head | Http2 | Http2PriorKnowledge | NoProxy | Time
    | TlsInfo | CertInfo | TlsInfoJson | CertInfoJson

  /** The request record; its ten boolean fields are kept as the set of those that are on. */
  datatype Cli = Cli(
    url: Option<string>,
    requestMethod: Option<string>,
    body: Option<string>,
    forms: seq<string>,
    headers: seq<string>,
    certificatePath: Option<string>,
    authority: Option<string>,
    userAgent: Option<string>,
    cookie: Option<string>,
    referer: Option<string>,
    outputFile: Option<string>,
    uploadFile: Option<string>,
    quote: Option<string>,
    range: Option<string>,
    verbosity: U8,
    flags: set<Flag>,
    quick: Option<QuickCommand>)

  const DEFAULT_CLI := Cli(
    None, None, None, [], [], None, None, None, None, None, None, None, None, None, 0, {}, None)

  /** Options that take a value, in the order the printer writes them. */
  datatype ValueOption =
    | Request | Data | Form | Header | CertificatePath | User | UserAgent | Cookie | Referer
    | Output | UploadFile | QuoteCommand | Range

  datatype Key = ValueKey(option: ValueOption) | FlagKey(flag: Flag) | VerboseKey | HelpOrVersion

  function LetterOf(o: ValueOption): char {
    match o
    case Request => 'X'
    case Data => 'd'
    case Form => 'F'
    case Header => 'H'
    case CertificatePath => 'c'
    case User => 'u'
    case UserAgent => 'A'
    case Cookie => 'b'
    case Referer => 'e'
    case Output => 'o'
    case UploadFile => 'T'
    case QuoteCommand => 'Q'
    case Range => 'r'
  }

  function KeyOfLetter(c: char): Option<Key> {
    match c
    case 'X' => Some(ValueKey(Request))
    case 'd' => Some(ValueKey(Data))
    case 'F' => Some(ValueKey(Form))
    case 'H' => Some(ValueKey(Header))
    case 'c' => Some(ValueKey(CertificatePath))
    case 'u' => Some(ValueKey(User))
    case 'A' => Some(ValueKey(UserAgent))
    case 'b' => Some(ValueKey(Cookie))
    case 'e' => Some(ValueKey(Referer))
    case 'o' => Some(ValueKey(Output))
    case 'T' => Some(ValueKey(UploadFile))
    case 'Q' => Some(ValueKey(QuoteCommand))
    case 'r' => Some(ValueKey(Range))
    case 'k' => Some(FlagKey(Insecure))
    case 'I' => Some(FlagKey(Head))
    case 'v' => Some(VerboseKey)
    case 'h' => Some(HelpOrVersion)
    case 'V' => Some(HelpOrVersion)
    case _ => None
  }

  function KeyOfName(name: string): Option<Key> {
    match name
    case "request" => Some(ValueKey(Request))
    case "data" => Some(ValueKey(Data))
    case "form" => Some(ValueKey(Form))
    case "header" => Some(ValueKey(Header))
    case "certificate-path-option" => Some(ValueKey(CertificatePath))
    case "user" => Some(ValueKey(User))
    case "user-agent" => Some(ValueKey(UserAgent))
    case "cookie" => Some(ValueKey(Cookie))
    case "referer" => Some(ValueKey(Referer))
    case "output" => Some(ValueKey(Output))
    case "upload-file" => Some(ValueKey(UploadFile))
    case "quote" => Some(ValueKey(QuoteCommand))
    case "range" => Some(ValueKey(Range))
    case "insecure" => Some(FlagKey(Insecure))
    case "head" => Some(FlagKey(Head))
    case "verbose" => Some(VerboseKey)
    case "http2" => Some(FlagKey(Http2))
    case "http2-prior-knowledge" => Some(FlagKey(Http2PriorKnowledge))
    case "noproxy" => Some(FlagKey(NoProxy))
    case "time" => Some(FlagKey(Time))
    case "tls-info" => Some(FlagKey(TlsInfo))
    case "cert-info" => Some(FlagKey(CertInfo))
    case "tls-info-json" => Some(FlagKey(TlsInfoJson))
    case "cert-info-json" => Some(FlagKey(CertInfoJson))
    case "help" => Some(HelpOrVersion)
    case "version" => Some(HelpOrVersion)
    case _ => None
  }

  /** The spelling the printer uses for a flag. */
  function FlagText(f: Flag): string {
    match f
    case Insecure => "-k"
    case Head => "-I"
    case Http2 => "--http2"
    case Http2PriorKnowledge => "--http2-prior-knowledge"
    case NoProxy => "--noproxy"
    case Time => "--time"
    case TlsInfo => "--tls-info"
    case CertInfo => "--cert-info"
    case TlsInfoJson => "--tls-info-json"
    case CertInfoJson => "--cert-info-json"
  }

  datatype Subcommand = PingCommand | DiskCommand | TelnetCommand | NsCommand | WhoisCommand | PortCommand | HelpCommand

  /** Names and aliases; `help` exists because there are subcommands. */
  function SubcommandOf(token: string): Option<Subcommand> {
    match token
    case "ping" => Some(PingCommand)
    case "p" => Some(PingCommand)
    case "disk" => Some(DiskCommand)
    case "d" => Some(DiskCommand)
    case "telnet" => Some(TelnetCommand)
    case "t" => Some(TelnetCommand)
    case "ns" => Some(NsCommand)
    case "whois" => Some(WhoisCommand)
    case "w" => Some(WhoisCommand)
    case "port" => Some(PortCommand)
    case "l" => Some(PortCommand)
    case "help" => Some(HelpCommand)
    case _ => None
  }

  /** A token the parser reads as options: a hyphen and something after it. */
  predicate IsHyphenated(token: string) {
    |token| >= 2 && token[0] == '-'
  }
}
