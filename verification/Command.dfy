/** The printer: a request as the shell command line that history keeps. */
module Command {
  import opened Outcomes
  import opened CommandLine
  import opened ShellWords
  import Decimal

  /** One printed option. */
  datatype Arg = Valued(option: ValueOption, value: string) | Switched(flag: Flag) | Verbose

  /** Values are quoted, except the request method. */
  function ArgText(a: Arg): string {
    match a
    case Valued(o, v) => " " + ['-', LetterOf(o)] + " " + if o == Request then v else Quote(v)
    case Switched(f) => " " + FlagText(f)
    case Verbose => " -v"
  }

  function ArgsText(args: seq<Arg>): string {
    if args == [] then "" else ArgsText(args[..|args| - 1]) + ArgText(args[|args| - 1])
  }

  function Optional(o: ValueOption, field: Option<string>): seq<Arg> {
    match field
    case None => []
    case Some(v) => [Valued(o, v)]
  }

  function Each(o: ValueOption, values: seq<string>): seq<Arg> {
    seq(|values|, i requires 0 <= i < |values| => Valued(o, values[i]))
  }

  lemma NoEach(done: seq<Arg>, o: ValueOption)
    ensures done + Each(o, []) == done
  {
  }

  lemma EachSnoc(o: ValueOption, values: seq<string>, i: nat)
    requires i < |values|
    ensures Each(o, values[..i + 1]) == Each(o, values[..i]) + [Valued(o, values[i])]
  {
  }

  function When(f: Flag, flags: set<Flag>): seq<Arg> {
    if f in flags then [Switched(f)] else []
  }

  function Repeat(n: nat): seq<Arg> {
    seq(n, _ => Verbose)
  }

  // The options a request carries, in printing order, appended to those before them.

  function WithPayload(done: seq<Arg>, c: Cli): seq<Arg> {
    done + Optional(Request, c.requestMethod) + Optional(Data, c.body) + Each(Form, c.forms) + Each(Header, c.headers)
  }

  function WithIdentity(done: seq<Arg>, c: Cli): seq<Arg> {
    done + Optional(CertificatePath, c.certificatePath) + Optional(User, c.authority) +
    Optional(UserAgent, c.userAgent) + Optional(Cookie, c.cookie)
  }

  function WithFiles(done: seq<Arg>, c: Cli): seq<Arg> {
    done + Optional(Referer, c.referer) + Optional(Output, c.outputFile) +
    Optional(UploadFile, c.uploadFile) + Optional(QuoteCommand, c.quote)
  }

  function WithTransfer(done: seq<Arg>, c: Cli): seq<Arg> {
    done + When(Insecure, c.flags) + When(Head, c.flags) + Optional(Range, c.range) + Repeat(c.verbosity)
  }

  function WithProtocol(done: seq<Arg>, c: Cli): seq<Arg> {
    done + When(Http2, c.flags) + When(Http2PriorKnowledge, c.flags) + When(NoProxy, c.flags) + When(Time, c.flags)
  }

  function WithReports(done: seq<Arg>, c: Cli): seq<Arg> {
    done + When(TlsInfo, c.flags) + When(CertInfo, c.flags) + When(TlsInfoJson, c.flags) + When(CertInfoJson, c.flags)
  }

  function ArgsOf(c: Cli): seq<Arg> {
    var values := WithFiles(WithIdentity(WithPayload([], c), c), c);
    WithReports(WithProtocol(WithTransfer(values, c), c), c)
  }

  function UrlText(url: Option<string>): string {
    match url
    case None => ""
    case Some(u) => " " + u
  }

  /** Quick commands are printed by an alias and without quotes; a `--kill` without a port is
      not printed, nor is any other option. */
  function QuickText(q: QuickCommand): string {
    match q
    case Ping(target) => " p " + target
    case Disk(path) => " d " + path
    case Telnet(host, service) => " t " + host + " " + Decimal.Print(service)
    case Ns(domain) => " ns " + domain
    case Whois(query) => " w " + query
    case Port(Some(p), kill) => " port " + Decimal.Print(p) + if kill then " --kill" else ""
    case Port(None, _) => " port"
  }

  const PROGRAM := "rcurl"

  function CommandText(c: Cli): string {
    match c.quick
    case Some(q) => PROGRAM + QuickText(q)
    case None => PROGRAM + ArgsText(ArgsOf(c)) + UrlText(c.url)
  }

  lemma ArgsTextSnoc(args: seq<Arg>, a: Arg)
    ensures ArgsText(args + [a]) == ArgsText(args) + ArgText(a)
  {
    assert (args + [a])[..|args|] == args;
  }

  /** The command line under construction is the program name and the options written so far;
      each method below appends to it, `done` being the record of what is there already. */
  ghost predicate Spells(cmd: string, done: seq<Arg>) {
    cmd == PROGRAM + ArgsText(done)
  }

  lemma SpellsNothing()
    ensures Spells(PROGRAM, [])
  {
  }

  lemma SpellsAll(cmd: string, c: Cli)
    requires Spells(cmd, ArgsOf(c)) && c.quick.None?
    ensures cmd + UrlText(c.url) == CommandText(c)
  {
  }

  lemma SpellsSnoc(cmd: string, done: seq<Arg>, a: Arg)
    requires Spells(cmd, done)
    ensures Spells(cmd + ArgText(a), done + [a])
  {
    hide ArgText, ArgsText;
    ArgsTextSnoc(done, a);
    assert PROGRAM + (ArgsText(done) + ArgText(a)) == PROGRAM + ArgsText(done) + ArgText(a);
  }

  method PushValue(cmd: string, ghost done: seq<Arg>, o: ValueOption, field: Option<string>) returns (cmd': string)
    requires Spells(cmd, done)
    ensures Spells(cmd', done + Optional(o, field))
  {
    cmd' := cmd;
    assert done + [] == done;
    if field.Some? {
      cmd' := cmd' + (" " + ['-', LetterOf(o)] + " " + if o == Request then field.value else Quote(field.value));
      SpellsSnoc(cmd, done, Valued(o, field.value));
    }
  }

  method PushEach(cmd: string, ghost done: seq<Arg>, o: ValueOption, values: seq<string>) returns (cmd': string)
    requires Spells(cmd, done) && o != Request
    ensures Spells(cmd', done + Each(o, values))
  {
    hide Spells, Each, Quote;
    cmd' := cmd;
    NoEach(done, o);
    for i := 0 to |values|
      invariant Spells(cmd', done + Each(o, values[..i]))
    {
      EachSnoc(o, values, i);
      assert done + Each(o, values[..i + 1]) == done + Each(o, values[..i]) + [Valued(o, values[i])];
      SpellsSnoc(cmd', done + Each(o, values[..i]), Valued(o, values[i]));
      cmd' := cmd' + (" " + ['-', LetterOf(o)] + " " + Quote(values[i]));
    }
    assert values[..|values|] == values;
  }

  method PushFlag(cmd: string, ghost done: seq<Arg>, f: Flag, flags: set<Flag>) returns (cmd': string)
    requires Spells(cmd, done)
    ensures Spells(cmd', done + When(f, flags))
  {
    cmd' := cmd;
    assert done + [] == done;
    if f in flags {
      cmd' := cmd' + (" " + FlagText(f));
      SpellsSnoc(cmd, done, Switched(f));
    }
  }

  method PushVerbosity(cmd: string, ghost done: seq<Arg>, n: nat) returns (cmd': string)
    requires Spells(cmd, done)
    ensures Spells(cmd', done + Repeat(n))
  {
    hide Spells;
    cmd' := cmd;
    assert done + Repeat(0) == done;
    for i := 0 to n
      invariant Spells(cmd', done + Repeat(i))
    {
      SpellsSnoc(cmd', done + Repeat(i), Verbose);
      assert done + Repeat(i + 1) == done + Repeat(i) + [Verbose];
      cmd' := cmd' + " -v";
    }
  }

  method PushQuick(cmd: string, q: QuickCommand) returns (cmd': string)
    ensures cmd' == cmd + QuickText(q)
  {
    match q {
      case Ping(target) => cmd' := cmd + (" p " + target);
      case Disk(path) => cmd' := cmd + (" d " + path);
      case Telnet(host, service) => cmd' := cmd + (" t " + host + " " + Decimal.Print(service));
      case Ns(domain) => cmd' := cmd + (" ns " + domain);
      case Whois(query) => cmd' := cmd + (" w " + query);
      case Port(port, kill) =>
        if port.Some? {
          if kill {
            cmd' := cmd + (" port " + Decimal.Print(port.value) + " --kill");
          } else {
            cmd' := cmd + (" port " + Decimal.Print(port.value));
          }
        } else {
          cmd' := cmd + " port";
        }
    }
  }

  method PushUrl(cmd: string, url: Option<string>) returns (cmd': string)
    ensures cmd' == cmd + UrlText(url)
  {
    cmd' := cmd;
    if url.Some? {
      cmd' := cmd' + " ";
      cmd' := cmd' + url.value;
      assert cmd' == cmd + (" " + url.value);
    }
  }

  method PushPayload(cmd: string, ghost done: seq<Arg>, c: Cli) returns (cmd': string)
    requires Spells(cmd, done)
    ensures Spells(cmd', WithPayload(done, c))
  {
    hide Spells, Optional, Each, When, Repeat;
    cmd' := PushValue(cmd, done, Request, c.requestMethod);
    ghost var done1 := done + Optional(Request, c.requestMethod);
    cmd' := PushValue(cmd', done1, Data, c.body);
    ghost var done2 := done1 + Optional(Data, c.body);
    cmd' := PushEach(cmd', done2, Form, c.forms);
    ghost var done3 := done2 + Each(Form, c.forms);
    cmd' := PushEach(cmd', done3, Header, c.headers);
  }

  method PushIdentity(cmd: string, ghost done: seq<Arg>, c: Cli) returns (cmd': string)
    requires Spells(cmd, done)
    ensures Spells(cmd', WithIdentity(done, c))
  {
    hide Spells, Optional, Each, When, Repeat;
    cmd' := PushValue(cmd, done, CertificatePath, c.certificatePath);
    ghost var done1 := done + Optional(CertificatePath, c.certificatePath);
    cmd' := PushValue(cmd', done1, User, c.authority);
    ghost var done2 := done1 + Optional(User, c.authority);
    cmd' := PushValue(cmd', done2, UserAgent, c.userAgent);
    ghost var done3 := done2 + Optional(UserAgent, c.userAgent);
    cmd' := PushValue(cmd', done3, Cookie, c.cookie);
  }

  method PushFiles(cmd: string, ghost done: seq<Arg>, c: Cli) returns (cmd': string)
    requires Spells(cmd, done)
    ensures Spells(cmd', WithFiles(done, c))
  {
    hide Spells, Optional, Each, When, Repeat;
    cmd' := PushValue(cmd, done, Referer, c.referer);
    ghost var done1 := done + Optional(Referer, c.referer);
    cmd' := PushValue(cmd', done1, Output, c.outputFile);
    ghost var done2 := done1 + Optional(Output, c.outputFile);
    cmd' := PushValue(cmd', done2, UploadFile, c.uploadFile);
    ghost var done3 := done2 + Optional(UploadFile, c.uploadFile);
    cmd' := PushValue(cmd', done3, QuoteCommand, c.quote);
  }

  method PushTransfer(cmd: string, ghost done: seq<Arg>, c: Cli) returns (cmd': string)
    requires Spells(cmd, done)
    ensures Spells(cmd', WithTransfer(done, c))
  {
    hide Spells, Optional, Each, When, Repeat;
    cmd' := PushFlag(cmd, done, Insecure, c.flags);
    ghost var done1 := done + When(Insecure, c.flags);
    cmd' := PushFlag(cmd', done1, Head, c.flags);
    ghost var done2 := done1 + When(Head, c.flags);
    cmd' := PushValue(cmd', done2, Range, c.range);
    ghost var done3 := done2 + Optional(Range, c.range);
    cmd' := PushVerbosity(cmd', done3, c.verbosity);
  }

  method PushProtocol(cmd: string, ghost done: seq<Arg>, c: Cli) returns (cmd': string)
    requires Spells(cmd, done)
    ensures Spells(cmd', WithProtocol(done, c))
  {
    hide Spells, Optional, Each, When, Repeat;
    cmd' := PushFlag(cmd, done, Http2, c.flags);
    ghost var done1 := done + When(Http2, c.flags);
    cmd' := PushFlag(cmd', done1, Http2PriorKnowledge, c.flags);
    ghost var done2 := done1 + When(Http2PriorKnowledge, c.flags);
    cmd' := PushFlag(cmd', done2, NoProxy, c.flags);
    ghost var done3 := done2 + When(NoProxy, c.flags);
    cmd' := PushFlag(cmd', done3, Time, c.flags);
  }

  method PushReports(cmd: string, ghost done: seq<Arg>, c: Cli) returns (cmd': string)
    requires Spells(cmd, done)
    ensures Spells(cmd', WithReports(done, c))
  {
    hide Spells, Optional, Each, When, Repeat;
    cmd' := PushFlag(cmd, done, TlsInfo, c.flags);
    ghost var done1 := done + When(TlsInfo, c.flags);
    cmd' := PushFlag(cmd', done1, CertInfo, c.flags);
    ghost var done2 := done1 + When(CertInfo, c.flags);
    cmd' := PushFlag(cmd', done2, TlsInfoJson, c.flags);
    ghost var done3 := done2 + When(TlsInfoJson, c.flags);
    cmd' := PushFlag(cmd', done3, CertInfoJson, c.flags);
  }

  method CommandFromCli(c: Cli) returns (cmd: string)
    ensures cmd == CommandText(c)
  {
    cmd := PROGRAM;
    if c.quick.Some? {
      cmd := PushQuick(cmd, c.quick.value);
      return;
    }
    hide Spells, WithPayload, WithIdentity, WithFiles, WithTransfer, WithProtocol, WithReports;
    SpellsNothing();
    cmd := PushPayload(cmd, [], c);
    ghost var payload := WithPayload([], c);
    cmd := PushIdentity(cmd, payload, c);
    ghost var identity := WithIdentity(payload, c);
    cmd := PushFiles(cmd, identity, c);
    ghost var files := WithFiles(identity, c);
    cmd := PushTransfer(cmd, files, c);
    ghost var transfer := WithTransfer(files, c);
    cmd := PushProtocol(cmd, transfer, c);
    ghost var protocol := WithProtocol(transfer, c);
    cmd := PushReports(cmd, protocol, c);
    SpellsAll(cmd, c);
    cmd := PushUrl(cmd, c.url);
  }
}
