/** Replaying a printed command: split into words, then parsed back into a request. */
module RoundTrip {
  import opened Outcomes
  import opened CommandLine
  import opened ShellWords
  import opened ArgParser
  import opened Command
  import opened PrintedOptions

  datatype ReplayError = BadQuoting | BadArguments(error: ArgError)

  function Replay(line: string): Result<Cli, ReplayError> {
    match Split(line)
    case Err(_) => Err(BadQuoting)
    case Ok(words) =>
      match ParseCommandLine(words)
      case Err(e) => Err(BadArguments(e))
      case Ok(c) => Ok(c)
  }

  // ---------- Applying a request's own options rebuilds it ----------

  lemma {:induction false} ApplyConcat(c: Cli, a: seq<Arg>, b: seq<Arg>)
    requires ApplyAll(c, a).Ok?
    ensures ApplyAll(c, a + b) == ApplyAll(ApplyAll(c, a).value, b)
  {
    if b == [] {
      assert a + b == a;
    } else {
      var n := |b| - 1;
      assert (a + b)[..|a + b| - 1] == a + b[..n];
      ApplyConcat(c, a, b[..n]);
    }
  }

  lemma {:induction false} ApplyForms(c: Cli, values: seq<string>)
    ensures ApplyAll(c, Each(Form, values)) == Ok(c.(forms := c.forms + values))
  {
    if values == [] {
      assert c.forms + values == c.forms;
    } else {
      var n := |values| - 1;
      ApplyForms(c, values[..n]);
      EachSnoc(Form, values, n);
      assert values[..n + 1] == values;
      assert Each(Form, values)[..n] == Each(Form, values[..n]);
      assert c.forms + values == c.forms + values[..n] + [values[n]];
    }
  }

  lemma {:induction false} ApplyHeaders(c: Cli, values: seq<string>)
    ensures ApplyAll(c, Each(Header, values)) == Ok(c.(headers := c.headers + values))
  {
    if values == [] {
      assert c.headers + values == c.headers;
    } else {
      var n := |values| - 1;
      ApplyHeaders(c, values[..n]);
      EachSnoc(Header, values, n);
      assert values[..n + 1] == values;
      assert Each(Header, values)[..n] == Each(Header, values[..n]);
      assert c.headers + values == c.headers + values[..n] + [values[n]];
    }
  }

  lemma {:induction false} ApplyVerbose(c: Cli, n: nat)
    requires c.verbosity + n < 0x100
    ensures ApplyAll(c, Repeat(n)) == Ok(c.(verbosity := c.verbosity + n))
  {
    if n > 0 {
      ApplyVerbose(c, n - 1);
      assert Repeat(n)[..n - 1] == Repeat(n - 1);
    }
  }

  lemma ApplyOptional(c: Cli, o: ValueOption, field: Option<string>)
    ensures ApplyAll(c, Optional(o, field)) == if field.Some? then SetValue(c, o, field.value) else Ok(c)
  {
    if field.Some? {
      assert Optional(o, field)[..0] == [];
    }
  }

  lemma ApplyWhen(c: Cli, f: Flag, flags: set<Flag>)
    requires f !in c.flags
    ensures ApplyAll(c, When(f, flags)) == Ok(c.(flags := c.flags + flags * {f}))
  {
    if f in flags {
      assert When(f, flags)[..0] == [];
      assert flags * {f} == {f};
    } else {
      assert c.flags + flags * {f} == c.flags;
    }
  }

  /** These options, applied to the empty request, give this one. */
  ghost predicate Builds(args: seq<Arg>, c: Cli) {
    ApplyAll(DEFAULT_CLI, args) == Ok(c)
  }

  lemma BuildsNothing()
    ensures Builds([], DEFAULT_CLI)
  {
  }

  /** One more printed field. */
  lemma Extend(done: seq<Arg>, c: Cli, more: seq<Arg>, c': Cli)
    requires Builds(done, c) && ApplyAll(c, more) == Ok(c')
    ensures Builds(done + more, c')
  {
    ApplyConcat(DEFAULT_CLI, done, more);
  }

  lemma ExtendOptional(done: seq<Arg>, c: Cli, o: ValueOption, field: Option<string>)
    requires Builds(done, c)
    requires IsSingle(o) && FieldOf(c, o) == None
    ensures Builds(done + Optional(o, field), WithField(c, o, field))
  {
    ApplyOptional(c, o, field);
    Extend(done, c, Optional(o, field), WithField(c, o, field));
  }

  lemma ExtendWhen(done: seq<Arg>, c: Cli, f: Flag, flags: set<Flag>)
    requires Builds(done, c)
    requires f !in c.flags
    ensures Builds(done + When(f, flags), c.(flags := c.flags + flags * {f}))
  {
    ApplyWhen(c, f, flags);
    Extend(done, c, When(f, flags), c.(flags := c.flags + flags * {f}));
  }

  lemma ApplyPayload(done: seq<Arg>, p: Cli, c: Cli)
    requires Builds(done, p)
    requires p.requestMethod == None && p.body == None && p.forms == [] && p.headers == []
    ensures Builds(WithPayload(done, c),
                   p.(requestMethod := c.requestMethod, body := c.body, forms := c.forms, headers := c.headers))
  {
    hide Builds, Optional, When, Each, Repeat, ApplyAll;
    var p1 := p.(requestMethod := c.requestMethod);
    ExtendOptional(done, p, Request, c.requestMethod);
    var done1 := done + Optional(Request, c.requestMethod);
    var p2 := p1.(body := c.body);
    ExtendOptional(done1, p1, Data, c.body);
    var done2 := done1 + Optional(Data, c.body);
    var p3 := p2.(forms := c.forms);
    ApplyForms(p2, c.forms);
    assert [] + c.forms == c.forms;
    Extend(done2, p2, Each(Form, c.forms), p3);
    var done3 := done2 + Each(Form, c.forms);
    var p4 := p3.(headers := c.headers);
    ApplyHeaders(p3, c.headers);
    assert [] + c.headers == c.headers;
    Extend(done3, p3, Each(Header, c.headers), p4);
  }

  lemma ApplyIdentity(done: seq<Arg>, p: Cli, c: Cli)
    requires Builds(done, p)
    requires p.certificatePath == None && p.authority == None && p.userAgent == None && p.cookie == None
    ensures Builds(WithIdentity(done, c),
                   p.(certificatePath := c.certificatePath, authority := c.authority,
                      userAgent := c.userAgent, cookie := c.cookie))
  {
    hide Builds, Optional, When, Each, Repeat, ApplyAll;
    var p1 := p.(certificatePath := c.certificatePath);
    ExtendOptional(done, p, CertificatePath, c.certificatePath);
    var done1 := done + Optional(CertificatePath, c.certificatePath);
    var p2 := p1.(authority := c.authority);
    ExtendOptional(done1, p1, User, c.authority);
    var done2 := done1 + Optional(User, c.authority);
    var p3 := p2.(userAgent := c.userAgent);
    ExtendOptional(done2, p2, UserAgent, c.userAgent);
    var done3 := done2 + Optional(UserAgent, c.userAgent);
    var p4 := p3.(cookie := c.cookie);
    ExtendOptional(done3, p3, Cookie, c.cookie);
  }

  lemma ApplyFiles(done: seq<Arg>, p: Cli, c: Cli)
    requires Builds(done, p)
    requires p.referer == None && p.outputFile == None && p.uploadFile == None && p.quote == None
    ensures Builds(WithFiles(done, c),
                   p.(referer := c.referer, outputFile := c.outputFile, uploadFile := c.uploadFile, quote := c.quote))
  {
    hide Builds, Optional, When, Each, Repeat, ApplyAll;
    var p1 := p.(referer := c.referer);
    ExtendOptional(done, p, Referer, c.referer);
    var done1 := done + Optional(Referer, c.referer);
    var p2 := p1.(outputFile := c.outputFile);
    ExtendOptional(done1, p1, Output, c.outputFile);
    var done2 := done1 + Optional(Output, c.outputFile);
    var p3 := p2.(uploadFile := c.uploadFile);
    ExtendOptional(done2, p2, UploadFile, c.uploadFile);
    var done3 := done2 + Optional(UploadFile, c.uploadFile);
    var p4 := p3.(quote := c.quote);
    ExtendOptional(done3, p3, QuoteCommand, c.quote);
  }

  lemma ApplyTransfer(done: seq<Arg>, p: Cli, c: Cli)
    requires Builds(done, p)
    requires p.range == None && p.verbosity == 0 && p.flags !! {Insecure, Head}
    ensures Builds(WithTransfer(done, c),
                   p.(range := c.range, verbosity := c.verbosity, flags := p.flags + c.flags * {Insecure, Head}))
  {
    hide Builds, Optional, When, Each, Repeat, ApplyAll;
    var p1 := p.(flags := p.flags + c.flags * {Insecure});
    ExtendWhen(done, p, Insecure, c.flags);
    var done1 := done + When(Insecure, c.flags);
    var p2 := p1.(flags := p1.flags + c.flags * {Head});
    ExtendWhen(done1, p1, Head, c.flags);
    var done2 := done1 + When(Head, c.flags);
    var p3 := p2.(range := c.range);
    ExtendOptional(done2, p2, Range, c.range);
    var done3 := done2 + Optional(Range, c.range);
    var p4 := p3.(verbosity := c.verbosity);
    ApplyVerbose(p3, c.verbosity);
    Extend(done3, p3, Repeat(c.verbosity), p4);
    assert p4.flags == p.flags + c.flags * {Insecure, Head};
  }

  lemma ApplyProtocol(done: seq<Arg>, p: Cli, c: Cli)
    requires Builds(done, p)
    requires p.flags !! {Http2, Http2PriorKnowledge, NoProxy, Time}
    ensures Builds(WithProtocol(done, c),
                   p.(flags := p.flags + c.flags * {Http2, Http2PriorKnowledge, NoProxy, Time}))
  {
    hide Builds, Optional, When, Each, Repeat, ApplyAll;
    var p1 := p.(flags := p.flags + c.flags * {Http2});
    ExtendWhen(done, p, Http2, c.flags);
    var done1 := done + When(Http2, c.flags);
    var p2 := p1.(flags := p1.flags + c.flags * {Http2PriorKnowledge});
    ExtendWhen(done1, p1, Http2PriorKnowledge, c.flags);
    var done2 := done1 + When(Http2PriorKnowledge, c.flags);
    var p3 := p2.(flags := p2.flags + c.flags * {NoProxy});
    ExtendWhen(done2, p2, NoProxy, c.flags);
    var done3 := done2 + When(NoProxy, c.flags);
    var p4 := p3.(flags := p3.flags + c.flags * {Time});
    ExtendWhen(done3, p3, Time, c.flags);
    assert p4.flags == p.flags + c.flags * {Http2, Http2PriorKnowledge, NoProxy, Time};
  }

  lemma ApplyReports(done: seq<Arg>, p: Cli, c: Cli)
    requires Builds(done, p)
    requires p.flags !! {TlsInfo, CertInfo, TlsInfoJson, CertInfoJson}
    ensures Builds(WithReports(done, c),
                   p.(flags := p.flags + c.flags * {TlsInfo, CertInfo, TlsInfoJson, CertInfoJson}))
  {
    hide Builds, Optional, When, Each, Repeat, ApplyAll;
    var p1 := p.(flags := p.flags + c.flags * {TlsInfo});
    ExtendWhen(done, p, TlsInfo, c.flags);
    var done1 := done + When(TlsInfo, c.flags);
    var p2 := p1.(flags := p1.flags + c.flags * {CertInfo});
    ExtendWhen(done1, p1, CertInfo, c.flags);
    var done2 := done1 + When(CertInfo, c.flags);
    var p3 := p2.(flags := p2.flags + c.flags * {TlsInfoJson});
    ExtendWhen(done2, p2, TlsInfoJson, c.flags);
    var done3 := done2 + When(TlsInfoJson, c.flags);
    var p4 := p3.(flags := p3.flags + c.flags * {CertInfoJson});
    ExtendWhen(done3, p3, CertInfoJson, c.flags);
    assert p4.flags == p.flags + c.flags * {TlsInfo, CertInfo, TlsInfoJson, CertInfoJson};
  }

  lemma FlagsOf(flags: set<Flag>)
    ensures flags == {} + flags * {Insecure, Head} + flags * {Http2, Http2PriorKnowledge, NoProxy, Time}
                     + flags * {TlsInfo, CertInfo, TlsInfoJson, CertInfoJson}
  {
    forall f | f in flags
      ensures f in {Insecure, Head} + {Http2, Http2PriorKnowledge, NoProxy, Time}
                   + {TlsInfo, CertInfo, TlsInfoJson, CertInfoJson}
    {
      match f
      case Insecure => case Head => case Http2 => case Http2PriorKnowledge => case NoProxy =>
      case Time => case TlsInfo => case CertInfo => case TlsInfoJson => case CertInfoJson =>
    }
  }

  /** Every printed field comes back, in value and in order. */
  lemma RebuildsOptions(c: Cli)
    ensures Builds(ArgsOf(c), c.(url := None, quick := None))
  {
    hide Builds, ApplyAll, WithPayload, WithIdentity, WithFiles, WithTransfer, WithProtocol, WithReports;
    var none: seq<Arg> := [];
    BuildsNothing();
    ApplyPayload(none, DEFAULT_CLI, c);
    var a1 := WithPayload(none, c);
    var p1 := DEFAULT_CLI.(requestMethod := c.requestMethod, body := c.body, forms := c.forms, headers := c.headers);
    ApplyIdentity(a1, p1, c);
    var a2 := WithIdentity(a1, c);
    var p2 := p1.(certificatePath := c.certificatePath, authority := c.authority,
                  userAgent := c.userAgent, cookie := c.cookie);
    ApplyFiles(a2, p2, c);
    var a3 := WithFiles(a2, c);
    var p3 := p2.(referer := c.referer, outputFile := c.outputFile, uploadFile := c.uploadFile, quote := c.quote);
    ApplyTransfer(a3, p3, c);
    var a4 := WithTransfer(a3, c);
    var p4 := p3.(range := c.range, verbosity := c.verbosity, flags := p3.flags + c.flags * {Insecure, Head});
    ApplyProtocol(a4, p4, c);
    var a5 := WithProtocol(a4, c);
    var p5 := p4.(flags := p4.flags + c.flags * {Http2, Http2PriorKnowledge, NoProxy, Time});
    ApplyReports(a5, p5, c);
    FlagsOf(c.flags);
  }

  // ---------- Requests with a URL ----------

  predicate IsUrlRequest(c: Cli) {
    c.quick.None? && c.url.Some?
  }

  /** The method, printed without quotes, is a plain word. */
  predicate MethodIsPlain(c: Cli) {
    c.requestMethod.Some? ==> IsPlainWord(c.requestMethod.value)
  }

  /** A URL that can be printed without quotes at the end of a command. */
  predicate IsReplayableUrl(u: string) {
    IsPlainEnding(u) && !IsHyphenated(u) && SubcommandOf(u).None?
  }

  predicate IsReplayable(c: Cli) {
    IsUrlRequest(c) && ValuesUnhyphenated(ArgsOf(c)) && IsReplayableUrl(c.url.value)
  }

  lemma {:induction false} RequestIsApplied(c: Cli, args: seq<Arg>, v: string)
    requires ApplyAll(c, args).Ok? && Valued(Request, v) in args
    ensures ApplyAll(c, args).value.requestMethod == Some(v)
  {
    var n := |args| - 1;
    var before, last := ApplyAll(c, args[..n]).value, args[n];
    if last == Valued(Request, v) {
      assert SetValue(before, Request, v) == Ok(before.(requestMethod := Some(v)));
    } else {
      assert args == args[..n] + [last];
      RequestIsApplied(c, args[..n], v);
      ApplyKeepsMethod(before, last);
    }
  }

  lemma ApplyKeepsMethod(c: Cli, a: Arg)
    requires c.requestMethod.Some? && Apply(c, a).Ok?
    ensures Apply(c, a).value.requestMethod == c.requestMethod
  {
  }

  lemma MethodIsTheBareValue(c: Cli)
    requires MethodIsPlain(c)
    ensures BareValuesPlain(ArgsOf(c))
  {
    RebuildsOptions(c);
    forall a | a in ArgsOf(c) && a.Valued? && a.option == Request
      ensures IsPlainWord(a.value)
    {
      RequestIsApplied(DEFAULT_CLI, ArgsOf(c), a.value);
    }
  }

  lemma ProgramIsPlain()
    ensures IsPlainWord(PROGRAM)
  {
    assert |PROGRAM| == 5;
  }

  lemma RunProgram(text: string)
    ensures Run(START, PROGRAM + text) == Run(Config(Unquoted, PROGRAM, []), text)
  {
    RunConcat(START, PROGRAM, text);
    ProgramIsPlain();
    RunPlain(START, PROGRAM);
    assert "" + PROGRAM == PROGRAM;
  }

  lemma RunFirst(first: string)
    requires IsPlainWord(first)
    ensures Run(START, PROGRAM + (" " + first)) == Config(Unquoted, first, [PROGRAM])
  {
    RunProgram(" " + first);
    assert [] + [PROGRAM] == [PROGRAM];
    RunBareToken(Config(Unquoted, PROGRAM, []), first);
  }

  /** The program name and one bare word come first; the rest of the line is read after them. */
  lemma SplitAfterFirst(first: string, text: string)
    requires IsPlainWord(first)
    ensures Split(PROGRAM + (" " + first) + (" " + text)) ==
            Finish(Run(Config(Delimiter, "", [PROGRAM, first]), text))
  {
    var second := Config(Unquoted, first, [PROGRAM]);
    RunConcat(START, PROGRAM + (" " + first), " " + text);
    RunFirst(first);
    RunConcat(second, " ", text);
    RunBlank(second);
    assert [PROGRAM] + [first] == [PROGRAM, first];
  }

  lemma ClosedName()
    ensures Closed(Config(Unquoted, PROGRAM, [])) == [PROGRAM]
    ensures forall st :: Closed(st) == st.words + [st.word]
  {
  }

  lemma SplitLine(args: seq<Arg>, url: string)
    requires BareValuesPlain(args)
    ensures Split(PROGRAM + ArgsText(args) + (" " + url)) ==
            Finish(Run(Config(Delimiter, "", [PROGRAM] + Tokens(args)), url))
  {
    hide ArgsText, Tokens, Closed, BareValuesPlain, Run, IsPlainWord;
    var text := ArgsText(args);
    var named := Config(Unquoted, PROGRAM, []);
    var listed := Run(named, text);
    assert PROGRAM + text + (" " + url) == PROGRAM + (text + (" " + url));
    RunProgram(text + (" " + url));
    RunConcat(named, text, " " + url);
    RunArgs(named, args);
    RunConcat(listed, " ", url);
    RunBlank(listed);
    ClosedName();
  }

  /** The words of a printed request: the program name, the tokens of its options, and whatever
      the bare URL turns into. */
  lemma SplitRequest(c: Cli)
    requires IsUrlRequest(c) && MethodIsPlain(c)
    ensures Split(CommandText(c)) ==
            Finish(Run(Config(Delimiter, "", [PROGRAM] + Tokens(ArgsOf(c))), c.url.value))
  {
    hide ArgsOf;
    MethodIsTheBareValue(c);
    SplitLine(ArgsOf(c), c.url.value);
  }

  /** The URL of a parsed request is one of its tokens. */
  lemma {:induction false} PositionalsKeep(c: Cli, tokens: seq<string>)
    requires Positionals(c, tokens).Ok?
    ensures Positionals(c, tokens).value.quick == c.quick
    ensures Positionals(c, tokens).value.url == c.url
            || (tokens != [] && Positionals(c, tokens).value.url == Some(tokens[0]))
    decreases |tokens|
  {
    if tokens != [] {
      PositionalsKeep(Positional(c, tokens[0]).value, tokens[1..]);
    }
  }

  lemma {:induction false} ClusterKeeps(c: Cli, letters: string)
    requires Cluster(c, letters).Ok?
    ensures Cluster(c, letters).value.cli.url == c.url && Cluster(c, letters).value.cli.quick == c.quick
    decreases |letters|
  {
    if letters != "" {
      match KeyOfLetter(letters[0])
      case Some(FlagKey(f)) => ClusterKeeps(SetFlag(c, f).value, letters[1..]);
      case Some(VerboseKey) => ClusterKeeps(CountVerbose(c), letters[1..]);
      case _ =>
    }
  }

  lemma OptionTokenKeeps(c: Cli, token: string)
    requires IsHyphenated(token) && OptionToken(c, token).Ok?
    ensures OptionToken(c, token).value.cli.url == c.url && OptionToken(c, token).value.cli.quick == c.quick
  {
    if token[1] != '-' {
      ClusterKeeps(c, token[1..]);
    }
  }

  lemma {:induction false} UrlIsAToken(st: Progress, tokens: seq<string>)
    requires Parse(st, tokens).Ok? && Parse(st, tokens).value.quick.None?
    ensures Parse(st, tokens).value.url == st.cli.url
            || (Parse(st, tokens).value.url.Some? && Parse(st, tokens).value.url.value in tokens)
    decreases |tokens|
  {
    if tokens != [] {
      var token, rest := tokens[0], tokens[1..];
      if st.pending.Some? {
        UrlIsAToken(Progress(SetValue(st.cli, st.pending.value, token).value, None), rest);
      } else if token == "--" {
        PositionalsKeep(st.cli, rest);
      } else if IsHyphenated(token) {
        OptionTokenKeeps(st.cli, token);
        UrlIsAToken(OptionToken(st.cli, token).value, rest);
      } else {
        UrlIsAToken(Progress(Positional(st.cli, token).value, None), rest);
      }
    }
  }

  /** A lone last token becomes the URL exactly when it is neither an option nor a command. */
  lemma LoneToken(c: Cli, u: string)
    requires c.url.None? && c.quick.None?
    ensures Parse(Progress(c, None), [u]) == Ok(c.(url := Some(u))) <==> !IsHyphenated(u) && SubcommandOf(u).None?
  {
    var st := Progress(c, None);
    assert [u][1..] == [];
    if SubcommandOf(u).Some? {
      assert Parse(st, [u]).Ok? ==> Parse(st, [u]).value.quick.Some?;
    } else if u == "--" {
      assert Parse(st, [u]) == Positionals(c, [u][1..]);
    } else if IsHyphenated(u) {
      if OptionToken(c, u).Ok? {
        OptionTokenKeeps(c, u);
        assert Parse(st, [u]) == Parse(OptionToken(c, u).value, []);
      }
    } else {
      assert Parse(st, [u]) == Parse(Progress(c.(url := Some(u)), None), []);
    }
  }

  lemma ParsePrinted(c: Cli, tail: seq<string>)
    ensures ValuesUnhyphenated(ArgsOf(c)) ==>
            ParseCommandLine([PROGRAM] + Tokens(ArgsOf(c)) + tail) ==
            Parse(Progress(c.(url := None, quick := None), None), tail)
    ensures !ValuesUnhyphenated(ArgsOf(c)) ==> ParseCommandLine([PROGRAM] + Tokens(ArgsOf(c)) + tail).Err?
  {
    hide ArgsOf, Tokens, ValuesUnhyphenated;
    var words := [PROGRAM] + Tokens(ArgsOf(c)) + tail;
    assert words[1..] == Tokens(ArgsOf(c)) + tail;
    ParseArgs(DEFAULT_CLI, ArgsOf(c), tail);
    RebuildsOptions(c);
  }

  lemma ReplayableComesBack(c: Cli)
    requires MethodIsPlain(c) && IsReplayable(c)
    ensures Replay(CommandText(c)) == Ok(c)
  {
    hide ArgsOf, CommandText, Tokens, IsPlainWord;
    var u := c.url.value;
    SplitRequest(c);
    RunEnding([PROGRAM] + Tokens(ArgsOf(c)), u);
    ParsePrinted(c, [u]);
    LoneToken(c.(url := None, quick := None), u);
  }

  lemma OnlyReplayableComesBack(c: Cli)
    requires IsUrlRequest(c) && MethodIsPlain(c)
    requires Replay(CommandText(c)) == Ok(c)
    ensures IsReplayable(c)
  {
    hide ArgsOf, CommandText, Tokens, IsPlainWord;
    var u := c.url.value;
    var words := [PROGRAM] + Tokens(ArgsOf(c));
    SplitRequest(c);
    var found := Split(CommandText(c)).value;
    RunExtends(Config(Delimiter, "", words), u);
    var tail := found[|words|..];
    assert found == words + tail;
    ParsePrinted(c, tail);
    UrlIsAToken(Progress(c.(url := None, quick := None), None), tail);
    WordOfItself(words, tail, u);
    RunEnding(words, u);
    assert tail == [u];
    LoneToken(c.(url := None, quick := None), u);
  }

  /** The round trip, exactly: with a plain method, replaying the printed command gives back the
      whole request if and only if no value looks like an option and the URL can stand bare. */
  lemma RoundTripExactly(c: Cli)
    requires IsUrlRequest(c) && MethodIsPlain(c)
    ensures Replay(CommandText(c)) == Ok(c) <==> IsReplayable(c)
  {
    if IsReplayable(c) {
      ReplayableComesBack(c);
    } else if Replay(CommandText(c)) == Ok(c) {
      OnlyReplayableComesBack(c);
    }
  }
}
