/** Printed options, read back: the splitter finds exactly their tokens and the parser applies
    them in order. */
module PrintedOptions {
  import opened Outcomes
  import opened CommandLine
  import opened ShellWords
  import opened ArgParser
  import opened Command

  // ---------- Tokens of printed options ----------

  function ArgTokens(a: Arg): seq<string> {
    match a
    case Valued(o, v) => [['-', LetterOf(o)], v]
    case Switched(f) => [FlagText(f)]
    case Verbose => ["-v"]
  }

  function Tokens(args: seq<Arg>): seq<string> {
    if args == [] then [] else Tokens(args[..|args| - 1]) + ArgTokens(args[|args| - 1])
  }

  /** Every value printed without quotes is a plain word. */
  predicate BareValuesPlain(args: seq<Arg>) {
    forall a | a in args :: a.Valued? && a.option == Request ==> IsPlainWord(a.value)
  }

  /** No value looks like an option. */
  predicate ValuesUnhyphenated(args: seq<Arg>) {
    forall a | a in args :: a.Valued? ==> !IsHyphenated(a.value)
  }

  lemma RunBareToken(st: Config, token: string)
    requires st.mode == Unquoted && IsPlainWord(token)
    ensures Run(st, " " + token) == Config(Unquoted, token, st.words + [st.word])
  {
    RunConcat(st, " ", token);
    RunBlank(st);
    RunPlain(Config(Delimiter, "", st.words + [st.word]), token);
    assert "" + token == token;
  }

  lemma FlagTextIsPlain(f: Flag)
    ensures IsPlainWord(FlagText(f))
  {
    hide IsPlainWord;
    match f
    case TlsInfo | CertInfo | TlsInfoJson | CertInfoJson => ReportTextIsPlain(f);
    case _ => ProtocolTextIsPlain(f);
  }

  lemma ReportTextIsPlain(f: Flag)
    requires f in {TlsInfo, CertInfo, TlsInfoJson, CertInfoJson}
    ensures IsPlainWord(FlagText(f))
  {
  }

  lemma ProtocolTextIsPlain(f: Flag)
    requires f !in {TlsInfo, CertInfo, TlsInfoJson, CertInfoJson}
    ensures IsPlainWord(FlagText(f))
  {
  }

  lemma RunQuotedToken(st: Config, v: string)
    requires st.mode == Unquoted
    ensures Run(st, " " + Quote(v)) == Config(Unquoted, v, st.words + [st.word])
  {
    RunConcat(st, " ", Quote(v));
    RunBlank(st);
    RunQuoted(Config(Delimiter, "", st.words + [st.word]), v);
    assert "" + v == v;
  }

  /** The words read so far, counting the one in progress. */
  function Closed(st: Config): seq<string> {
    st.words + [st.word]
  }

  lemma RunArg(st: Config, a: Arg)
    requires st.mode == Unquoted
    requires a.Valued? && a.option == Request ==> IsPlainWord(a.value)
    ensures Run(st, ArgText(a)).mode == Unquoted
    ensures Closed(Run(st, ArgText(a))) == Closed(st) + ArgTokens(a)
  {
    match a
    case Switched(f) =>
      FlagTextIsPlain(f);
      RunBareToken(st, FlagText(f));
    case Verbose =>
      assert " -v" == " " + "-v";
      RunBareToken(st, "-v");
    case Valued(o, v) =>
      var name := ['-', LetterOf(o)];
      assert IsPlainWord(name);
      RunBareToken(st, name);
      var mid := Config(Unquoted, name, st.words + [st.word]);
      var value := if o == Request then v else Quote(v);
      ArgTextSplits(o, v);
      RunConcat(st, " " + name, " " + value);
      if o == Request {
        RunBareToken(mid, v);
      } else {
        RunQuotedToken(mid, v);
      }
  }

  lemma ArgTextSplits(o: ValueOption, v: string)
    ensures ArgText(Valued(o, v)) == (" " + ['-', LetterOf(o)]) + (" " + if o == Request then v else Quote(v))
  {
  }

  /** The splitter reads printed options as exactly their tokens. */
  lemma {:induction false} RunArgs(st: Config, args: seq<Arg>)
    requires st.mode == Unquoted && BareValuesPlain(args)
    ensures Run(st, ArgsText(args)).mode == Unquoted
    ensures Closed(Run(st, ArgsText(args))) == Closed(st) + Tokens(args)
  {
    hide ArgText, ArgTokens, ArgsText, Tokens, Closed, IsPlainWord, Run;
    if args == [] {
      NoArgs(st);
    } else {
      var before, last := args[..|args| - 1], args[|args| - 1];
      assert last in args;
      RunArgs(st, before);
      OneMoreArg(st, before, last);
      assert args == before + [last];
    }
  }

  lemma NoArgs(st: Config)
    ensures Run(st, ArgsText([])) == st && Closed(st) + Tokens([]) == Closed(st)
  {
  }

  lemma OneMoreArg(st: Config, before: seq<Arg>, last: Arg)
    requires Run(st, ArgsText(before)).mode == Unquoted
    requires Closed(Run(st, ArgsText(before))) == Closed(st) + Tokens(before)
    requires last.Valued? && last.option == Request ==> IsPlainWord(last.value)
    ensures Run(st, ArgsText(before + [last])).mode == Unquoted
    ensures Closed(Run(st, ArgsText(before + [last]))) == Closed(st) + Tokens(before + [last])
  {
    TokensSnoc(before, last);
    hide ArgText, ArgTokens, ArgsText, Tokens, Closed, IsPlainWord, Run;
    ArgsTextSnoc(before, last);
    RunConcat(st, ArgsText(before), ArgText(last));
    RunArg(Run(st, ArgsText(before)), last);
    assert Closed(st) + Tokens(before) + ArgTokens(last) == Closed(st) + (Tokens(before) + ArgTokens(last));
  }

  lemma TokensSnoc(args: seq<Arg>, a: Arg)
    ensures Tokens(args + [a]) == Tokens(args) + ArgTokens(a)
  {
    assert (args + [a])[..|args|] == args;
  }

  // ---------- The parser undoes printed options ----------

  function Apply(c: Cli, a: Arg): Parsed<Cli> {
    match a
    case Valued(o, v) => SetValue(c, o, v)
    case Switched(f) => SetFlag(c, f)
    case Verbose => Ok(CountVerbose(c))
  }

  function ApplyAll(c: Cli, args: seq<Arg>): Parsed<Cli> {
    if args == [] then Ok(c)
    else
      var c' :- ApplyAll(c, args[..|args| - 1]);
      Apply(c', args[|args| - 1])
  }

  function Settled(r: Parsed<Cli>): Parsed<Progress> {
    match r
    case Ok(c) => Ok(Progress(c, None))
    case Err(e) => Err(e)
  }

  function ParseAfter(r: Parsed<Cli>, rest: seq<string>): Parsed<Cli> {
    match r
    case Ok(c) => Parse(Progress(c, None), rest)
    case Err(e) => Err(e)
  }

  /** Reading one option letter. */
  lemma OneLetter(c: Cli, f: Flag, letter: char)
    requires KeyOfLetter(letter) == Some(FlagKey(f))
    ensures Cluster(c, [letter]) == Settled(SetFlag(c, f))
  {
    assert [letter][1..] == "";
    if SetFlag(c, f).Ok? {
      assert Cluster(SetFlag(c, f).value, "") == Ok(Progress(SetFlag(c, f).value, None));
    }
  }

  lemma HyphenatedIsNoCommand(token: string)
    requires IsHyphenated(token)
    ensures SubcommandOf(token) == None
  {
  }

  lemma FlagTextIsHyphenated(f: Flag)
    ensures IsHyphenated(FlagText(f)) && FlagText(f) != "--"
  {
  }

  lemma FlagTokenParses(c: Cli, f: Flag)
    requires IsHyphenated(FlagText(f))
    ensures OptionToken(c, FlagText(f)) == Settled(SetFlag(c, f))
  {
    var text := FlagText(f);
    if text[1] == '-' {
      NameOfFlag(f);
    } else {
      assert text[1..] == [text[1]];
      OneLetter(c, f, text[1]);
    }
  }

  lemma NameOfFlag(f: Flag)
    requires FlagText(f)[1] == '-'
    ensures KeyOfName(FlagText(f)[2..]) == Some(FlagKey(f))
  {
    match f
    case TlsInfo | CertInfo | TlsInfoJson | CertInfoJson => NameOfReport(f);
    case _ => NameOfProtocol(f);
  }

  lemma NameOfReport(f: Flag)
    requires f in {TlsInfo, CertInfo, TlsInfoJson, CertInfoJson}
    ensures KeyOfName(FlagText(f)[2..]) == Some(FlagKey(f))
  {
  }

  lemma NameOfProtocol(f: Flag)
    requires f in {Http2, Http2PriorKnowledge, NoProxy, Time}
    ensures KeyOfName(FlagText(f)[2..]) == Some(FlagKey(f))
  {
  }

  lemma ValueTokenParses(c: Cli, o: ValueOption)
    ensures IsHyphenated(['-', LetterOf(o)]) && SubcommandOf(['-', LetterOf(o)]) == None && ['-', LetterOf(o)] != "--"
    ensures OptionToken(c, ['-', LetterOf(o)]) == Ok(Progress(c, Some(o)))
  {
    assert ['-', LetterOf(o)][1..] == [LetterOf(o)];
    assert KeyOfLetter(LetterOf(o)) == Some(ValueKey(o));
  }

  lemma ParseArg(c: Cli, a: Arg, rest: seq<string>)
    ensures Parse(Progress(c, None), ArgTokens(a) + rest) ==
            if a.Valued? && IsHyphenated(a.value) then Err(MissingValue)
            else ParseAfter(Apply(c, a), rest)
  {
    var tokens := ArgTokens(a) + rest;
    match a
    case Switched(f) =>
      FlagTextIsHyphenated(f);
      HyphenatedIsNoCommand(FlagText(f));
      FlagTokenParses(c, f);
      assert tokens[0] == FlagText(f) && tokens[1..] == rest;
    case Verbose =>
      HyphenatedIsNoCommand("-v");
      assert "-v"[1..] == "v" && "v"[1..] == "";
      assert Cluster(c, "v") == Cluster(CountVerbose(c), "v"[1..]);
      assert tokens[0] == "-v" && tokens[1..] == rest;
    case Valued(o, v) =>
      ValueTokenParses(c, o);
      assert tokens[0] == ['-', LetterOf(o)] && tokens[1..][0] == v && tokens[1..][1..] == rest;
      assert Parse(Progress(c, None), tokens) == Parse(Progress(c, Some(o)), tokens[1..]);
  }

  /** Parsing the tokens of printed options applies the options in order; it fails as soon as a
      value looks like an option. */
  lemma {:induction false} ParseArgs(c: Cli, args: seq<Arg>, rest: seq<string>)
    ensures ValuesUnhyphenated(args) ==>
            Parse(Progress(c, None), Tokens(args) + rest) == ParseAfter(ApplyAll(c, args), rest)
    ensures !ValuesUnhyphenated(args) ==> Parse(Progress(c, None), Tokens(args) + rest).Err?
  {
    if args == [] {
      assert Tokens(args) + rest == rest;
    } else {
      var n := |args| - 1;
      var last := args[n];
      assert args == args[..n] + [last];
      assert Tokens(args) + rest == Tokens(args[..n]) + (ArgTokens(last) + rest);
      ParseArgs(c, args[..n], ArgTokens(last) + rest);
      if ApplyAll(c, args[..n]).Ok? {
        ParseArg(ApplyAll(c, args[..n]).value, last, rest);
      }
    }
  }
}
