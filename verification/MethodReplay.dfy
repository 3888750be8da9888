/** The request method is printed without quotes: exactly which methods survive a replay. */
module MethodReplay {
  import opened Outcomes
  import opened CommandLine
  import opened ShellWords
  import opened ArgParser
  import opened Command
  import opened Misread
  import opened LineBreaks
  import opened PrintedOptions
  import opened RoundTrip

  // ---------- The method is printed first ----------

  lemma AppendAssociates(a: seq<Arg>, b: seq<Arg>, w: seq<Arg>, x: seq<Arg>, y: seq<Arg>, z: seq<Arg>)
    ensures a + b + w + x + y + z == a + (b + w + x + y + z)
  {
  }

  lemma MethodComesFirst(c: Cli)
    ensures ArgsOf(c) == Optional(Request, c.requestMethod) + ArgsOf(c.(requestMethod := None))
  {
    hide Each, When, Repeat;
    var a, rest := Optional(Request, c.requestMethod), c.(requestMethod := None);
    var p := WithPayload([], rest);
    assert WithPayload([], c) == a + p;
    var i := WithIdentity(p, c);
    var f := WithFiles(i, c);
    var t := WithTransfer(f, c);
    var h := WithProtocol(t, c);
    AppendAssociates(a, p, Optional(CertificatePath, c.certificatePath), Optional(User, c.authority),
                     Optional(UserAgent, c.userAgent), Optional(Cookie, c.cookie));
    AppendAssociates(a, i, Optional(Referer, c.referer), Optional(Output, c.outputFile),
                     Optional(UploadFile, c.uploadFile), Optional(QuoteCommand, c.quote));
    AppendAssociates(a, f, When(Insecure, c.flags), When(Head, c.flags), Optional(Range, c.range), Repeat(c.verbosity));
    AppendAssociates(a, t, When(Http2, c.flags), When(Http2PriorKnowledge, c.flags),
                     When(NoProxy, c.flags), When(Time, c.flags));
    AppendAssociates(a, h, When(TlsInfo, c.flags), When(CertInfo, c.flags),
                     When(TlsInfoJson, c.flags), When(CertInfoJson, c.flags));
  }

  lemma {:induction false} ArgsTextConcat(a: seq<Arg>, b: seq<Arg>)
    ensures ArgsText(a + b) == ArgsText(a) + ArgsText(b)
  {
    hide ArgText;
    if b == [] {
      assert a + b == a;
    } else {
      var before, last := b[..|b| - 1], b[|b| - 1];
      ArgsTextConcat(a, before);
      ConcatSnoc(a, before, last);
      assert b == before + [last];
    }
  }

  lemma ConcatSnoc(a: seq<Arg>, b: seq<Arg>, last: Arg)
    requires ArgsText(a + b) == ArgsText(a) + ArgsText(b)
    ensures ArgsText(a + (b + [last])) == ArgsText(a) + ArgsText(b + [last])
  {
    hide ArgText, ArgsText;
    ArgsTextSnoc(a + b, last);
    ArgsTextSnoc(b, last);
    assert a + (b + [last]) == a + b + [last];
    assert ArgsText(a) + (ArgsText(b) + ArgText(last)) == ArgsText(a) + ArgsText(b) + ArgText(last);
  }

  const METHOD_OPTION := "-X"

  /** Every option starts with a blank and a hyphen. */
  lemma {:induction false} OptionsStartWithHyphen(args: seq<Arg>)
    requires args != []
    ensures |ArgsText(args)| >= 2 && ArgsText(args)[0] == ' ' && ArgsText(args)[1] == '-'
  {
    var n := |args| - 1;
    ArgStartsWithHyphen(args[n]);
    hide ArgText;
    if n > 0 {
      OptionsStartWithHyphen(args[..n]);
    }
  }

  lemma ArgStartsWithHyphen(a: Arg)
    ensures |ArgText(a)| >= 2 && ArgText(a)[0] == ' ' && ArgText(a)[1] == '-'
  {
  }

  /** The options printed besides the method. */
  function Others(c: Cli): seq<Arg> {
    ArgsOf(c.(requestMethod := None))
  }

  /** What follows the method and a blank on the line: an option, if there are any, or the URL. */
  lemma TextAfterMethod(c: Cli) returns (rest: string)
    requires c.quick.None? && c.requestMethod.Some? && (c.url.Some? || Others(c) != [])
    ensures CommandText(c) == PROGRAM + (" " + METHOD_OPTION) + (" " + (c.requestMethod.value + " " + rest))
    ensures if Others(c) == [] then rest == c.url.value else rest != "" && rest[0] == '-'
  {
    hide ArgsOf, ArgText;
    var m, u := c.requestMethod.value, UrlText(c.url);
    var others := Others(c);
    MethodComesFirst(c);
    if others != [] {
      OptionsStartWithHyphen(others);
    }
    var text := ArgsText(others) + u;
    rest := text[1..];
    assert text == " " + rest;
    ArgsTextConcat([Valued(Request, m)], others);
    FirstArgText(m);
    Regroup(m, ArgsText(others), u, rest);
  }

  lemma FirstArgText(m: string)
    ensures ArgsText([Valued(Request, m)]) == (" " + METHOD_OPTION) + (" " + m)
  {
    assert [Valued(Request, m)][..0] == [];
  }

  lemma Regroup(m: string, flags: string, u: string, rest: string)
    requires flags + u == " " + rest
    ensures PROGRAM + ((" " + METHOD_OPTION) + (" " + m) + flags) + u ==
            PROGRAM + (" " + METHOD_OPTION) + (" " + (m + " " + rest))
  {
    var option, value := " " + METHOD_OPTION, " " + m;
    assert value + (" " + rest) == " " + (m + " " + rest);
    assert PROGRAM + (option + value + flags) + u == PROGRAM + option + (value + (flags + u));
  }

  // ---------- The parser takes the first word after -X as the method ----------

  lemma {:induction false} ClusterKeepsMethod(c: Cli, letters: string)
    requires c.requestMethod.Some? && Cluster(c, letters).Ok?
    ensures Cluster(c, letters).value.cli.requestMethod == c.requestMethod
    decreases |letters|
  {
    if letters != "" {
      match KeyOfLetter(letters[0])
      case Some(FlagKey(f)) => ClusterKeepsMethod(SetFlag(c, f).value, letters[1..]);
      case Some(VerboseKey) => ClusterKeepsMethod(CountVerbose(c), letters[1..]);
      case _ =>
    }
  }

  lemma {:induction false} PositionalsKeepMethod(c: Cli, tokens: seq<string>)
    requires Positionals(c, tokens).Ok?
    ensures Positionals(c, tokens).value.requestMethod == c.requestMethod
    decreases |tokens|
  {
    if tokens != [] {
      PositionalsKeepMethod(Positional(c, tokens[0]).value, tokens[1..]);
    }
  }

  /** Once set, the method of a request never changes. */
  lemma {:induction false} ParseKeepsMethod(st: Progress, tokens: seq<string>)
    requires st.cli.requestMethod.Some? && Parse(st, tokens).Ok?
    ensures Parse(st, tokens).value.requestMethod == st.cli.requestMethod
    decreases |tokens|
  {
    if tokens != [] {
      var token, rest := tokens[0], tokens[1..];
      if st.pending.Some? {
        ParseKeepsMethod(Progress(SetValue(st.cli, st.pending.value, token).value, None), rest);
      } else if SubcommandOf(token).Some? {
      } else if token == "--" {
        PositionalsKeepMethod(st.cli, rest);
      } else if IsHyphenated(token) {
        if token[1] != '-' {
          ClusterKeepsMethod(st.cli, token[1..]);
        }
        ParseKeepsMethod(OptionToken(st.cli, token).value, rest);
      } else {
        ParseKeepsMethod(Progress(Positional(st.cli, token).value, None), rest);
      }
    }
  }

  lemma MethodIsTheNextToken(tail: seq<string>, c: Cli)
    requires ParseCommandLine([PROGRAM, METHOD_OPTION] + tail) == Ok(c)
    ensures tail != [] && c.requestMethod == Some(tail[0]) && !IsHyphenated(tail[0])
  {
    var words := [PROGRAM, METHOD_OPTION] + tail;
    assert words[1..][0] == METHOD_OPTION && words[1..][1..] == tail;
    ValueTokenParses(DEFAULT_CLI, Request);
    assert ['-', LetterOf(Request)] == METHOD_OPTION;
    assert Parse(Progress(DEFAULT_CLI, None), words[1..]) == Parse(Progress(DEFAULT_CLI, Some(Request)), tail);
    ParseKeepsMethod(Progress(DEFAULT_CLI.(requestMethod := Some(tail[0])), None), tail[1..]);
  }

  lemma UrlComesLater(tail: seq<string>, c: Cli)
    requires ParseCommandLine([PROGRAM, METHOD_OPTION] + tail) == Ok(c) && IsUrlRequest(c)
    ensures tail != [] && c.url.value in tail[1..]
  {
    var words := [PROGRAM, METHOD_OPTION] + tail;
    assert words[1..][0] == METHOD_OPTION && words[1..][1..] == tail;
    ValueTokenParses(DEFAULT_CLI, Request);
    assert ['-', LetterOf(Request)] == METHOD_OPTION;
    assert Parse(Progress(DEFAULT_CLI, None), words[1..]) == Parse(Progress(DEFAULT_CLI, Some(Request)), tail);
    UrlIsAToken(Progress(DEFAULT_CLI.(requestMethod := Some(tail[0])), None), tail[1..]);
  }

  lemma MethodOptionIsPlain()
    ensures IsPlainWord(METHOD_OPTION)
  {
  }

  /** The words after `-X` of a line that gives its request back: the method first, and the URL, if
      there is one, among the others. */
  lemma WordsAfterOption(c: Cli, text: string) returns (tail: seq<string>)
    requires c.quick.None? && c.requestMethod.Some?
    requires CommandText(c) == PROGRAM + (" " + METHOD_OPTION) + (" " + text)
    requires Replay(CommandText(c)) == Ok(c)
    ensures Finish(Run(Config(Delimiter, "", [PROGRAM, METHOD_OPTION]), text)) == Ok([PROGRAM, METHOD_OPTION] + tail)
    ensures tail != [] && tail[0] == c.requestMethod.value && !IsHyphenated(tail[0])
    ensures c.url.Some? ==> c.url.value in tail[1..]
  {
    hide CommandText, IsPlainWord;
    var words := [PROGRAM, METHOD_OPTION];
    MethodOptionIsPlain();
    SplitAfterFirst(METHOD_OPTION, text);
    var found := Split(CommandText(c)).value;
    RunExtends(Config(Delimiter, "", words), text);
    assert words <= found;
    tail := found[2..];
    assert found == words + tail;
    MethodIsTheNextToken(tail, c);
    if c.url.Some? {
      UrlComesLater(tail, c);
    }
  }

  lemma RunMethodOption()
    ensures Run(START, PROGRAM + (" " + METHOD_OPTION) + " ") == Config(Delimiter, "", [PROGRAM, METHOD_OPTION])
  {
    var before := PROGRAM + (" " + METHOD_OPTION);
    MethodOptionIsPlain();
    RunFirst(METHOD_OPTION);
    RunConcat(START, before, " ");
    RunBlank(Run(START, before));
    assert [PROGRAM] + [METHOD_OPTION] == [PROGRAM, METHOD_OPTION];
  }

  lemma CommentsRunOnInMethod(c: Cli, text: string)
    requires c.quick.None? && Replay(CommandText(c)) == Ok(c)
    requires CommandText(c) == PROGRAM + (" " + METHOD_OPTION) + (" " + text)
    ensures CommentsRunOn(Config(Delimiter, "", [PROGRAM, METHOD_OPTION]), text)
  {
    hide CommandText, Replay, CommentsRunOn;
    var before := PROGRAM + (" " + METHOD_OPTION) + " ";
    ReplayKeepsBreaks(c);
    assert before + text == CommandText(c);
    CommentsRunOnAfter(before, text);
    RunMethodOption();
  }

  /** A method with anything printed behind it, whatever that is, comes back only as a plain word. */
  lemma OnlyPlainMethodComesBack(c: Cli)
    requires c.quick.None? && (c.url.Some? || Others(c) != [])
    requires Replay(CommandText(c)) == Ok(c)
    ensures MethodIsPlain(c)
  {
    hide CommandText, IsPlainWord, Replay, ArgsOf, Run, Finish;
    if c.requestMethod.Some? {
      var m, words := c.requestMethod.value, [PROGRAM, METHOD_OPTION];
      var rest := TextAfterMethod(c);
      var tail := WordsAfterOption(c, m + " " + rest);
      if Others(c) == [] {
        FirstWordBeforeLast(words, m, rest, tail);
      } else {
        CommentsRunOnInMethod(c, m + " " + rest);
        FirstWordBeforeOption(words, m, rest, tail);
      }
    }
  }

  // ---------- Requests without a URL ----------

  lemma SplitOptions(c: Cli)
    requires c.quick.None? && c.url.None? && MethodIsPlain(c)
    ensures Split(CommandText(c)) == Ok([PROGRAM] + Tokens(ArgsOf(c)))
  {
    hide ArgsOf, ArgsText, Tokens, Closed, BareValuesPlain, Run, IsPlainWord;
    var args, named := ArgsOf(c), Config(Unquoted, PROGRAM, []);
    MethodIsTheBareValue(c);
    assert PROGRAM + ArgsText(args) + "" == PROGRAM + ArgsText(args);
    RunProgram(ArgsText(args));
    RunArgs(named, args);
    ClosedName();
  }

  lemma OptionsReplayExactly(c: Cli)
    requires c.quick.None? && c.url.None? && MethodIsPlain(c)
    ensures Replay(CommandText(c)) == Ok(c) <==> ValuesUnhyphenated(ArgsOf(c))
    ensures !ValuesUnhyphenated(ArgsOf(c)) ==> Replay(CommandText(c)).Err?
  {
    hide ArgsOf, CommandText, Tokens, ValuesUnhyphenated;
    SplitOptions(c);
    ParsePrinted(c, []);
    assert [PROGRAM] + Tokens(ArgsOf(c)) + [] == [PROGRAM] + Tokens(ArgsOf(c));
  }

  /** A method at the end of the line may end in a backslash. */
  lemma LoneMethodReplaysExactly(c: Cli)
    requires c.quick.None? && c.url.None? && c.requestMethod.Some? && Others(c) == []
    ensures Replay(CommandText(c)) == Ok(c) <==>
            IsPlainEnding(c.requestMethod.value) && !IsHyphenated(c.requestMethod.value)
  {
    hide ArgsOf, CommandText, IsPlainWord, IsPlainEnding, Replay;
    var m, words := c.requestMethod.value, [PROGRAM, METHOD_OPTION];
    LoneMethodLine(c);
    if Replay(CommandText(c)) == Ok(c) {
      var tail := WordsAfterOption(c, m);
      WordOfItself(words, tail, m);
    }
    if IsPlainEnding(m) && !IsHyphenated(m) {
      LoneMethodComesBack(c);
    }
  }

  lemma LoneMethodLine(c: Cli)
    requires c.quick.None? && c.url.None? && c.requestMethod.Some? && Others(c) == []
    ensures ArgsOf(c) == [Valued(Request, c.requestMethod.value)]
    ensures CommandText(c) == PROGRAM + (" " + METHOD_OPTION) + (" " + c.requestMethod.value)
  {
    var m := c.requestMethod.value;
    MethodComesFirst(c);
    FirstArgText(m);
    hide ArgsOf, ArgsText;
    assert ArgsOf(c) == [Valued(Request, m)] + [] == [Valued(Request, m)];
    assert PROGRAM + ((" " + METHOD_OPTION) + (" " + m)) + "" == PROGRAM + (" " + METHOD_OPTION) + (" " + m);
  }

  lemma LoneMethodComesBack(c: Cli)
    requires c.quick.None? && c.url.None? && c.requestMethod.Some? && Others(c) == []
    requires IsPlainEnding(c.requestMethod.value) && !IsHyphenated(c.requestMethod.value)
    ensures Replay(CommandText(c)) == Ok(c)
  {
    var m := c.requestMethod.value;
    LoneMethodLine(c);
    MethodTokens(m);
    MethodOptionIsPlain();
    hide ArgsOf, CommandText, IsPlainWord, IsPlainEnding, Tokens, Run, Finish, ParseCommandLine;
    SplitAfterFirst(METHOD_OPTION, m);
    RunEnding([PROGRAM, METHOD_OPTION], m);
    ParsePrinted(c, []);
    assert [PROGRAM] + [METHOD_OPTION, m] + [] == [PROGRAM, METHOD_OPTION] + [m];
  }

  lemma MethodTokens(m: string)
    ensures Tokens([Valued(Request, m)]) == [METHOD_OPTION, m]
  {
    assert [Valued(Request, m)][..0] == [];
    assert ['-', LetterOf(Request)] == METHOD_OPTION;
  }

  // ---------- All requests ----------

  /** The method can stand bare where it is printed. */
  predicate MethodIsReplayable(c: Cli) {
    if c.url.Some? || Others(c) != [] then MethodIsPlain(c)
    else c.requestMethod.Some? ==> IsPlainEnding(c.requestMethod.value)
  }

  predicate RequestIsReplayable(c: Cli) {
    && MethodIsReplayable(c)
    && ValuesUnhyphenated(ArgsOf(c))
    && (c.url.Some? ==> IsReplayableUrl(c.url.value))
  }

  /** The whole round trip, for every request: the method, printed without quotes, must be a plain
      word; no printed value may look like an option; and the URL must be able to stand bare. */
  lemma RequestReplaysExactly(c: Cli)
    requires c.quick.None?
    ensures Replay(CommandText(c)) == Ok(c) <==> RequestIsReplayable(c)
  {
    hide CommandText, IsPlainWord, IsPlainEnding, Replay, ArgsOf;
    if c.url.Some? {
      if Replay(CommandText(c)) == Ok(c) {
        OnlyPlainMethodComesBack(c);
      }
      if MethodIsPlain(c) {
        RoundTripExactly(c);
      }
    } else if Others(c) != [] || c.requestMethod.None? {
      if Replay(CommandText(c)) == Ok(c) && Others(c) != [] {
        OnlyPlainMethodComesBack(c);
      }
      if MethodIsPlain(c) {
        OptionsReplayExactly(c);
      }
    } else {
      LoneMethodLine(c);
      LoneMethodReplaysExactly(c);
    }
  }
}
