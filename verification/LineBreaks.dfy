/** Line breaks through a replay: the printer adds none, the splitter and the parser make none, and
    one that ends a comment is lost. So no comment is ended on a line that gives its request back. */
module LineBreaks {
  import opened Outcomes
  import opened CommandLine
  import opened ShellWords
  import opened Misread
  import opened ArgParser
  import opened Command
  import opened PrintedOptions
  import opened RoundTrip
  import Text

  function Breaks(s: string): nat {
    multiset(s)['\n']
  }

  function AllBreaks(words: seq<string>): nat {
    if words == [] then 0 else Breaks(words[0]) + AllBreaks(words[1..])
  }

  lemma {:induction false} AllBreaksConcat(a: seq<string>, b: seq<string>)
    ensures AllBreaks(a + b) == AllBreaks(a) + AllBreaks(b)
  {
    hide Breaks;
    if a == [] {
      assert a + b == b;
    } else {
      assert (a + b)[0] == a[0] && (a + b)[1..] == a[1..] + b;
      AllBreaksConcat(a[1..], b);
    }
  }

  lemma AllBreaksSnoc(a: seq<string>, w: string)
    ensures AllBreaks(a + [w]) == AllBreaks(a) + Breaks(w)
  {
    hide Breaks;
    AllBreaksConcat(a, [w]);
    assert [w][1..] == [];
  }

  // ---------- The splitter ----------

  function BreaksRead(st: Config): nat {
    AllBreaks(st.words) + Breaks(st.word)
  }

  /** A step drops its character, adds it to the word, or finishes the word. */
  lemma StepShape(st: Config, c: char)
    ensures var next := Step(st, c);
            || (next.words == st.words && next.word == st.word)
            || (next.words == st.words && next.word == st.word + [c])
            || (next.words == st.words && next.word == st.word + ['\\', c])
            || (next.words == st.words + [st.word] && next.word == "")
    ensures st.mode == Comment ==> Step(st, c).words == st.words && Step(st, c).word == st.word
  {
  }

  lemma StepMakesNoBreak(st: Config, c: char)
    ensures BreaksRead(Step(st, c)) <= BreaksRead(st) + Breaks([c])
    ensures st.mode == Comment ==> BreaksRead(Step(st, c)) == BreaksRead(st)
  {
    hide Step, AllBreaks, Breaks;
    StepShape(st, c);
    AllBreaksSnoc(st.words, st.word);
    BreaksConcat(st.word, [c]);
    BackslashIsNoBreak(c);
    BreaksConcat(st.word, ['\\', c]);
  }

  lemma BackslashIsNoBreak(c: char)
    ensures Breaks(['\\', c]) == Breaks([c]) && Breaks("") == 0
  {
    assert ['\\', c] == ['\\'] + [c];
  }

  lemma FirstBreak(s: string)
    requires s != ""
    ensures Breaks(s) == Breaks([s[0]]) + Breaks(s[1..])
    ensures s[0] == '\n' ==> Breaks([s[0]]) == 1
  {
    assert s == [s[0]] + s[1..];
  }

  lemma {:induction false} RunMakesNoBreak(st: Config, s: string)
    ensures BreaksRead(Run(st, s)) <= BreaksRead(st) + Breaks(s)
    decreases |s|
  {
    hide BreaksRead, Breaks, Step;
    if s != "" {
      FirstBreak(s);
      StepMakesNoBreak(st, s[0]);
      RunMakesNoBreak(Step(st, s[0]), s[1..]);
    }
  }

  /** The line break that ends a comment is lost. */
  lemma {:induction false} CommentLosesBreak(st: Config, s: string)
    requires st.mode == Comment && '\n' in s
    ensures BreaksRead(Run(st, s)) < BreaksRead(st) + Breaks(s)
    decreases |s|
  {
    hide BreaksRead, Breaks;
    FirstBreak(s);
    StepMakesNoBreak(st, s[0]);
    if s[0] == '\n' {
      RunMakesNoBreak(Step(st, s[0]), s[1..]);
    } else {
      CommentLosesBreak(st, s[1..]);
    }
  }

  lemma FinishMakesNoBreak(st: Config)
    requires Finish(st).Ok?
    ensures AllBreaks(Finish(st).value) <= BreaksRead(st)
  {
    hide AllBreaks;
    AllBreaksSnoc(st.words, st.word);
    AllBreaksSnoc(st.words, st.word + "\\");
  }

  lemma BreaksConcat(a: string, b: string)
    ensures Breaks(a + b) == Breaks(a) + Breaks(b)
  {
  }

  /** If the words read have as many line breaks as the line, no comment was ended. */
  lemma SplitKeepsBreaks(s: string)
    requires Split(s).Ok? && AllBreaks(Split(s).value) >= Breaks(s)
    ensures CommentsRunOn(START, s)
  {
    hide Breaks, AllBreaks, Run, Finish;
    forall p | 0 <= p <= |s| && Run(START, s[..p]).mode == Comment
      ensures '\n' !in s[p..]
    {
      if '\n' in s[p..] {
        var st := Run(START, s[..p]);
        assert s == s[..p] + s[p..];
        RunConcat(START, s[..p], s[p..]);
        BreaksConcat(s[..p], s[p..]);
        RunMakesNoBreak(START, s[..p]);
        CommentLosesBreak(st, s[p..]);
        FinishMakesNoBreak(Run(START, s));
        NothingAtStart();
      }
    }
  }

  lemma NothingAtStart()
    ensures BreaksRead(START) == 0
  {
  }

  // ---------- The parser ----------

  function FieldBreaks(field: Option<string>): nat {
    if field.Some? then Breaks(field.value) else 0
  }

  /** Line breaks in all fields but those of a quick command. */
  function RequestBreaks(c: Cli): nat {
    FieldBreaks(c.url) + FieldBreaks(c.requestMethod) + FieldBreaks(c.body) + AllBreaks(c.forms) + AllBreaks(c.headers)
    + FieldBreaks(c.certificatePath) + FieldBreaks(c.authority) + FieldBreaks(c.userAgent) + FieldBreaks(c.cookie)
    + FieldBreaks(c.referer) + FieldBreaks(c.outputFile) + FieldBreaks(c.uploadFile) + FieldBreaks(c.quote)
    + FieldBreaks(c.range)
  }

  lemma SetValueBreaks(c: Cli, o: ValueOption, v: string)
    requires SetValue(c, o, v).Ok?
    ensures RequestBreaks(SetValue(c, o, v).value) == RequestBreaks(c) + Breaks(v)
  {
    hide Breaks, AllBreaks;
    if IsSingle(o) {
      FieldIsSet(c, o, v);
    } else {
      AllBreaksSnoc(c.forms, v);
      AllBreaksSnoc(c.headers, v);
    }
  }

  lemma FieldIsSet(c: Cli, o: ValueOption, v: string)
    requires IsSingle(o) && FieldOf(c, o).None?
    ensures RequestBreaks(WithField(c, o, Some(v))) == RequestBreaks(c) + Breaks(v)
  {
    hide Breaks, AllBreaks;
  }

  lemma SuffixBreaks(s: string, n: nat)
    requires n <= |s|
    ensures Breaks(s[n..]) <= Breaks(s)
  {
    assert s == s[..n] + s[n..];
  }

  lemma {:induction false} ClusterMakesNoBreak(c: Cli, letters: string)
    requires Cluster(c, letters).Ok?
    ensures RequestBreaks(Cluster(c, letters).value.cli) <= RequestBreaks(c) + Breaks(letters)
    decreases |letters|
  {
    hide Breaks;
    if letters != "" {
      FirstBreak(letters);
      match KeyOfLetter(letters[0])
      case Some(FlagKey(f)) => ClusterMakesNoBreak(SetFlag(c, f).value, letters[1..]);
      case Some(VerboseKey) => ClusterMakesNoBreak(CountVerbose(c), letters[1..]);
      case Some(ValueKey(o)) =>
        if |letters| > 1 {
          SuffixBreaks(letters, 1);
          SuffixBreaks(letters, 2);
          SetValueBreaks(c, o, if letters[1] == '=' then letters[2..] else letters[1..]);
        }
      case _ =>
    }
  }

  lemma FlagsHaveNoBreak(c: Cli)
    ensures RequestBreaks(CountVerbose(c)) == RequestBreaks(c)
    ensures forall f | f !in c.flags :: RequestBreaks(SetFlag(c, f).value) == RequestBreaks(c)
  {
    hide Breaks, AllBreaks;
  }

  lemma LongOptionMakesNoBreak(c: Cli, text: string)
    requires LongOption(c, text).Ok?
    ensures RequestBreaks(LongOption(c, text).value.cli) <= RequestBreaks(c) + Breaks(text)
  {
    hide Breaks, KeyOfName, Text.IndexOf, RequestBreaks, SetValue;
    FlagsHaveNoBreak(c);
    if KeyOfName(text).None? {
      var n := Text.IndexOf(text, '=');
      SuffixBreaks(text, n + 1);
      match KeyOfName(text[..n])
      case Some(ValueKey(o)) => SetValueBreaks(c, o, text[n + 1..]);
      case _ =>
    }
  }

  lemma OptionMakesNoBreak(c: Cli, token: string)
    requires IsHyphenated(token) && OptionToken(c, token).Ok?
    ensures RequestBreaks(OptionToken(c, token).value.cli) <= RequestBreaks(c) + Breaks(token)
  {
    hide Breaks, RequestBreaks, LongOption, Cluster;
    SuffixBreaks(token, 1);
    SuffixBreaks(token, 2);
    if token[1] == '-' {
      LongOptionMakesNoBreak(c, token[2..]);
    } else {
      ClusterMakesNoBreak(c, token[1..]);
    }
  }

  lemma {:induction false} PositionalsMakeNoBreak(c: Cli, tokens: seq<string>)
    requires Positionals(c, tokens).Ok?
    ensures RequestBreaks(Positionals(c, tokens).value) <= RequestBreaks(c) + AllBreaks(tokens)
    decreases |tokens|
  {
    hide Breaks;
    if tokens != [] {
      PositionalsMakeNoBreak(Positional(c, tokens[0]).value, tokens[1..]);
    }
  }

  lemma PositionalBreaks(c: Cli, token: string)
    requires Positional(c, token).Ok?
    ensures RequestBreaks(Positional(c, token).value) == RequestBreaks(c) + Breaks(token)
  {
    hide Breaks, AllBreaks;
  }

  lemma {:induction false} ParseMakesNoBreak(st: Progress, tokens: seq<string>)
    requires Parse(st, tokens).Ok? && Parse(st, tokens).value.quick.None?
    ensures RequestBreaks(Parse(st, tokens).value) <= RequestBreaks(st.cli) + AllBreaks(tokens)
    decreases |tokens|
  {
    hide Breaks, RequestBreaks, SetValue, OptionToken, Positional, Positionals;
    if tokens != [] {
      var token, rest := tokens[0], tokens[1..];
      if st.pending.Some? {
        SetValueBreaks(st.cli, st.pending.value, token);
        ParseMakesNoBreak(Progress(SetValue(st.cli, st.pending.value, token).value, None), rest);
      } else if token == "--" {
        PositionalsMakeNoBreak(st.cli, rest);
      } else if IsHyphenated(token) {
        OptionMakesNoBreak(st.cli, token);
        ParseMakesNoBreak(OptionToken(st.cli, token).value, rest);
      } else {
        PositionalBreaks(st.cli, token);
        ParseMakesNoBreak(Progress(Positional(st.cli, token).value, None), rest);
      }
    }
  }

  lemma CommandLineMakesNoBreak(words: seq<string>)
    requires ParseCommandLine(words).Ok? && ParseCommandLine(words).value.quick.None?
    ensures RequestBreaks(ParseCommandLine(words).value) <= AllBreaks(words)
  {
    hide Parse;
    if words != [] {
      ParseMakesNoBreak(Progress(DEFAULT_CLI, None), words[1..]);
    }
  }

  // ---------- The printer ----------

  lemma {:induction false} QuoteBreaks(s: string)
    ensures Breaks(Escape(s)) == Breaks(s)
    ensures Breaks(Quote(s)) == Breaks(s)
    decreases |s|
  {
    if s != "" {
      QuoteBreaks(s[1..]);
      FirstBreak(s);
    }
  }

  lemma ApplyBreaks(c: Cli, a: Arg)
    requires Apply(c, a).Ok?
    ensures RequestBreaks(Apply(c, a).value) == RequestBreaks(c) + Breaks(ArgText(a))
  {
    hide AllBreaks;
    match a
    case Valued(o, v) =>
      SetValueBreaks(c, o, v);
      ValuedBreaks(o, v);
    case Switched(f) => FlagHasNoBreak(f);
    case Verbose =>
  }

  lemma FlagHasNoBreak(f: Flag)
    ensures Breaks(ArgText(Switched(f))) == 0
  {
    hide FlagText;
    FlagTextIsPlain(f);
    BreaksConcat(" ", FlagText(f));
    assert '\n' !in FlagText(f);
  }

  lemma ValuedBreaks(o: ValueOption, v: string)
    ensures Breaks(ArgText(Valued(o, v))) == Breaks(v)
  {
    hide Quote;
    ArgTextSplits(o, v);
    QuoteBreaks(v);
    BreaksConcat(" " + ['-', LetterOf(o)], " " + if o == Request then v else Quote(v));
  }

  lemma {:induction false} ApplyAllBreaks(c: Cli, args: seq<Arg>)
    requires ApplyAll(c, args).Ok?
    ensures RequestBreaks(ApplyAll(c, args).value) == RequestBreaks(c) + Breaks(ArgsText(args))
  {
    hide Apply, ArgText, RequestBreaks;
    if args != [] {
      var n := |args| - 1;
      ApplyAllBreaks(c, args[..n]);
      ApplyBreaks(ApplyAll(c, args[..n]).value, args[n]);
    }
  }

  /** A printed request has the line breaks of its fields and no others. */
  lemma PrintedBreaks(c: Cli)
    requires c.quick.None?
    ensures Breaks(CommandText(c)) == RequestBreaks(c)
  {
    UrlBreaks(c);
    hide ArgsText, ArgsOf, RequestBreaks;
    RebuildsOptions(c);
    assert Breaks(PROGRAM) == 0;
    NoBreaksByDefault();
    ApplyAllBreaks(DEFAULT_CLI, ArgsOf(c));
    BreaksConcat(PROGRAM, ArgsText(ArgsOf(c)));
    BreaksConcat(PROGRAM + ArgsText(ArgsOf(c)), UrlText(c.url));
  }

  lemma UrlBreaks(c: Cli)
    ensures RequestBreaks(c) == RequestBreaks(c.(url := None)) + Breaks(UrlText(c.url))
  {
    hide AllBreaks;
  }

  lemma NoBreaksByDefault()
    ensures RequestBreaks(DEFAULT_CLI) == 0
  {
  }

  /** On a line that gives its request back, no line break ends a comment. */
  lemma ReplayKeepsBreaks(c: Cli)
    requires c.quick.None? && Replay(CommandText(c)) == Ok(c)
    ensures CommentsRunOn(START, CommandText(c))
  {
    hide CommandText, RequestBreaks, Breaks, AllBreaks, ParseCommandLine, CommentsRunOn;
    PrintedBreaks(c);
    CommandLineMakesNoBreak(Split(CommandText(c)).value);
    SplitKeepsBreaks(CommandText(c));
  }

  /** Comments that run on in a line do so in its last stretch. */
  lemma CommentsRunOnAfter(before: string, text: string)
    requires CommentsRunOn(START, before + text)
    ensures CommentsRunOn(Run(START, before), text)
  {
    var line := before + text;
    forall p | 0 <= p <= |text| && Run(Run(START, before), text[..p]).mode == Comment
      ensures '\n' !in text[p..]
    {
      var q := |before| + p;
      assert line[..q] == before + text[..p] && line[q..] == text[p..];
      RunConcat(START, before, text[..p]);
    }
  }
}
