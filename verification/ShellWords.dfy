/** The word splitter that interactive mode applies to a stored history line: a character
    state machine following section 2.2 (Quoting) of the POSIX.1-2017 Shell Command Language. */
module ShellWords {
  import opened Outcomes

  datatype Mode =
    | Delimiter
    | Backslash
    | Unquoted
    | UnquotedBackslash
    | SingleQuoted
    | DoubleQuoted
    | DoubleQuotedBackslash
    | Comment

  datatype SplitError = UnclosedQuote

  /** The mode, the word being collected and the words already finished. */
  datatype Config = Config(mode: Mode, word: string, words: seq<string>)

  const START := Config(Delimiter, "", [])

  predicate IsBlank(c: char) {
    c == ' ' || c == '\t' || c == '\n'
  }

  function Step(st: Config, c: char): Config {
    match st.mode
    case Delimiter =>
      if c == '\'' then st.(mode := SingleQuoted)
      else if c == '"' then st.(mode := DoubleQuoted)
      else if c == '\\' then st.(mode := Backslash)
      else if IsBlank(c) then st
      else if c == '#' then st.(mode := Comment)
      else st.(mode := Unquoted, word := st.word + [c])
    case Backslash =>
      if c == '\n' then st.(mode := Delimiter)
      else st.(mode := Unquoted, word := st.word + [c])
    case Unquoted =>
      if c == '\'' then st.(mode := SingleQuoted)
      else if c == '"' then st.(mode := DoubleQuoted)
      else if c == '\\' then st.(mode := UnquotedBackslash)
      else if IsBlank(c) then Config(Delimiter, "", st.words + [st.word])
      else st.(word := st.word + [c])
    case UnquotedBackslash =>
      if c == '\n' then st.(mode := Unquoted)
      else st.(mode := Unquoted, word := st.word + [c])
    case SingleQuoted =>
      if c == '\'' then st.(mode := Unquoted)
      else st.(word := st.word + [c])
    case DoubleQuoted =>
      if c == '"' then st.(mode := Unquoted)
      else if c == '\\' then st.(mode := DoubleQuotedBackslash)
      else st.(word := st.word + [c])
    case DoubleQuotedBackslash =>
      if c == '\n' then st.(mode := DoubleQuoted)
      else if c == '$' || c == '`' || c == '"' || c == '\\' then
        st.(mode := DoubleQuoted, word := st.word + [c])
      else st.(mode := DoubleQuoted, word := st.word + ['\\', c])
    case Comment =>
      if c == '\n' then st.(mode := Delimiter) else st
  }

  function Run(st: Config, s: string): Config
    decreases |s|
  {
    if s == "" then st else Run(Step(st, s[0]), s[1..])
  }

  /** What the end of the input does in each mode. */
  function Finish(st: Config): Result<seq<string>, SplitError> {
    match st.mode
    case Delimiter | Comment => Ok(st.words)
    case Unquoted => Ok(st.words + [st.word])
    case Backslash | UnquotedBackslash => Ok(st.words + [st.word + "\\"])
    case SingleQuoted | DoubleQuoted | DoubleQuotedBackslash => Err(UnclosedQuote)
  }

  function Split(s: string): Result<seq<string>, SplitError> {
    Finish(Run(START, s))
  }

  lemma {:induction false} RunConcat(st: Config, a: string, b: string)
    ensures Run(st, a + b) == Run(Run(st, a), b)
    decreases |a|
  {
    if a == "" {
      assert a + b == b;
    } else {
      assert (a + b)[0] == a[0] && (a + b)[1..] == a[1..] + b;
      RunConcat(Step(st, a[0]), a[1..], b);
    }
  }

  // ---------- Quoted words ----------

  /** The printer's replacement of each `'` by `'\''`. */
  function Escape(s: string): string {
    if s == "" then ""
    else (if s[0] == '\'' then "'\\''" else [s[0]]) + Escape(s[1..])
  }

  function Quote(s: string): string {
    "'" + Escape(s) + "'"
  }

  lemma {:induction false} RunEscaped(word: string, words: seq<string>, s: string)
    ensures Run(Config(SingleQuoted, word, words), Escape(s)) == Config(SingleQuoted, word + s, words)
    decreases |s|
  {
    var st := Config(SingleQuoted, word, words);
    if s == "" {
      assert word + s == word;
    } else {
      var head := if s[0] == '\'' then "'\\''" else [s[0]];
      RunConcat(st, head, Escape(s[1..]));
      RunHead(st, s[0]);
      RunEscaped(word + [s[0]], words, s[1..]);
      assert word + [s[0]] + s[1..] == word + s;
    }
  }

  lemma RunHead(st: Config, c: char)
    requires st.mode == SingleQuoted
    ensures Run(st, if c == '\'' then "'\\''" else [c]) == st.(word := st.word + [c])
  {
    if c == '\'' {
      var s1 := Step(st, '\'');
      var s2 := Step(s1, '\\');
      var s3 := Step(s2, '\'');
      assert "'\\''"[1..] == "\\''" && "\\''"[1..] == "''" && "''"[1..] == "'" && "'"[1..] == "";
      assert Run(s3, "'") == Step(s3, '\'');
      assert Run(s2, "''") == Run(s3, "'");
      assert Run(s1, "\\''") == Run(s2, "''");
      assert Run(st, "'\\''") == Run(s1, "\\''");
    } else {
      assert [c][1..] == "";
      assert Run(st, [c]) == Run(Step(st, c), "");
    }
  }

  /** A quoted string appends exactly its contents to the word being read. */
  lemma RunQuoted(st: Config, s: string)
    requires st.mode in {Delimiter, Unquoted}
    ensures Run(st, Quote(s)) == Config(Unquoted, st.word + s, st.words)
  {
    var open := st.(mode := SingleQuoted);
    assert Quote(s)[0] == '\'' && Quote(s)[1..] == Escape(s) + "'";
    assert Run(st, Quote(s)) == Run(open, Escape(s) + "'");
    RunConcat(open, Escape(s), "'");
    RunEscaped(st.word, st.words, s);
    var closed := Config(SingleQuoted, st.word + s, st.words);
    assert Run(closed, "'") == Run(Step(closed, '\''), "'"[1..]);
  }

  /** After any text that ends between words, a quoted string is read back as one word, whatever
      it contains, and its quotes are closed. */
  lemma QuotedWordIsOneWord(before: string, s: string)
    requires Run(START, before).mode == Delimiter && Run(START, before).word == ""
    ensures Split(before).Ok?
    ensures Split(before + Quote(s)) == Ok(Split(before).value + [s])
  {
    RunConcat(START, before, Quote(s));
    RunQuoted(Run(START, before), s);
    assert "" + s == s;
  }

  // ---------- Bare words ----------

  predicate IsPlainChar(c: char) {
    !IsBlank(c) && c != '\'' && c != '"' && c != '\\'
  }

  predicate AllPlain(s: string) {
    forall i | 0 <= i < |s| :: IsPlainChar(s[i])
  }

  /** A string that survives without quotes in the middle of a line. */
  predicate IsPlainWord(s: string) {
    s != "" && s[0] != '#' && AllPlain(s)
  }

  /** A string that survives without quotes at the end of a line: there, a final lone
      backslash is kept. */
  predicate IsPlainEnding(s: string) {
    s != "" && s[0] != '#' && PlainToLast(s)
  }

  predicate PlainToLast(s: string)
    requires s != ""
  {
    && (forall i | 0 <= i < |s| - 1 :: IsPlainChar(s[i]))
    && (IsPlainChar(s[|s| - 1]) || s[|s| - 1] == '\\')
  }

  lemma {:induction false} RunPlain(st: Config, s: string)
    requires AllPlain(s)
    requires st.mode == Unquoted || (st.mode == Delimiter && s != "" && s[0] != '#')
    ensures Run(st, s) == Config(Unquoted, st.word + s, st.words)
    decreases |s|
  {
    if s == "" {
      assert st.word + s == st.word;
    } else {
      RunPlain(Step(st, s[0]), s[1..]);
      assert st.word + [s[0]] + s[1..] == st.word + s;
    }
  }

  lemma RunBlank(st: Config)
    requires st.mode == Unquoted
    ensures Run(st, " ") == Config(Delimiter, "", st.words + [st.word])
  {
    assert " "[1..] == "";
    assert Run(st, " ") == Run(Step(st, ' '), "");
  }

  /** Reading an ending word finishes the line with that word. */
  lemma RunEnding(words: seq<string>, s: string)
    requires IsPlainEnding(s)
    ensures Finish(Run(Config(Delimiter, "", words), s)) == Ok(words + [s])
  {
    var st := Config(Delimiter, "", words);
    var n := |s| - 1;
    var body, c := s[..n], s[n];
    assert s == body + [c];
    RunConcat(st, body, [c]);
    if body == "" {
      RunOne(st, c);
      assert s == [c];
    } else {
      RunPlain(st, body);
      assert "" + body == body;
      RunOne(Config(Unquoted, body, words), c);
    }
  }

  lemma RunOne(st: Config, c: char)
    ensures Run(st, [c]) == Step(st, c)
  {
    assert [c][1..] == "";
  }

  // ---------- Nothing is invented: the character budget ----------

  function Total(words: seq<string>): nat {
    if words == [] then 0 else Total(words[..|words| - 1]) + |words[|words| - 1]|
  }

  lemma TotalSnoc(words: seq<string>, w: string)
    ensures Total(words + [w]) == Total(words) + |w|
  {
    assert (words + [w])[..|words|] == words;
  }

  lemma {:induction false} MemberFits(words: seq<string>, w: string)
    requires w in words
    ensures |w| <= Total(words)
  {
    var n := |words| - 1;
    if w != words[n] {
      assert words == words[..n] + [words[n]];
      MemberFits(words[..n], w);
    }
  }

  /** Characters collected so far, counting a backslash that may still turn into one. */
  function Kept(st: Config): nat {
    Total(st.words) + |st.word|
    + if st.mode in {Backslash, UnquotedBackslash, DoubleQuotedBackslash} then 1 else 0
  }

  lemma StepKeepsBudget(st: Config, c: char)
    ensures Kept(Step(st, c)) <= Kept(st) + 1
  {
    hide Total;
    TotalSnoc(st.words, st.word);
  }

  lemma {:induction false} RunKeepsBudget(st: Config, s: string)
    ensures Kept(Run(st, s)) <= Kept(st) + |s|
    decreases |s|
  {
    if s != "" {
      StepKeepsBudget(st, s[0]);
      RunKeepsBudget(Step(st, s[0]), s[1..]);
    }
  }

  lemma FinishKeepsBudget(st: Config)
    requires Finish(st).Ok?
    ensures Total(Finish(st).value) <= Kept(st)
  {
    TotalSnoc(st.words, st.word);
    TotalSnoc(st.words, st.word + "\\");
  }

  /** A backslash that is not the last character is consumed for good. */
  lemma BackslashLoses(st: Config, s: string)
    requires st.mode in {Delimiter, Unquoted} && |s| > 1 && s[0] == '\\'
    ensures Kept(Run(st, s)) < Kept(st) + |s|
  {
    var next := Step(st, s[0]);
    var after := Step(next, s[1]);
    assert Run(next, s[1..]) == Run(after, s[1..][1..]);
    RunKeepsBudget(after, s[1..][1..]);
  }

  lemma SpecialCharLoses(st: Config, c: char)
    requires st.mode == Unquoted && !IsPlainChar(c) && c != '\\'
    ensures Kept(Step(st, c)) == Kept(st)
  {
    TotalSnoc(st.words, st.word);
  }

  /** From inside a bare word, a run that loses no character read only plain ones, except that
      the last may be a backslash. */
  lemma {:induction false} LosslessTail(st: Config, s: string)
    requires st.mode == Unquoted && s != ""
    requires Kept(Run(st, s)) >= Kept(st) + |s|
    ensures PlainToLast(s)
    decreases |s|
  {
    if |s| > 1 && s[0] == '\\' {
      BackslashLoses(st, s);
    } else {
      var next := Step(st, s[0]);
      RunKeepsBudget(next, s[1..]);
      if !IsPlainChar(s[0]) && s[0] != '\\' {
        SpecialCharLoses(st, s[0]);
        assert false;
      }
      if |s| > 1 {
        assert Kept(next) == Kept(st) + 1;
        LosslessTail(next, s[1..]);
        assert forall i | 1 <= i < |s| :: s[i] == s[1..][i - 1];
      }
    }
  }

  /** If reading a line's last stretch yields that very stretch among its words, the stretch is
      an ending word; with `RunEnding`, a last word may go unquoted exactly then. */
  lemma WordOfItself(words: seq<string>, tail: seq<string>, s: string)
    requires Finish(Run(Config(Delimiter, "", words), s)) == Ok(words + tail)
    requires s in tail
    ensures IsPlainEnding(s)
  {
    var st := Config(Delimiter, "", words);
    MemberFits(tail, s);
    TotalConcat(words, tail);
    FinishKeepsBudget(Run(st, s));
    assert Kept(Run(st, s)) >= Kept(st) + |s|;
    if s == "" {
      assert false;
    } else if |s| > 1 && s[0] == '\\' {
      BackslashLoses(st, s);
    } else {
      var next := Step(st, s[0]);
      RunKeepsBudget(next, s[1..]);
      if |s| > 1 {
        LosslessTail(next, s[1..]);
        assert forall i | 1 <= i < |s| :: s[i] == s[1..][i - 1];
      }
    }
  }

  lemma {:induction false} TotalConcat(a: seq<string>, b: seq<string>)
    ensures Total(a + b) == Total(a) + Total(b)
  {
    if b == [] {
      assert a + b == a;
    } else {
      var n := |b| - 1;
      assert a + b == (a + b[..n]) + [b[n]];
      TotalSnoc(a + b[..n], b[n]);
      TotalConcat(a, b[..n]);
    }
  }

  /** Finished words are never taken back. */
  lemma {:induction false} RunExtends(st: Config, s: string)
    ensures st.words <= Run(st, s).words
    decreases |s|
  {
    if s != "" {
      RunExtends(Step(st, s[0]), s[1..]);
    }
  }

  /** The words already finished do not influence how the rest is read. */
  lemma {:induction false} RunIgnoresWords(mode: Mode, word: string, a: seq<string>, b: seq<string>, s: string)
    ensures var end := Run(Config(mode, word, b), s);
            Run(Config(mode, word, a + b), s) == end.(words := a + end.words)
    decreases |s|
  {
    if s != "" {
      var next := Step(Config(mode, word, b), s[0]);
      assert a + (b + [word]) == a + b + [word];
      assert Step(Config(mode, word, a + b), s[0]) == next.(words := a + next.words);
      RunIgnoresWords(next.mode, next.word, a, next.words, s[1..]);
    }
  }
}
