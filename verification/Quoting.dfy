/** The splitter's rules, one by one, as section 2.2 (Quoting) of the POSIX.1-2017 Shell Command
    Language has them: stated on whole lines and character by character. */
module Quoting {
  import opened Outcomes
  import opened ShellWords

  /** Reading one character between two stretches of text. */
  lemma Feed(st: Config, a: string, c: char, b: string)
    ensures Run(st, a + [c] + b) == Run(Step(Run(st, a), c), b)
    ensures Run(st, [c] + b) == Run(Step(st, c), b)
    ensures Run(st, a + [c]) == Step(Run(st, a), c)
  {
    hide Step;
    assert a + [c] + b == a + ([c] + b);
    RunConcat(st, a, [c] + b);
    RunConcat(st, a, [c]);
    RunOne(Run(st, a), c);
    assert ([c] + b)[0] == c && ([c] + b)[1..] == b;
  }

  /** The characters with a meaning: three blanks, two quotes and the backslash; and the hash where a
      word begins. */
  lemma PlainExactly(s: string)
    ensures AllPlain(s) <==> forall i | 0 <= i < |s| :: s[i] !in [' ', '\t', '\n', '\'', '"', '\\']
    ensures IsPlainWord(s) <==>
            && s != "" && s[0] != '#'
            && forall i | 0 <= i < |s| :: s[i] !in [' ', '\t', '\n', '\'', '"', '\\']
    ensures IsPlainEnding(s) <==>
            && s != "" && s[0] != '#' && s[|s| - 1] !in [' ', '\t', '\n', '\'', '"']
            && forall i | 0 <= i < |s| - 1 :: s[i] !in [' ', '\t', '\n', '\'', '"', '\\']
  {
  }

  lemma ReadPlain(words: seq<string>, s: string)
    requires IsPlainWord(s)
    ensures Run(Config(Delimiter, "", words), s) == Config(Unquoted, s, words)
  {
    RunPlain(Config(Delimiter, "", words), s);
    assert "" + s == s;
  }

  lemma ReadOne(words: seq<string>, s: string)
    requires IsPlainWord(s)
    ensures Finish(Run(Config(Delimiter, "", words), s)) == Ok(words + [s])
  {
    hide IsPlainWord;
    ReadPlain(words, s);
  }

  lemma BlankEnds(words: seq<string>, a: string, c: char, rest: string)
    requires IsPlainWord(a) && c in [' ', '\t', '\n']
    ensures Run(Config(Delimiter, "", words), a + [c] + rest) == Run(Config(Delimiter, "", words + [a]), rest)
  {
    hide IsPlainWord;
    ReadPlain(words, a);
    Feed(Config(Delimiter, "", words), a, c, rest);
  }

  lemma BlankIsSkipped(words: seq<string>, c: char, rest: string)
    requires c in [' ', '\t', '\n']
    ensures Run(Config(Delimiter, "", words), [c] + rest) == Run(Config(Delimiter, "", words), rest)
  {
    Feed(Config(Delimiter, "", words), "", c, rest);
  }

  /** Blanks separate words, and nothing else is made of them. */
  lemma BlanksSeparate(a: string, b: string, c: char, d: char)
    requires IsPlainWord(a) && IsPlainWord(b) && c in [' ', '\t', '\n'] && d in [' ', '\t', '\n']
    ensures Split("") == Ok([]) && Split(a) == Ok([a])
    ensures Split(a + [c] + b) == Ok([a, b])
    ensures Split([c] + a) == Ok([a]) && Split(a + [c] + "") == Ok([a])
    ensures Split(a + [c] + ([d] + b)) == Ok([a, b])
  {
    NothingToSplit();
    hide IsPlainWord, Run, Step, Finish;
    var none: seq<string> := [];
    assert none + [a] == [a] && [a] + [b] == [a, b];
    ReadOne(none, a);
    ReadOne([a], b);
    BlankEnds(none, a, c, b);
    BlankEnds(none, a, c, "");
    BlankEnds(none, a, c, [d] + b);
    BlankIsSkipped(none, c, a);
    BlankIsSkipped([a], d, b);
  }

  lemma NothingToSplit()
    ensures forall words :: Finish(Run(Config(Delimiter, "", words), "")) == Ok(words)
  {
  }

  lemma {:induction false} InSingleQuotes(word: string, words: seq<string>, s: string)
    requires '\'' !in s
    ensures Run(Config(SingleQuoted, word, words), s) == Config(SingleQuoted, word + s, words)
    decreases |s|
  {
    if s == "" {
      assert word + s == word;
    } else {
      InSingleQuotes(word + [s[0]], words, s[1..]);
      assert word + [s[0]] + s[1..] == word + s;
    }
  }

  lemma {:induction false} InDoubleQuotes(word: string, words: seq<string>, s: string)
    requires '"' !in s && '\\' !in s
    ensures Run(Config(DoubleQuoted, word, words), s) == Config(DoubleQuoted, word + s, words)
    decreases |s|
  {
    if s == "" {
      assert word + s == word;
    } else {
      InDoubleQuotes(word + [s[0]], words, s[1..]);
      assert word + [s[0]] + s[1..] == word + s;
    }
  }

  /** From inside quotes to the end of the line: the closing quote and plain text behind it. */
  lemma ClosedBy(st: Config, s: string, quote: char, b: string, mode: Mode)
    requires (mode == SingleQuoted && quote == '\'') || (mode == DoubleQuoted && quote == '"')
    requires Run(st, s).mode == mode && AllPlain(b)
    ensures Finish(Run(st, s + [quote] + b)) == Ok(Run(st, s).words + [Run(st, s).word + b])
    ensures Finish(Run(st, s)) == Err(UnclosedQuote)
  {
    Feed(st, s, quote, b);
    RunPlain(Step(Run(st, s), quote), b);
  }

  /** Single quotes keep everything up to the next one, join what stands before and behind, and must
      be closed. */
  lemma SingleQuotesKeep(a: string, s: string, b: string)
    requires (a == "" || IsPlainWord(a)) && '\'' !in s && AllPlain(b)
    ensures Split(a + ['\''] + (s + ['\''] + b)) == Ok([a + s + b])
    ensures Split(a + ['\''] + s) == Err(UnclosedQuote)
  {
    hide IsPlainWord;
    var open := Config(SingleQuoted, a, []);
    if a != "" {
      ReadPlain([], a);
    }
    Feed(START, a, '\'', s + ['\''] + b);
    Feed(START, a, '\'', s);
    InSingleQuotes(a, [], s);
    ClosedBy(open, s, '\'', b, SingleQuoted);
    assert [] + [a + s + b] == [a + s + b];
  }

  /** Double quotes do the same, except for the backslash. */
  lemma DoubleQuotesKeep(a: string, s: string, b: string)
    requires (a == "" || IsPlainWord(a)) && '"' !in s && '\\' !in s && AllPlain(b)
    ensures Split(a + ['"'] + (s + ['"'] + b)) == Ok([a + s + b])
    ensures Split(a + ['"'] + s) == Err(UnclosedQuote)
    ensures Split(a + ['"'] + (s + ['\\'])) == Err(UnclosedQuote)
  {
    hide IsPlainWord;
    var open := Config(DoubleQuoted, a, []);
    if a != "" {
      ReadPlain([], a);
    }
    Feed(START, a, '"', s + ['"'] + b);
    Feed(START, a, '"', s);
    Feed(START, a, '"', s + ['\\']);
    InDoubleQuotes(a, [], s);
    Feed(open, s, '\\', "");
    ClosedBy(open, s, '"', b, DoubleQuoted);
    assert [] + [a + s + b] == [a + s + b];
  }

  /** Inside double quotes a backslash escapes the dollar, the backquote, the double quote and itself;
      with a line break it disappears; before anything else it stays. */
  lemma BackslashInDoubleQuotes(s: string, c: char, t: string)
    requires '"' !in s && '\\' !in s && '"' !in t && '\\' !in t
    ensures Split(['"'] + (s + ['\\'] + ([c] + (t + ['"'])))) ==
            Ok([s + (if c in ['$', '`', '"', '\\'] then [c] else if c == '\n' then "" else ['\\', c]) + t])
  {
    var open := Config(DoubleQuoted, "", []);
    var kept := if c in ['$', '`', '"', '\\'] then [c] else if c == '\n' then "" else ['\\', c];
    var rest := t + ['"'];
    Feed(START, "", '"', s + ['\\'] + ([c] + rest));
    InDoubleQuotes("", [], s);
    assert "" + s == s;
    Feed(open, s, '\\', [c] + rest);
    Feed(Config(DoubleQuotedBackslash, s, []), "", c, rest);
    assert Step(Config(DoubleQuotedBackslash, s, []), c) == Config(DoubleQuoted, s + kept, []);
    InDoubleQuotes(s + kept, [], t);
    ClosedBy(Config(DoubleQuoted, s + kept, []), t, '"', "", DoubleQuoted);
    assert t + ['"'] + "" == rest && s + kept + t + "" == s + kept + t;
    assert [] + [s + kept + t] == [s + kept + t];
  }

  /** Outside quotes it escapes any character; with a line break it disappears; at the end of the
      line it stays. */
  lemma BackslashInWord(a: string, c: char, b: string)
    requires IsPlainWord(a) && AllPlain(b)
    ensures Split(a + ['\\'] + ([c] + b)) == Ok([a + (if c == '\n' then "" else [c]) + b])
    ensures Split(a + ['\\']) == Ok([a + "\\"])
  {
    hide IsPlainWord;
    var kept := if c == '\n' then "" else [c];
    ReadPlain([], a);
    Feed(START, a, '\\', [c] + b);
    Feed(Config(UnquotedBackslash, a, []), "", c, b);
    assert a + "" == a;
    assert Step(Config(UnquotedBackslash, a, []), c) == Config(Unquoted, a + kept, []);
    RunPlain(Config(Unquoted, a + kept, []), b);
    assert [] + [a + kept + b] == [a + kept + b] && [] + [a + "\\"] == [a + "\\"];
  }

  /** The same where no word has begun: an escaped character begins one, an escaped line break does
      not. */
  lemma BackslashBetweenWords(c: char, b: string)
    requires AllPlain(b)
    ensures c != '\n' ==> Split(['\\'] + ([c] + b)) == Ok([[c] + b])
    ensures c == '\n' ==> Split(['\\'] + ([c] + b)) == Split(b)
    ensures Split(['\\']) == Ok(["\\"])
  {
    Feed(START, "", '\\', [c] + b);
    Feed(Config(Backslash, "", []), "", c, b);
    if c != '\n' {
      assert "" + [c] == [c];
      RunPlain(Config(Unquoted, [c], []), b);
      assert [] + [[c] + b] == [[c] + b];
    }
    RunOne(START, '\\');
    var none: seq<string> := [];
    assert "" + "\\" == "\\" && none + ["\\"] == ["\\"];
  }

  lemma {:induction false} InComment(words: seq<string>, s: string)
    requires '\n' !in s
    ensures Run(Config(Comment, "", words), s) == Config(Comment, "", words)
    decreases |s|
  {
    if s != "" {
      InComment(words, s[1..]);
    }
  }

  lemma HashHides(words: seq<string>, s: string, rest: string)
    requires '\n' !in s
    ensures Finish(Run(Config(Delimiter, "", words), ['#'] + s)) == Ok(words)
    ensures Run(Config(Delimiter, "", words), ['#'] + (s + ['\n'] + rest)) == Run(Config(Delimiter, "", words), rest)
  {
    var st := Config(Delimiter, "", words);
    InComment(words, s);
    Feed(st, "", '#', s);
    Feed(st, "", '#', s + ['\n'] + rest);
    Feed(Config(Comment, "", words), s, '\n', rest);
  }

  /** Where a word may begin, a hash hides the rest of its line, and only that. */
  lemma CommentsHide(a: string, s: string, b: string)
    requires IsPlainWord(a) && IsPlainWord(b) && '\n' !in s
    ensures Split(['#'] + s) == Ok([])
    ensures Split(a + [' '] + (['#'] + s)) == Ok([a])
    ensures Split(a + [' '] + (['#'] + (s + ['\n'] + b))) == Ok([a, b])
  {
    hide IsPlainWord, Run, Step, Finish;
    var none: seq<string> := [];
    assert none + [a] == [a] && [a] + [b] == [a, b];
    HashHides(none, s, b);
    HashHides([a], s, b);
    BlankEnds(none, a, ' ', ['#'] + s);
    BlankEnds(none, a, ' ', ['#'] + (s + ['\n'] + b));
    ReadOne([a], b);
  }
}
