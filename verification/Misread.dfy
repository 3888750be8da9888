/** How a bare string goes wrong: what the first word read can be when the string printed there is
    not a plain word. */
module Misread {
  import opened Outcomes
  import opened ShellWords
  import opened BareWords

  /** Characters consumed without output that the mode alone accounts for. */
  function Slack(mode: Mode): nat {
    match mode
    case SingleQuoted | DoubleQuoted | Backslash | UnquotedBackslash => 1
    case DoubleQuotedBackslash => 2
    case _ => 0
  }

  lemma StepLags(st: Config, c: char)
    ensures |Step(st, c).word| + Slack(Step(st, c).mode) <= |st.word| + Slack(st.mode) + 1
  {
  }

  /** Inside quotes or after a backslash, the word lags behind the text. */
  lemma {:induction false} RunLags(st: Config, s: string)
    ensures |Run(st, s).word| + Slack(Run(st, s).mode) <= |st.word| + Slack(st.mode) + |s|
    decreases |s|
  {
    if s != "" {
      StepLags(st, s[0]);
      RunLags(Step(st, s[0]), s[1..]);
    }
  }

  /** The next word finished starts with the word in progress. */
  lemma {:induction false} WordGrows(st: Config, s: string, tail: seq<string>)
    requires st.mode in {Delimiter, Comment, Backslash} ==> st.word == ""
    requires Finish(Run(st, s)) == Ok(st.words + tail) && tail != []
    ensures st.word <= tail[0]
    decreases |s|
  {
    if s != "" {
      var next := Step(st, s[0]);
      if next.words == st.words {
        WordGrows(next, s[1..], tail);
      } else {
        var end := Run(next, s[1..]);
        RunExtends(next, s[1..]);
        assert end.words <= st.words + tail;
        assert next.words[|st.words|] == st.word;
        assert (st.words + tail)[|st.words|] == tail[0];
      }
    } else {
      assert (st.words + tail)[|st.words|] == tail[0];
    }
  }

  /** Words read after the last one finished are no longer than the text. */
  lemma RestCosts(next: Config, s: string, words: seq<string>, tail: seq<string>)
    requires next.words == words && next.word == "" && next.mode == Delimiter
    requires Finish(Run(next, s)) == Ok(words + tail)
    ensures Total(tail) <= |s|
  {
    hide Finish, Run, Total;
    TotalConcat(words, tail);
    RunKeepsBudget(next, s);
    FinishKeepsBudget(Run(next, s));
  }

  lemma StepFinishes(st: Config, c: char)
    ensures var next := Step(st, c);
            next.words == st.words ||
            (next.words == st.words + [st.word] && next.word == "" && next.mode == Delimiter)
  {
  }

  /** Everything after the next word costs at least the blank that ended it. */
  lemma {:induction false} LaterWordsCost(st: Config, s: string, tail: seq<string>)
    requires Finish(Run(st, s)) == Ok(st.words + tail) && |tail| >= 2
    ensures Total(tail[1..]) < |s|
    decreases |s|
  {
    if s == "" {
      assert false;
    } else {
      hide Finish, Step, Total;
      var next := Step(st, s[0]);
      StepFinishes(st, s[0]);
      if next.words == st.words {
        LaterWordsCost(next, s[1..], tail);
      } else {
        FirstFinished(next, s[1..], st.words, tail);
        assert st.words + tail == next.words + tail[1..];
        RestCosts(next, s[1..], next.words, tail[1..]);
      }
    }
  }

  lemma {:induction false} CommentNeedsNewline(st: Config, s: string)
    requires st.mode == Comment && '\n' !in s
    ensures Run(st, s) == st
    decreases |s|
  {
    if s != "" {
      CommentNeedsNewline(Step(st, s[0]), s[1..]);
    }
  }

  lemma NothingRead(st: Config, tail: seq<string>)
    requires st.mode == Comment && Finish(st) == Ok(st.words + tail)
    ensures tail == []
  {
    assert |st.words + tail| == |st.words|;
  }

  /** No line break ends a comment. */
  ghost predicate CommentsRunOn(st: Config, s: string) {
    forall p | 0 <= p <= |s| :: Run(st, s[..p]).mode == Comment ==> '\n' !in s[p..]
  }

  /** Where comments run on, nothing more is read once one is open. */
  lemma InsideComment(st: Config, before: string, after: string, tail: seq<string>)
    requires CommentsRunOn(st, before + after) && Run(st, before).mode == Comment
    requires Finish(Run(st, before + after)) == Ok(Run(st, before).words + tail)
    ensures tail == []
  {
    var s, end := before + after, Run(st, before);
    assert s[..|before|] == before && s[|before|..] == after;
    RunConcat(st, before, after);
    CommentNeedsNewline(end, after);
    NothingRead(end, tail);
  }

  /** The reading of `m` and then `rest` yields `m` first, but completes no word inside `m`. */
  ghost predicate ReadsItself(words: seq<string>, m: string, rest: string, tail: seq<string>) {
    var st := Config(Delimiter, "", words);
    && Finish(Run(st, m + rest)) == Ok(words + tail) && tail != [] && tail[0] == m
    && Run(st, m).words == words && CommentsRunOn(st, m + rest)
  }

  lemma StateInside(words: seq<string>, m: string, rest: string, tail: seq<string>, p: nat)
    requires ReadsItself(words, m, rest, tail) && p <= |m|
    ensures var sp := Run(Config(Delimiter, "", words), m[..p]);
            && sp.words == words && sp.mode != Comment
            && (sp.mode in {Delimiter, Backslash} ==> sp.word == "")
            && |sp.word| + Slack(sp.mode) <= p
            && Run(sp, m[p..]) == Run(Config(Delimiter, "", words), m)
            && Finish(Run(sp, m[p..] + rest)) == Ok(words + tail)
  {
    var st := Config(Delimiter, "", words);
    var sp := Run(st, m[..p]);
    assert m == m[..p] + m[p..] && m + rest == m[..p] + (m[p..] + rest);
    RunConcat(st, m[..p], m[p..]);
    RunConcat(st, m[..p], m[p..] + rest);
    RunExtends(st, m[..p]);
    RunExtends(sp, m[p..]);
    ModeMeans(st, m[..p]);
    RunLags(st, m[..p]);
    if sp.mode == Comment {
      InsideComment(st, m[..p], m[p..] + rest, tail);
    }
  }

  lemma StepsOverTwo(st: Config, after: string)
    ensures Run(st, " -" + after) == Run(Step(Step(st, ' '), '-'), after)
  {
    hide Step;
    assert (" -" + after)[0] == ' ' && (" -" + after)[1..] == "-" + after;
    assert ("-" + after)[0] == '-' && ("-" + after)[1..] == after;
    assert Run(st, " -" + after) == Run(Step(st, ' '), "-" + after);
  }

  /** Where a blank and a hyphen are swallowed into the word, the word shows them earlier than the
      text does. */
  lemma SwallowedEarlier(words: seq<string>, m: string, sp: Config, after: string, tail: seq<string>, p: nat)
    requires sp.words == words && sp.mode !in {Delimiter, Comment, Unquoted}
    requires sp.mode == Backslash ==> sp.word == ""
    requires |sp.word| + Slack(sp.mode) <= p
    requires Finish(Run(sp, " -" + after)) == Ok(words + tail) && tail != [] && tail[0] == m
    ensures exists q :: 0 <= q < p && q + 1 < |m| && m[q] == ' ' && m[q + 1] == '-'
  {
    hide Run, Finish;
    var s2 := Step(Step(sp, ' '), '-');
    StepsOverTwo(sp, after);
    WordGrows(s2, after, tail);
    var q := |s2.word| - 2;
    assert m[q] == s2.word[q] && m[q + 1] == s2.word[q + 1];
  }

  /** A word in progress stays in progress until it is finished. */
  lemma {:induction false} WordStays(st: Config, s: string)
    requires st.mode !in {Delimiter, Comment, Backslash} && Run(st, s).words == st.words
    ensures Run(st, s).mode !in {Delimiter, Comment, Backslash}
    decreases |s|
  {
    if s != "" {
      var next := Step(st, s[0]);
      RunExtends(next, s[1..]);
      WordStays(next, s[1..]);
    }
  }

  /** A hyphen in first place opens a word. */
  lemma HyphenOpens(words: seq<string>, m: string)
    requires m != "" && m[0] == '-' && Run(Config(Delimiter, "", words), m).words == words
    ensures Run(Config(Delimiter, "", words), m).mode !in {Delimiter, Comment, Backslash}
  {
    WordStays(Config(Unquoted, "" + "-", words), m[1..]);
  }

  /** Between words, an option is read as a word that starts with a hyphen. */
  lemma OptionIsNext(words: seq<string>, after: string, tail: seq<string>)
    requires Finish(Run(Config(Delimiter, "", words), "-" + after)) == Ok(words + tail) && tail != []
    ensures tail[0] != "" && tail[0][0] == '-'
  {
    var st := Config(Unquoted, "" + "-", words);
    assert ("-" + after)[0] == '-' && ("-" + after)[1..] == after;
    assert Run(Config(Delimiter, "", words), "-" + after) == Run(st, after);
    WordGrows(st, after, tail);
  }

  /** A string that reads itself is never between words in front of a blank and a hyphen. */
  lemma NotBetweenWords(words: seq<string>, m: string, before: string, after: string, tail: seq<string>)
    requires before <= m && Run(Config(Delimiter, "", words), before).words == words
    requires before != "" || m == "" || m[0] == ' '
    requires Finish(Run(Run(Config(Delimiter, "", words), before), " -" + after)) == Ok(words + tail)
    requires tail != [] && tail[0] == m
    ensures Run(Config(Delimiter, "", words), before).mode != Delimiter
  {
    hide Finish;
    var sp := Run(Config(Delimiter, "", words), before);
    ModeMeans(Config(Delimiter, "", words), before);
    if sp.mode == Delimiter {
      StepsOverBlank(sp, "-" + after);
      assert " -" + after == " " + ("-" + after);
      OptionIsNext(words, after, tail);
      if before != "" {
        HyphenOpens(words, before);
      }
    }
  }

  /** A string that reads itself has no blank before a hyphen. */
  lemma {:induction false} NoBlankHyphen(words: seq<string>, m: string, rest: string, tail: seq<string>, p: nat)
    requires ReadsItself(words, m, rest, tail) && p + 1 < |m|
    ensures !(m[p] == ' ' && m[p + 1] == '-')
    decreases p
  {
    if m[p] == ' ' && m[p + 1] == '-' {
      StateInside(words, m, rest, tail, p);
      var sp := Run(Config(Delimiter, "", words), m[..p]);
      var after := m[p + 2..] + rest;
      assert m[p..] + rest == " -" + after;
      if sp.mode == Delimiter {
        NotBetweenWords(words, m, m[..p], after, tail);
      } else if sp.mode == Unquoted {
        var next := Step(sp, ' ');
        assert m[p..][0] == ' ' && Run(sp, m[p..]) == Run(next, m[p..][1..]);
        RunExtends(next, m[p..][1..]);
      } else {
        SwallowedEarlier(words, m, sp, after, tail, p);
        var q :| 0 <= q < p && q + 1 < |m| && m[q] == ' ' && m[q + 1] == '-';
        NoBlankHyphen(words, m, rest, tail, q);
      }
    }
  }

  /** A first word that ends before the end of `m`, or at the blank after it, is plain if it is
      `m`. */
  lemma ReadInTime(words: seq<string>, m: string, after: string, tail: seq<string>)
    requires Finish(Run(Config(Delimiter, "", words), m + " " + after)) == Ok(words + tail)
    requires tail != [] && tail[0] == m
    ensures var end := Run(Config(Delimiter, "", words), m);
            && ((end.words == words && end.mode != Unquoted) || IsPlainWord(m))
            && Finish(Run(end, " " + after)) == Ok(words + tail)
            && Run(end, " " + after) == Run(Step(end, ' '), after)
  {
    hide IsPlainWord, Step, Run;
    var st := Config(Delimiter, "", words);
    var end := Run(st, m);
    assert m + " " + after == m + (" " + after);
    RunConcat(st, m, " " + after);
    RunExtends(st, m);
    StepsOverBlank(end, after);
    var done := end.words[|words|..];
    assert end.words == words + done;
    if done != [] {
      FirstFinished(end, " " + after, words, tail);
      assert done[0] == m;
      FinishedWordIsShorter(words, m, done);
    } else if end.mode == Unquoted {
      BlankFinishes(end);
      FirstFinished(Step(end, ' '), after, words, tail);
      OpenWordIsPlain(words, m);
    }
  }

  lemma StepsOverBlank(st: Config, after: string)
    ensures Run(st, " " + after) == Run(Step(st, ' '), after)
  {
    assert (" " + after)[0] == ' ' && (" " + after)[1..] == after;
  }

  lemma BlankFinishes(st: Config)
    requires st.mode == Unquoted
    ensures Step(st, ' ').words == st.words + [st.word]
  {
  }

  lemma FirstFinished(st: Config, s: string, words: seq<string>, tail: seq<string>)
    requires words < st.words && Finish(Run(st, s)) == Ok(words + tail) && tail != []
    ensures st.words[|words|] == tail[0]
  {
    RunExtends(st, s);
    assert Run(st, s).words <= words + tail;
  }

  /** In front of an option, a string that is read back as the first word is plain, provided
      comments run on. */
  lemma FirstWordBeforeOption(words: seq<string>, m: string, option: string, tail: seq<string>)
    requires option != "" && option[0] == '-'
    requires CommentsRunOn(Config(Delimiter, "", words), m + " " + option)
    requires Finish(Run(Config(Delimiter, "", words), m + " " + option)) == Ok(words + tail)
    requires tail != [] && tail[0] == m
    ensures IsPlainWord(m)
  {
    hide IsPlainWord, Finish, Run;
    var st := Config(Delimiter, "", words);
    var end := Run(st, m);
    var after := option[1..];
    assert " " + option == " -" + after && "-" + after == option;
    ReadInTime(words, m, option, tail);
    ModeMeans(st, m);
    RunLags(st, m);
    if end.words != words || end.mode == Unquoted {
    } else if end.mode == Comment {
      assert m + (" " + option) == m + " " + option;
      InsideComment(st, m, " " + option, tail);
    } else if end.mode == Delimiter {
      NotBetweenWords(words, m, m, after, tail);
    } else {
      SwallowedEarlier(words, m, end, after, tail, |m|);
      var q :| 0 <= q < |m| && q + 1 < |m| && m[q] == ' ' && m[q + 1] == '-';
      assert m + (" " + option) == m + " " + option;
      NoBlankHyphen(words, m, " " + option, tail, q);
    }
  }

  /** In front of a last word, a string that is read back as the first word while that last word is
      read back too is plain. */
  lemma FirstWordBeforeLast(words: seq<string>, m: string, last: string, tail: seq<string>)
    requires Finish(Run(Config(Delimiter, "", words), m + " " + last)) == Ok(words + tail)
    requires tail != [] && tail[0] == m && last in tail[1..]
    ensures IsPlainWord(m)
  {
    hide IsPlainWord, Finish;
    var end := Run(Config(Delimiter, "", words), m);
    ReadInTime(words, m, last, tail);
    if end.words == words && end.mode != Unquoted {
      assert Step(end, ' ').words == words;
      LaterWordsCost(Step(end, ' '), last, tail);
      MemberFits(tail[1..], last);
    }
  }
}
