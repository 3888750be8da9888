/** When a string printed without quotes in front of quote-free text is read back as itself. */
module BareWords {
  import opened Outcomes
  import opened ShellWords

  /** Text without quotes, backslashes, tabs or line breaks. */
  predicate IsCalm(s: string) {
    forall i | 0 <= i < |s| :: s[i] == ' ' || IsPlainChar(s[i])
  }

  /** A word that calm text can add: plain, or the word in progress with a plain ending. */
  predicate CanAdd(st: Config, w: string) {
    || (w != "" && AllPlain(w))
    || (st.mode == Unquoted && st.word <= w && AllPlain(w[|st.word|..]))
  }

  lemma CalmStep(st: Config, c: char)
    requires c == ' ' || IsPlainChar(c)
    requires st.mode == Unquoted || st.mode == Comment || (st.mode == Delimiter && st.word == "")
    ensures var next := Step(st, c);
            && (next.mode == Unquoted || next.mode == Comment || (next.mode == Delimiter && next.word == ""))
            && (st.mode == Comment ==> next == st)
            && (next.words == st.words || (st.mode == Unquoted && next.words == st.words + [st.word]))
  {
  }

  lemma WordInProgressCounts(st: Config)
    requires st.mode == Unquoted
    ensures CanAdd(st, st.word)
  {
    assert st.word[|st.word|..] == "";
  }

  lemma CalmStepAdds(st: Config, c: char, w: string)
    requires c == ' ' || IsPlainChar(c)
    requires st.mode == Unquoted || st.mode == Comment || (st.mode == Delimiter && st.word == "")
    requires CanAdd(Step(st, c), w)
    ensures CanAdd(st, w)
  {
    var next := Step(st, c);
    if next.mode == Unquoted && next.word <= w {
      assert w[|st.word|..] == next.word[|st.word|..] + w[|next.word|..];
    }
  }

  lemma {:induction false} CalmRun(st: Config, r: string)
    requires IsCalm(r)
    requires st.mode == Unquoted || st.mode == Comment || (st.mode == Delimiter && st.word == "")
    ensures Finish(Run(st, r)).Ok?
    ensures st.words <= Finish(Run(st, r)).value
    ensures forall i | |st.words| <= i < |Finish(Run(st, r)).value| :: CanAdd(st, Finish(Run(st, r)).value[i])
    ensures st.mode == Comment ==> Finish(Run(st, r)) == Ok(st.words)
    decreases |r|
  {
    if r != "" {
      var next := Step(st, r[0]);
      hide Step, Finish, CanAdd;
      CalmStep(st, r[0]);
      CalmRun(next, r[1..]);
      var found := Finish(Run(st, r)).value;
      forall i | |st.words| <= i < |found|
        ensures CanAdd(st, found[i])
      {
        if i < |next.words| {
          assert found[i] == st.word;
          WordInProgressCounts(st);
        } else {
          CalmStepAdds(st, r[0], found[i]);
        }
      }
    }
  }

  lemma {:induction false} QuotedStaysOpen(st: Config, r: string)
    requires IsCalm(r) && st.mode in {SingleQuoted, DoubleQuoted, DoubleQuotedBackslash}
    ensures Finish(Run(st, r)).Err?
    decreases |r|
  {
    if r != "" {
      QuotedStaysOpen(Step(st, r[0]), r[1..]);
    }
  }

  /** Finishing a word costs the blank that ended it. */
  lemma {:induction false} NewWordLoses(st: Config, s: string)
    requires |Run(st, s).words| > |st.words|
    ensures Kept(Run(st, s)) < Kept(st) + |s|
    decreases |s|
  {
    var next := Step(st, s[0]);
    StepKeepsBudget(st, s[0]);
    RunKeepsBudget(next, s[1..]);
    if |next.words| == |st.words| {
      NewWordLoses(next, s[1..]);
    } else {
      TotalSnoc(st.words, st.word);
    }
  }

  /** Between words nothing is in progress, and a waiting backslash was the last character. */
  lemma {:induction false} ModeMeans(st: Config, s: string)
    requires st.mode in {Delimiter, Comment, Backslash} ==> st.word == ""
    ensures Run(st, s).mode in {Delimiter, Comment, Backslash} ==> Run(st, s).word == ""
    ensures s != "" && Run(st, s).mode in {Backslash, UnquotedBackslash} ==> s[|s| - 1] == '\\'
    decreases |s|
  {
    if s != "" {
      var next := Step(st, s[0]);
      ModeMeans(next, s[1..]);
      if |s| == 1 {
        assert Run(st, s) == next;
      }
    }
  }

  /** A word that was finished inside `m` is shorter than `m`. */
  lemma FinishedWordIsShorter(words: seq<string>, m: string, done: seq<string>)
    requires Run(Config(Delimiter, "", words), m).words == words + done
    ensures m !in done
  {
    if m in done {
      NewWordLoses(Config(Delimiter, "", words), m);
      MemberFits(done, m);
      TotalConcat(words, done);
    }
  }

  lemma BackslashWaits(st: Config)
    requires st.mode in {Delimiter, Unquoted}
    ensures Run(st, "\\").mode in {Backslash, UnquotedBackslash}
  {
    assert Run(st, "\\") == Run(Step(st, '\\'), "\\"[1..]);
  }

  /** The word in progress at the end of `m` is `m` itself only for plain words. */
  lemma OpenWordIsPlain(words: seq<string>, m: string)
    requires Run(Config(Delimiter, "", words), m).mode == Unquoted
    requires Run(Config(Delimiter, "", words), m).word == m
    ensures IsPlainWord(m)
  {
    var st := Config(Delimiter, "", words);
    var end := Run(st, m);
    RunExtends(st, m);
    var done := end.words[|words|..];
    assert end.words == words + done;
    assert Finish(end).value == words + (done + [m]);
    WordOfItself(words, done + [m], m);
    var n := |m| - 1;
    if m[n] == '\\' {
      assert m == m[..n] + [m[n]];
      RunConcat(st, m[..n], [m[n]]);
      if n > 0 {
        RunPlain(st, m[..n]);
      }
      BackslashWaits(Run(st, m[..n]));
    }
  }

  /** A string read from calm text is plain. */
  lemma PlainCandidate(words: seq<string>, m: string)
    requires m != "" && AllPlain(m)
    requires Run(Config(Delimiter, "", words), m).mode != Comment
    ensures IsPlainWord(m)
  {
    var st := Config(Delimiter, "", words);
    if m[0] == '#' {
      CommentStays(Step(st, m[0]), m[1..]);
    }
  }

  lemma {:induction false} CommentStays(st: Config, s: string)
    requires st.mode == Comment && AllPlain(s)
    ensures Run(st, s).mode == Comment
    decreases |s|
  {
    if s != "" {
      CommentStays(Step(st, s[0]), s[1..]);
    }
  }

  /** In front of calm text, `m` is among the words read exactly when it is a plain word, and
      then it is the first of them. */
  lemma BareWordExactly(words: seq<string>, m: string, r: string)
    requires IsCalm(r)
    ensures IsPlainWord(m) <==>
            var line := Finish(Run(Config(Delimiter, "", words), m + " " + r));
            line.Ok? && words <= line.value && m in line.value[|words|..]
    ensures IsPlainWord(m) ==>
            Run(Config(Delimiter, "", words), m + " " + r) == Run(Config(Delimiter, "", words + [m]), r)
  {
    var st := Config(Delimiter, "", words);
    var end := Run(st, m);
    assert m + " " + r == m + (" " + r);
    RunConcat(st, m, " " + r);
    RunConcat(end, " ", r);
    if IsPlainWord(m) {
      RunPlain(st, m);
      assert "" + m == m;
      RunBlank(end);
      CalmRun(Config(Delimiter, "", words + [m]), r);
      var found := Finish(Run(st, m + " " + r)).value;
      assert found[|words|..][0] == m;
    } else {
      var line := Finish(Run(st, m + " " + r));
      if line.Ok? && words <= line.value && m in line.value[|words|..] {
        WordAmongCalm(words, m, r);
      }
    }
  }

  lemma WordAmongCalm(words: seq<string>, m: string, r: string)
    requires IsCalm(r)
    requires Finish(Run(Run(Config(Delimiter, "", words), m), " " + r)).Ok?
    requires words <= Finish(Run(Run(Config(Delimiter, "", words), m), " " + r)).value
    requires m in Finish(Run(Run(Config(Delimiter, "", words), m), " " + r)).value[|words|..]
    ensures IsPlainWord(m)
  {
    var st := Config(Delimiter, "", words);
    var end := Run(st, m);
    var found := Finish(Run(end, " " + r)).value;
    ModeMeans(st, m);
    RunExtends(st, m);
    var done := end.words[|words|..];
    assert end.words == words + done;
    var i :| |words| <= i < |found| && found[i] == m;
    if end.mode in {SingleQuoted, DoubleQuoted, DoubleQuotedBackslash} {
      QuotedStaysOpen(end, " " + r);
    } else {
      var start := if end.mode == Unquoted then Config(Delimiter, "", end.words + [end.word])
                   else if end.mode in {Backslash, UnquotedBackslash} then Config(Unquoted, end.word + " ", end.words)
                   else end;
      assert Run(end, " " + r) == Run(start, r) by {
        assert (" " + r)[0] == ' ' && (" " + r)[1..] == r;
      }
      CalmRun(start, r);
      if i < |end.words| {
        assert done[i - |words|] == m;
        FinishedWordIsShorter(words, m, done);
      } else if end.mode == Unquoted && i == |end.words| {
        OpenWordIsPlain(words, m);
      } else if m != "" && AllPlain(m) {
        PlainCandidate(words, m);
      } else {
        assert false;
      }
    }
  }
}
