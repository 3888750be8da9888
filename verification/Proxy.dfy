/** The NO_PROXY list: which hosts are reached without the proxy. */
module Proxy {
  import opened Outcomes
  import opened Text

  /** The pieces between separators; there is always at least one. */
  function SplitOn(s: string, c: char): (pieces: seq<string>)
    ensures pieces != []
  {
    if s == "" then [""]
    else
      var rest := SplitOn(s[1..], c);
      if s[0] == c then [""] + rest else [[s[0]] + rest[0]] + rest[1..]
  }

  predicate EndsWith(s: string, suffix: string) {
    |suffix| <= |s| && s[|s| - |suffix|..] == suffix
  }

  /** A pattern with a leading dot names a domain and everything below it; any other pattern
      names one host. */
  predicate Matches(host: string, pattern: string) {
    pattern != "" &&
    if pattern[0] == '.' then EndsWith(host, pattern) || host == pattern[1..] else host == pattern
  }

  /** The patterns of a list: its pieces without surrounding blanks, the empty ones dropped. */
  ghost function Patterns(list: string): set<string> {
    (set p | p in SplitOn(list, ',') :: Trim(p)) - {""}
  }

  ghost predicate Bypasses(host: string, list: string) {
    exists p :: p in Patterns(list) && Matches(host, p)
  }

  function Variable(upper: Option<string>, lower: Option<string>): Option<string> {
    if upper.Some? then upper else lower
  }

  method ShouldBypassProxy(host: Option<string>, upper: Option<string>, lower: Option<string>) returns (bypass: bool)
    ensures host.None? ==> !bypass
    ensures host.Some? && upper.Some? ==> (bypass <==> Bypasses(host.value, upper.value))
    ensures host.Some? && upper.None? && lower.Some? ==> (bypass <==> Bypasses(host.value, lower.value))
    ensures upper.None? && lower.None? ==> !bypass
  {
    if host.None? {
      return false;
    }
    var h := host.value;
    var noProxy := Variable(upper, lower);
    if noProxy.None? {
      return false;
    }
    var pieces := SplitOn(noProxy.value, ',');
    for i := 0 to |pieces|
      invariant forall k | 0 <= k < i :: !Matches(h, Trim(pieces[k]))
    {
      var pattern := Trim(pieces[i]);
      if pattern == "" {
        continue;
      }
      if pattern[0] == '.' {
        if EndsWith(h, pattern) || h == pattern[1..] {
          assert pattern in Patterns(noProxy.value);
          return true;
        }
      } else if h == pattern {
        assert pattern in Patterns(noProxy.value);
        return true;
      }
    }
    return false;
  }

  // ---------- Lists as sets of patterns ----------

  lemma SplitCons(x: char, s: string, c: char)
    ensures SplitOn([x] + s, c) ==
            if x == c then [""] + SplitOn(s, c) else [[x] + SplitOn(s, c)[0]] + SplitOn(s, c)[1..]
  {
    assert ([x] + s)[1..] == s;
  }

  lemma {:induction false} SplitConcat(a: string, b: string, c: char)
    ensures SplitOn(a + [c] + b, c) == SplitOn(a, c) + SplitOn(b, c)
  {
    hide SplitOn;
    if a == "" {
      SplitCons(c, b, c);
      SplitEmpty(c);
      assert a + [c] + b == [c] + b;
    } else {
      var t := a[1..];
      SplitConcat(t, b, c);
      SplitCons(a[0], t + [c] + b, c);
      SplitCons(a[0], t, c);
      assert a + [c] + b == [a[0]] + (t + [c] + b) && a == [a[0]] + t;
      FirstPieces(a[0], SplitOn(t, c), SplitOn(b, c));
    }
  }

  lemma SplitEmpty(c: char)
    ensures SplitOn("", c) == [""]
  {
  }

  lemma FirstPieces(x: char, p: seq<string>, q: seq<string>)
    requires p != []
    ensures [""] + (p + q) == [""] + p + q
    ensures [[x] + (p + q)[0]] + (p + q)[1..] == [[x] + p[0]] + p[1..] + q
  {
  }

  /** Joining two lists with a comma unites their patterns: adding patterns never turns a bypass
      off, and the order of the pieces does not matter. */
  lemma JoinedLists(a: string, b: string)
    ensures Patterns(a + "," + b) == Patterns(a) + Patterns(b)
    ensures forall host :: Bypasses(host, a + "," + b) <==> Bypasses(host, a) || Bypasses(host, b)
  {
    SplitConcat(a, b, ',');
    assert "," == [','];
    var all := SplitOn(a + "," + b, ',');
    forall p
      ensures p in Patterns(a + "," + b) <==> p in Patterns(a) + Patterns(b)
    {
      assert forall q :: q in all <==> q in SplitOn(a, ',') || q in SplitOn(b, ',');
    }
  }

  lemma {:induction false} TrimStartOfBlank(b: string, s: string)
    requires IsBlank(b)
    ensures TrimStart(b + s) == TrimStart(s)
  {
    if b == "" {
      assert b + s == s;
    } else {
      assert (b + s)[0] == b[0] && (b + s)[1..] == b[1..] + s;
      TrimStartOfBlank(b[1..], s);
    }
  }

  lemma {:induction false} TrimEndOfBlank(s: string, b: string)
    requires IsBlank(b)
    ensures TrimEnd(s + b) == TrimEnd(s)
  {
    if b == "" {
      assert s + b == s;
    } else {
      var n := |b| - 1;
      assert (s + b)[|s + b| - 1] == b[n] && (s + b)[..|s + b| - 1] == s + b[..n];
      TrimEndOfBlank(s, b[..n]);
    }
  }

  /** Trimming at the start commutes with adding blanks at the end, unless nothing is left. */
  lemma {:induction false} TrimStartKeepsEnd(s: string, b: string)
    requires IsBlank(b)
    ensures TrimStart(s + b) == if IsBlank(s) then "" else TrimStart(s) + b
  {
    if s == "" {
      assert s + b == b && b + "" == b;
      TrimStartOfBlank(b, "");
    } else {
      assert (s + b)[0] == s[0] && (s + b)[1..] == s[1..] + b;
      TrimStartKeepsEnd(s[1..], b);
      assert IsWhitespace(s[0]) ==> (IsBlank(s) <==> IsBlank(s[1..]));
    }
  }

  lemma {:induction false} TrimStartOfAllBlank(s: string)
    requires IsBlank(s)
    ensures TrimStart(s) == ""
  {
    TrimStartOfBlank(s, "");
    assert s + "" == s;
  }

  /** Blanks around a piece do not matter. */
  lemma PaddingIsIgnored(left: string, s: string, right: string)
    requires IsBlank(left) && IsBlank(right)
    ensures Trim(left + s + right) == Trim(s)
  {
    assert left + s + right == left + (s + right);
    TrimStartOfBlank(left, s + right);
    TrimStartKeepsEnd(s, right);
    if IsBlank(s) {
      TrimStartOfAllBlank(s);
    } else {
      TrimEndOfBlank(TrimStart(s), right);
    }
  }

  /** A list is as good as its pieces, each padded at will. */
  lemma PaddedPiece(left: string, s: string, right: string)
    requires IsBlank(left) && IsBlank(right) && ',' !in s
    ensures Patterns(left + s + right) == Patterns(s)
  {
    NoCommaInBlank(left);
    NoCommaInBlank(right);
    SinglePiece(s);
    SinglePiece(left + s + right);
    PaddingIsIgnored(left, s, right);
  }

  lemma NoCommaInBlank(b: string)
    requires IsBlank(b)
    ensures ',' !in b
  {
    assert !IsWhitespace(',');
  }

  lemma {:induction false} SinglePiece(s: string)
    requires ',' !in s
    ensures SplitOn(s, ',') == [s]
  {
    if s != "" {
      SinglePiece(s[1..]);
      assert [s[0]] + s[1..] == s;
    }
  }

  // ---------- Single patterns ----------

  /** A list without commas is one pattern: blank, it bypasses nothing; with a leading dot, the domain
      and every name that ends in it; otherwise exactly the host it names. */
  lemma OnePieceExactly(host: string, s: string)
    requires ',' !in s
    ensures var p := Trim(s);
            Bypasses(host, s) <==>
            if p == "" then false
            else if p[0] == '.' then host == p[1..] || exists prefix :: host == prefix + p
            else host == p
  {
    var p := Trim(s);
    SinglePiece(s);
    assert Trim([s][0]) == p;
    if p != "" {
      assert p in Patterns(s);
      if p[0] == '.' {
        EndsWithExactly(host, p);
      }
    }
  }

  lemma EndsWithExactly(s: string, suffix: string)
    ensures EndsWith(s, suffix) <==> exists prefix :: s == prefix + suffix
  {
    if EndsWith(s, suffix) {
      assert s == s[..|s| - |suffix|] + suffix;
    }
  }

  /** A host name as a list bypasses that host and no other. */
  lemma PlainPatternExactly(host: string, pattern: string)
    requires pattern != "" && pattern[0] != '.' && ',' !in pattern
    requires !IsWhitespace(pattern[0]) && !IsWhitespace(pattern[|pattern| - 1])
    ensures Bypasses(host, pattern) <==> host == pattern
  {
    OnePieceExactly(host, pattern);
  }

  // ---------- Domains ----------

  /** A host bypassed through a dotted pattern takes all its subdomains along; a host named by a
      plain pattern does not. */
  lemma Subdomains(host: string, prefix: string, pattern: string)
    requires pattern != ""
    ensures pattern[0] == '.' && Matches(host, pattern) ==> Matches(prefix + "." + host, pattern)
    ensures pattern[0] != '.' && Matches(host, pattern) ==> !Matches(prefix + "." + host, pattern)
  {
    var sub := prefix + "." + host;
    if pattern[0] == '.' && Matches(host, pattern) {
      if EndsWith(host, pattern) {
        assert sub[|sub| - |pattern|..] == host[|host| - |pattern|..];
      } else {
        assert sub[|sub| - |pattern|..] == "." + host;
        assert pattern == "." + pattern[1..];
      }
    }
  }

  /** Exactly which hosts a dotted pattern covers: the domain and the names ending in it. */
  lemma DottedPatternExactly(host: string, domain: string)
    ensures Matches(host, "." + domain) <==> host == domain || exists prefix :: host == prefix + "." + domain
  {
    var pattern := "." + domain;
    assert pattern[1..] == domain;
    if EndsWith(host, pattern) {
      var prefix := host[..|host| - |pattern|];
      assert host == prefix + pattern && prefix + pattern == prefix + "." + domain;
    }
    forall prefix | host == prefix + "." + domain
      ensures EndsWith(host, pattern)
    {
      assert prefix + "." + domain == prefix + pattern;
    }
  }
}
