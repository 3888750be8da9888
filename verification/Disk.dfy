/** The disk listing: display widths, truncation, column padding and the order of rows. */
module Disk {

  // ---------- Display width ----------

  predicate IsAscii(c: char) {
    c as int < 0x80
  }

  function CharWidth(c: char): nat {
    if IsAscii(c) then 1 else 2
  }

  function Width(s: string): nat {
    if s == "" then 0 else Width(s[..|s| - 1]) + CharWidth(s[|s| - 1])
  }

  /** Every character takes one column, and every one beyond ASCII takes another. */
  lemma {:induction false} WidthExactly(s: string)
    ensures Width(s) == |s| + |set i | 0 <= i < |s| && s[i] as int >= 128|
  {
    var wide := set i | 0 <= i < |s| && s[i] as int >= 128;
    if s == "" {
      assert wide == {};
    } else {
      var n := |s| - 1;
      WidthExactly(s[..n]);
      var before := set i | 0 <= i < n && s[..n][i] as int >= 128;
      assert wide == before + (if s[n] as int >= 128 then {n} else {});
    }
  }

  /** Bytes of the UTF-8 encoding, by which the code compares lengths. */
  function CharBytes(c: char): nat {
    var n := c as int;
    if n < 0x80 then 1 else if n < 0x800 then 2 else if n < 0x1_0000 then 3 else 4
  }

  function ByteLength(s: string): nat {
    if s == "" then 0 else ByteLength(s[..|s| - 1]) + CharBytes(s[|s| - 1])
  }

  lemma {:induction false} PrefixWidth(s: string, k: nat)
    requires k <= |s|
    ensures Width(s[..k]) <= Width(s)
    ensures k < |s| ==> Width(s[..k]) < Width(s)
  {
    if k < |s| {
      assert s[..|s| - 1][..k] == s[..k];
      PrefixWidth(s[..|s| - 1], k);
    } else {
      assert s[..k] == s;
    }
  }

  lemma {:induction false} PrefixBytes(s: string, k: nat)
    requires k <= |s|
    ensures ByteLength(s[..k]) <= ByteLength(s)
    ensures k < |s| ==> ByteLength(s[..k]) < ByteLength(s)
  {
    if k < |s| {
      assert s[..|s| - 1][..k] == s[..k];
      PrefixBytes(s[..|s| - 1], k);
    } else {
      assert s[..k] == s;
    }
  }

  // ---------- Truncation ----------

  const ELLIPSIS := "..."

  /** The longest prefix of `s` no wider than `width`. */
  ghost predicate IsLongestPrefix(p: string, s: string, width: int) {
    && p <= s
    && (Width(p) <= width || p == "")
    && (|p| < |s| ==> Width(s[..|p| + 1]) > width)
  }

  /** Strings that fit are kept; others are cut to leave room for the ellipsis. */
  ghost predicate IsTruncation(r: string, s: string, maxWidth: nat) {
    if Width(s) <= maxWidth then r == s
    else exists p :: IsLongestPrefix(p, s, maxWidth - 3) && r == p + ELLIPSIS
  }

  lemma CutAt(s: string, k: nat, maxWidth: nat)
    requires k < |s| && Width(s) > maxWidth
    requires (k == 0 || Width(s[..k]) + 3 <= maxWidth) && Width(s[..k + 1]) + 3 > maxWidth
    ensures IsTruncation(s[..k] + ELLIPSIS, s, maxWidth)
  {
    assert IsLongestPrefix(s[..k], s, maxWidth - 3);
  }

  lemma KeptWhole(s: string, maxWidth: nat)
    requires Width(s) <= maxWidth
    ensures IsTruncation(s, s, maxWidth)
  {
  }

  method TruncateForDisplay(s: string, maxWidth: nat) returns (result: string)
    ensures IsTruncation(result, s, maxWidth)
    ensures Width(s) <= maxWidth ==> result == s
    ensures Width(s) > maxWidth ==> exists k | 0 <= k < |s| ::
              && result == s[..k] + "..."
              && (k == 0 || Width(s[..k]) + 3 <= maxWidth) && Width(s[..k + 1]) + 3 > maxWidth
  {
    hide ByteLength, IsTruncation, IsLongestPrefix;
    var currentWidth := 0;
    result := "";
    var i := 0;
    while i < |s|
      invariant 0 <= i <= |s| && result == s[..i]
      invariant currentWidth == Width(result) <= maxWidth
    {
      var c := s[i];
      var charWidth := if IsAscii(c) then 1 else 2;
      assert s[..i + 1] == s[..i] + [c] && (s[..i] + [c])[..i] == s[..i];
      if currentWidth + charWidth > maxWidth {
        break;
      }
      result := result + [c];
      currentWidth := currentWidth + charWidth;
      i := i + 1;
    }
    assert i < |s| ==> Width(s[..i + 1]) > maxWidth;
    PrefixBytes(s, i);
    if i < |s| {
      PrefixWidth(s, i + 1);
    } else {
      assert s[..i] == s;
    }

    if ByteLength(result) < ByteLength(s) {
      EllipsisWidth();
      ghost var k := i;
      while Width(result) + Width(ELLIPSIS) > maxWidth && result != ""
        invariant 0 <= k < |s| && result == s[..k]
        invariant Width(s[..k + 1]) > maxWidth - 3
        decreases |result|
      {
        result := result[..|result| - 1];
        k := k - 1;
        var lastCharWidth := if result == "" then 1 else if IsAscii(result[|result| - 1]) then 1 else 2;
        currentWidth := if currentWidth < lastCharWidth then 0 else currentWidth - lastCharWidth;
      }
      assert |result| == k;
      CutAt(s, k, maxWidth);
      result := result + ELLIPSIS;
    } else {
      KeptWhole(s, maxWidth);
    }
  }

  lemma EllipsisWidth()
    ensures Width(ELLIPSIS) == 3
  {
    assert ELLIPSIS[..2] == ".." && ".."[..1] == "." && "."[..0] == "";
    assert Width("..") == 2;
  }

  lemma {:induction false} WidthConcat(a: string, b: string)
    ensures Width(a + b) == Width(a) + Width(b)
  {
    if b == "" {
      assert a + b == a;
    } else {
      assert (a + b)[..|a + b| - 1] == a + b[..|b| - 1];
      WidthConcat(a, b[..|b| - 1]);
    }
  }

  /** There is one longest prefix, so truncation is a function. */
  lemma LongestPrefixIsUnique(p: string, q: string, s: string, width: int)
    requires IsLongestPrefix(p, s, width) && IsLongestPrefix(q, s, width)
    ensures p == q
  {
    if |p| < |q| {
      ShorterIsNotLongest(p, q, s, width);
    } else if |q| < |p| {
      ShorterIsNotLongest(q, p, s, width);
    }
  }

  lemma ShorterIsNotLongest(p: string, q: string, s: string, width: int)
    requires IsLongestPrefix(p, s, width) && q <= s && |p| < |q|
    ensures Width(q) > width
  {
    PrefixWidth(q, |p| + 1);
    assert q[..|p| + 1] == s[..|p| + 1];
  }

  /** The result fits exactly when the string did or the limit leaves room for the ellipsis. */
  lemma TruncationFits(r: string, s: string, maxWidth: nat)
    requires IsTruncation(r, s, maxWidth)
    ensures Width(r) <= maxWidth <==> Width(s) <= maxWidth || maxWidth >= 3
  {
    if Width(s) > maxWidth {
      var p :| IsLongestPrefix(p, s, maxWidth - 3) && r == p + ELLIPSIS;
      WidthConcat(p, ELLIPSIS);
      EllipsisWidth();
    }
  }

  /** Truncating twice is truncating once, whatever the limit. */
  lemma TruncationIsIdempotent(r: string, s: string, again: string, maxWidth: nat)
    requires IsTruncation(r, s, maxWidth) && IsTruncation(again, r, maxWidth)
    ensures again == r
  {
    TruncationFits(r, s, maxWidth);
    if Width(r) > maxWidth {
      var p :| IsLongestPrefix(p, s, maxWidth - 3) && r == p + ELLIPSIS;
      var q :| IsLongestPrefix(q, r, maxWidth - 3) && again == q + ELLIPSIS;
      assert p == "" && q == "";
    }
  }

  // ---------- Rows ----------

  /** The name column is 50 wide; names were cut to 48, so the padding is at least 2 and the
      saturating subtraction never saturates. */
  method PadName(name: string) returns (cell: string)
    ensures name <= cell && forall i | |name| <= i < |cell| :: cell[i] == ' '
    ensures |cell| - |name| == if Width(name) <= 50 then 50 - Width(name) else 0
    ensures Width(name) <= 50 ==> Width(cell) == 50
  {
    var nameWidth := Width(name);
    var padding := if nameWidth <= 50 then 50 - nameWidth else 0;
    var spaces := seq(padding, _ => ' ');
    SpacesWidth(padding);
    WidthConcat(name, spaces);
    cell := name + spaces;
  }

  lemma {:induction false} SpacesWidth(n: nat)
    ensures Width(seq(n, _ => ' ')) == n
  {
    if n > 0 {
      SpacesWidth(n - 1);
      assert seq(n, _ => ' ')[..n - 1] == seq(n - 1, _ => ' ');
    }
  }
}
