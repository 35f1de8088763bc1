/** The two string operations the service relies on: Python's substring test
    `pat in s` and Python's `str.strip()` with no argument. */
module Text {

  /** Python's `str.isspace()` for a single character: the ASCII whitespace
      and separator controls, NEL, NO-BREAK SPACE and the Unicode spaces and
      line/paragraph separators. */
  predicate IsSpace(c: char)
  {
    var n := c as int;
    || (0x09 <= n <= 0x0D) || (0x1C <= n <= 0x20) || n == 0x85 || n == 0xA0
    || n == 0x1680 || (0x2000 <= n <= 0x200A) || n == 0x2028 || n == 0x2029
    || n == 0x202F || n == 0x205F || n == 0x3000
  }

  /** `pat` occurs in `s` as a contiguous slice (the empty string occurs everywhere). */
  ghost predicate Occurs(pat: string, s: string)
  {
    exists i :: OccursAt(pat, s, i)
  }

  /** `pat` occurs in `s` starting at index `i`. */
  ghost predicate OccursAt(pat: string, s: string, i: int)
  {
    0 <= i <= |s| - |pat| && s[i..i + |pat|] == pat
  }

  /** When `pat` is not a prefix of `s`, it occurs in `s` exactly when it occurs in `s[1..]`. */
  lemma OccursPastHead(s: string, pat: string)
    requires |pat| <= |s| && s[..|pat|] != pat
    ensures Occurs(pat, s) <==> Occurs(pat, s[1..])
  {
    if Occurs(pat, s) {
      var i :| OccursAt(pat, s, i);
      assert i != 0 by { assert s[0..|pat|] == s[..|pat|]; }
      assert s[1..][i - 1..i - 1 + |pat|] == s[i..i + |pat|];
      assert OccursAt(pat, s[1..], i - 1);
    }
    if Occurs(pat, s[1..]) {
      var t := s[1..];
      var i :| OccursAt(pat, t, i);
      assert s[i + 1..i + 1 + |pat|] == t[i..i + |pat|];
      assert OccursAt(pat, s, i + 1);
    }
  }

  /** Python's `pat in s`: a left-to-right scan for a match. */
  function Contains(s: string, pat: string): (r: bool)
    ensures r <==> Occurs(pat, s)
    decreases |s|
  {
    if |pat| > |s| then false
    else if s[..|pat|] == pat then
      assert OccursAt(pat, s, 0) by { assert s[0..0 + |pat|] == s[..|pat|]; }
      true
    else
      OccursPastHead(s, pat);
      Contains(s[1..], pat)
  }

  /** Drops trailing whitespace. */
  function TrimEnd(s: string): (r: string)
    ensures |r| <= |s| && r == s[..|r|]
    ensures forall k :: |r| <= k < |s| ==> IsSpace(s[k])
    ensures r == [] || !IsSpace(r[|r| - 1])
    decreases |s|
  {
    if |s| > 0 && IsSpace(s[|s| - 1]) then
      var r := TrimEnd(s[..|s| - 1]);
      assert forall k :: |r| <= k < |s| - 1 ==> s[k] == s[..|s| - 1][k];
      r
    else s
  }

  /** `r` is the slice `s[i..i + |r|]`, everything of `s` outside it is
      whitespace, and `r` neither starts nor ends with whitespace. */
  ghost predicate StrippedAt(s: string, r: string, i: int)
  {
    && 0 <= i <= |s| - |r|
    && r == s[i..i + |r|]
    && (forall k :: 0 <= k < i ==> IsSpace(s[k]))
    && (forall k :: i + |r| <= k < |s| ==> IsSpace(s[k]))
    && (r == [] || (!IsSpace(r[0]) && !IsSpace(r[|r| - 1])))
  }

  /** Python's `s.strip()`: skip leading whitespace, then drop trailing whitespace. */
  function Strip(s: string): (r: string)
    ensures exists i :: StrippedAt(s, r, i)
    decreases |s|
  {
    if |s| > 0 && IsSpace(s[0]) then
      var r := Strip(s[1..]);
      StrippedAfterSpace(s, r);
      r
    else
      var r := TrimEnd(s);
      TrimEndStripped(s, r);
      r
  }

  /** A leading whitespace character shifts a stripped slice by one. */
  lemma StrippedAfterSpace(s: string, r: string)
    requires |s| > 0 && IsSpace(s[0]) && exists i :: StrippedAt(s[1..], r, i)
    ensures exists i :: StrippedAt(s, r, i)
  {
    var t := s[1..];
    var i :| StrippedAt(t, r, i);
    assert s[i + 1..i + 1 + |r|] == t[i..i + |r|];
    forall k | 0 <= k < i + 1 ensures IsSpace(s[k]) {
      if k > 0 { assert s[k] == t[k - 1]; }
    }
    forall k | i + 1 + |r| <= k < |s| ensures IsSpace(s[k]) {
      assert s[k] == t[k - 1];
    }
    assert StrippedAt(s, r, i + 1);
  }

  /** Without leading whitespace, trimming the end yields the stripped slice
      at index 0: `r` is a prefix of `s` followed only by whitespace. */
  lemma TrimEndStripped(s: string, r: string)
    requires s == [] || !IsSpace(s[0])
    requires |r| <= |s| && r == s[..|r|] && (r == [] || !IsSpace(r[|r| - 1]))
    requires forall k :: |r| <= k < |s| ==> IsSpace(s[k])
    ensures StrippedAt(s, r, 0)
  {
    assert s[0..|r|] == s[..|r|];
    assert r != [] ==> r[0] == s[0];
  }

  /** The characterisation in StrippedAt admits only one string, so it is an
      independent definition of what `strip` returns. */
  lemma StrippedUnique(s: string, r1: string, i1: int, r2: string, i2: int)
    requires StrippedAt(s, r1, i1) && StrippedAt(s, r2, i2)
    ensures r1 == r2
  {
    if r1 != [] && r2 != [] {
      assert s[i1] == r1[0] && s[i2] == r2[0];
      assert i1 == i2;
      assert s[i1 + |r1| - 1] == r1[|r1| - 1] && s[i2 + |r2| - 1] == r2[|r2| - 1];
      assert |r1| == |r2|;
    }
  }

  /** A string with no surrounding whitespace is left as it is. */
  lemma StripClean(s: string)
    requires s == [] || (!IsSpace(s[0]) && !IsSpace(s[|s| - 1]))
    ensures Strip(s) == s
  {
    var r := Strip(s);
    var i :| StrippedAt(s, r, i);
    assert StrippedAt(s, s, 0) by { assert s[0..|s|] == s; }
    StrippedUnique(s, s, 0, r, i);
  }

  /** Appending whitespace keeps a stripped slice stripped. */
  lemma StrippedAtExtend(s: string, r: string, i: int)
    requires StrippedAt(s, r, i)
    ensures StrippedAt(s + "\n", r, i)
  {
    var line := s + "\n";
    assert IsSpace(line[|s|]);
    assert line[i..i + |r|] == s[i..i + |r|];
    assert forall k :: 0 <= k < |s| ==> line[k] == s[k];
  }

  /** Stripping ignores a line terminator: `(s + "\n").strip() == s.strip()`. */
  lemma StripLineTerminator(s: string)
    ensures Strip(s + "\n") == Strip(s)
  {
    var line := s + "\n";
    var r := Strip(s);
    var i :| StrippedAt(s, r, i);
    var r' := Strip(line);
    var i' :| StrippedAt(line, r', i');
    StrippedAtExtend(s, r, i);
    StrippedUnique(line, r, i, r', i');
  }
}
