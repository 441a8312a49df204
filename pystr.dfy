/** The Python `str` operations the chunkers rely on, on `seq<char>`:
    `isspace`, `strip`, `lower`, `startswith`, `in`, `split(sep)`, `sep.join`,
    `replace(pat, "")` and `split()[-1]`. */
module PyStr {

  /** `c.isspace()`: the characters Python treats as whitespace in `strip()` and `split()`. */
  predicate IsSpace(c: char)
  {
    || c == ' ' || c == '\t' || c == '\n' || c == '\r' || c == '\U{000B}' || c == '\U{000C}'
    || ('\U{001C}' <= c <= '\U{001F}') || c == '\U{0085}' || c == '\U{00A0}' || c == '\U{1680}'
    || ('\U{2000}' <= c <= '\U{200A}') || c == '\U{2028}' || c == '\U{2029}' || c == '\U{202F}'
    || c == '\U{205F}' || c == '\U{3000}'
  }

  /** `s.lstrip()` */
  function TrimLeft(s: string): (r: string)
    ensures |r| <= |s|
    decreases |s|
  {
    if s != [] && IsSpace(s[0]) then TrimLeft(s[1..]) else s
  }

  /** `lstrip` removes a whitespace prefix, and the longest one. */
  lemma {:induction false} TrimLeftSpec(s: string)
    ensures var r := TrimLeft(s);
      && r == s[|s| - |r|..]
      && (forall i :: 0 <= i < |s| - |r| ==> IsSpace(s[i]))
      && (r != [] ==> !IsSpace(r[0]))
    decreases |s|
  {
    if s != [] && IsSpace(s[0]) {
      TrimLeftSpec(s[1..]);
    }
  }

  /** `s.rstrip()` */
  function TrimRight(s: string): (r: string)
    ensures |r| <= |s|
    decreases |s|
  {
    if s != [] && IsSpace(s[|s| - 1]) then TrimRight(s[..|s| - 1]) else s
  }

  /** `rstrip` removes a whitespace suffix, and the longest one. */
  lemma {:induction false} TrimRightSpec(s: string)
    ensures var r := TrimRight(s);
      && r == s[..|r|]
      && (forall i :: |r| <= i < |s| ==> IsSpace(s[i]))
      && (r != [] ==> !IsSpace(r[|r| - 1]))
    decreases |s|
  {
    if s != [] && IsSpace(s[|s| - 1]) {
      TrimRightSpec(s[..|s| - 1]);
    }
  }

  /** `s.strip()` */
  function Strip(s: string): (r: string)
    ensures |r| <= |s|
  {
    TrimRight(TrimLeft(s))
  }

  /** `strip` leaves no whitespace at either end, and gives the empty string
      exactly for a blank `s` (Python's `not s.strip()`). */
  lemma StripSpec(s: string)
    ensures var r := Strip(s);
      && (r != [] ==> !IsSpace(r[0]) && !IsSpace(r[|r| - 1]))
      && (r == [] <==> forall i :: 0 <= i < |s| ==> IsSpace(s[i]))
  {
    var t := TrimLeft(s);
    TrimLeftSpec(s);
    TrimRightSpec(t);
    var r := TrimRight(t);
    if r != [] {
      assert r[0] == t[0];
    }
  }

  /** `Strip(s)` is the slice of `s` that starts after its leading whitespace. */
  lemma StripIsSlice(s: string) returns (start: nat)
    ensures start + |Strip(s)| <= |s|
    ensures Strip(s) == s[start..start + |Strip(s)|]
  {
    var t := TrimLeft(s);
    TrimLeftSpec(s);
    TrimRightSpec(t);
    start := |s| - |t|;
  }

  /** A string that already has no surrounding whitespace is its own strip. */
  lemma StripStripped(s: string)
    requires s != [] ==> !IsSpace(s[0]) && !IsSpace(s[|s| - 1])
    ensures Strip(s) == s
  {
  }

  /** `c.lower()` on ASCII letters; no other character lowers to one of the letters compared here. */
  function LowerChar(c: char): char
  {
    if 'A' <= c <= 'Z' then (c as int + 32) as char else c
  }

  /** `s.lower()` */
  function Lower(s: string): (r: string)
    ensures |r| == |s|
  {
    seq(|s|, i requires 0 <= i < |s| => LowerChar(s[i]))
  }

  /** `s.startswith(prefix)` */
  predicate StartsWith(s: string, prefix: string)
  {
    |prefix| <= |s| && s[..|prefix|] == prefix
  }

  /** `pat` occurs in `s` at index `i`. */
  predicate OccursAt(s: string, pat: string, i: nat)
  {
    i + |pat| <= |s| && s[i..i + |pat|] == pat
  }

  /** `pat in s` */
  predicate Contains(s: string, pat: string)
  {
    exists i: nat :: i <= |s| && OccursAt(s, pat, i)
  }

  lemma ContainsCons(c: char, x: string, pat: string)
    ensures Contains([c] + x, pat) <==> OccursAt([c] + x, pat, 0) || Contains(x, pat)
  {
    var s := [c] + x;
    if Contains(s, pat) && !OccursAt(s, pat, 0) {
      var i: nat :| i <= |s| && OccursAt(s, pat, i);
      assert i >= 1;
      assert s[1..] == x;
      assert s[1..][i - 1..i - 1 + |pat|] == s[i..i + |pat|];
      assert x[i - 1..i - 1 + |pat|] == s[i..i + |pat|];
      assert OccursAt(x, pat, i - 1);
    }
    if Contains(x, pat) {
      var i: nat :| i <= |x| && OccursAt(x, pat, i);
      assert s[1..] == x;
      assert s[1..][i..i + |pat|] == s[i + 1..i + 1 + |pat|];
      assert s[i + 1..i + 1 + |pat|] == x[i..i + |pat|];
      assert OccursAt(s, pat, i + 1);
    }
  }

  /** An occurrence inside a slice is an occurrence in the whole string. */
  lemma ContainsSlice(s: string, lo: nat, hi: nat, pat: string)
    requires lo <= hi <= |s|
    requires Contains(s[lo..hi], pat)
    ensures Contains(s, pat)
  {
    var t := s[lo..hi];
    var i: nat :| i <= |t| && OccursAt(t, pat, i);
    forall k | 0 <= k < |pat|
      ensures s[lo + i..lo + i + |pat|][k] == pat[k]
    {
      assert t[i..i + |pat|][k] == pat[k];
    }
    assert s[lo + i..lo + i + |pat|] == pat;
    assert OccursAt(s, pat, lo + i);
  }

  /** `sep.join(xs)` */
  function Join(xs: seq<string>, sep: string): string
    decreases |xs|
  {
    if xs == [] then "" else if |xs| == 1 then xs[0] else xs[0] + sep + Join(xs[1..], sep)
  }

  lemma JoinCons(c: char, x: string, xs: seq<string>, sep: string)
    ensures Join([[c] + x] + xs, sep) == [c] + Join([x] + xs, sep)
  {
    assert ([[c] + x] + xs)[1..] == xs;
    assert ([x] + xs)[1..] == xs;
  }

  /** Joining one more piece adds the separator and the piece. */
  lemma {:induction false} JoinSnoc(xs: seq<string>, x: string, sep: string)
    requires xs != []
    ensures Join(xs + [x], sep) == Join(xs, sep) + sep + x
    decreases |xs|
  {
    if |xs| == 1 {
      assert (xs + [x])[1..] == [x];
    } else {
      assert (xs + [x])[1..] == xs[1..] + [x];
      JoinSnoc(xs[1..], x, sep);
    }
  }

  /** `s.split(sep)` for a non-empty separator: the pieces between the leftmost
      non-overlapping occurrences of `sep`, scanning from the left. */
  function Split(s: string, sep: string): (r: seq<string>)
    requires sep != []
    ensures |r| >= 1
    ensures |r[0]| <= |s| && r[0] == s[..|r[0]|]
    decreases |s|
  {
    if s == [] then [""]
    else if StartsWith(s, sep) then [""] + Split(s[|sep|..], sep)
    else
      var rest := Split(s[1..], sep);
      [[s[0]] + rest[0]] + rest[1..]
  }

  /** Joining the pieces with the separator gives back the string. */
  lemma {:induction false} JoinSplit(s: string, sep: string)
    requires sep != []
    ensures Join(Split(s, sep), sep) == s
    decreases |s|
  {
    if s == [] {
    } else if StartsWith(s, sep) {
      JoinSplit(s[|sep|..], sep);
      JoinSplitAtSeparator(sep, s[|sep|..]);
      assert s == sep + s[|sep|..];
    } else {
      JoinSplit(s[1..], sep);
      JoinSplitAtChar(s, sep);
    }
  }

  lemma JoinSplitAtSeparator(sep: string, rest: string)
    requires sep != []
    requires Join(Split(rest, sep), sep) == rest
    ensures Join(Split(sep + rest, sep), sep) == sep + rest
  {
    var s := sep + rest;
    assert StartsWith(s, sep) && s[|sep|..] == rest;
    var r := Split(rest, sep);
    var x := [""] + r;
    assert Split(s, sep) == x;
    assert |x| >= 2 && x[0] == "" && x[1..] == r;
    assert Join(x, sep) == x[0] + sep + Join(x[1..], sep);
    assert x[0] + sep == sep;
  }

  lemma JoinSplitAtChar(s: string, sep: string)
    requires sep != [] && s != [] && !StartsWith(s, sep)
    requires Join(Split(s[1..], sep), sep) == s[1..]
    ensures Join(Split(s, sep), sep) == s
  {
    var r := Split(s[1..], sep);
    assert Split(s, sep) == [[s[0]] + r[0]] + r[1..];
    JoinCons(s[0], r[0], r[1..], sep);
    assert [r[0]] + r[1..] == r;
    assert [s[0]] + s[1..] == s;
  }

  /** No piece contains the separator. */
  lemma {:induction false} SplitPiecesAvoidSep(s: string, sep: string)
    requires sep != []
    ensures forall k :: 0 <= k < |Split(s, sep)| ==> !Contains(Split(s, sep)[k], sep)
    decreases |s|
  {
    var r := Split(s, sep);
    if s == [] {
      assert !OccursAt("", sep, 0);
    } else if StartsWith(s, sep) {
      SplitPiecesAvoidSep(s[|sep|..], sep);
      assert !OccursAt("", sep, 0);
      assert forall k :: 1 <= k < |r| ==> r[k] == Split(s[|sep|..], sep)[k - 1];
    } else {
      var rest := Split(s[1..], sep);
      SplitPiecesAvoidSep(s[1..], sep);
      ContainsCons(s[0], rest[0], sep);
      assert !OccursAt([s[0]] + rest[0], sep, 0);
      assert forall k :: 1 <= k < |r| ==> r[k] == rest[k];
    }
  }

  /** Splitting yields the whole string as the only piece exactly when the separator is absent. */
  lemma {:induction false} SplitSingleton(s: string, sep: string)
    requires sep != []
    ensures Split(s, sep) == [s] <==> !Contains(s, sep)
    decreases |s|
  {
    if Split(s, sep) == [s] {
      SplitPiecesAvoidSep(s, sep);
    }
    if !Contains(s, sep) && s != [] {
      assert !OccursAt(s, sep, 0);
      ContainsCons(s[0], s[1..], sep);
      assert [s[0]] + s[1..] == s;
      SplitSingleton(s[1..], sep);
    }
  }

  /** The first occurrence of `sep` in `a + sep + b` is the one right after `a`. */
  lemma {:induction false} SplitAcross(a: string, sep: string, b: string)
    requires sep != []
    requires forall i :: 0 <= i < |a| ==> !OccursAt(a + sep, sep, i)
    ensures Split(a + sep + b, sep) == [a] + Split(b, sep)
    decreases |a|
  {
    var s := a + sep + b;
    if a == [] {
      assert s == sep + b;
      SplitAtFront(sep, b);
    } else {
      NoSeparatorAtFront(a, sep, b);
      NoSeparatorInTail(a, sep);
      SplitAcross(a[1..], sep, b);
      assert s[1..] == a[1..] + sep + b;
      SplitAcrossStep(a, sep, b);
    }
  }

  lemma SplitAtFront(sep: string, b: string)
    requires sep != []
    ensures Split(sep + b, sep) == [""] + Split(b, sep)
  {
    assert (sep + b)[|sep|..] == b;
  }

  lemma SplitAcrossStep(a: string, sep: string, b: string)
    requires sep != [] && a != []
    requires !StartsWith(a + sep + b, sep)
    requires Split((a + sep + b)[1..], sep) == [a[1..]] + Split(b, sep)
    ensures Split(a + sep + b, sep) == [a] + Split(b, sep)
  {
    var s := a + sep + b;
    var rest := Split(s[1..], sep);
    assert Split(s, sep) == [[s[0]] + rest[0]] + rest[1..];
    assert [s[0]] + rest[0] == a;
  }

  lemma NoSeparatorAtFront(a: string, sep: string, b: string)
    requires a != [] && !OccursAt(a + sep, sep, 0)
    ensures !StartsWith(a + sep + b, sep)
  {
    assert (a + sep + b)[..|sep|] == (a + sep)[0..|sep|];
  }

  lemma NoSeparatorInTail(a: string, sep: string)
    requires a != []
    requires forall i :: 0 <= i < |a| ==> !OccursAt(a + sep, sep, i)
    ensures forall i :: 0 <= i < |a| - 1 ==> !OccursAt(a[1..] + sep, sep, i)
  {
    forall i | 0 <= i < |a| - 1
      ensures !OccursAt(a[1..] + sep, sep, i)
    {
      assert (a[1..] + sep)[i..i + |sep|] == (a + sep)[i + 1..i + 1 + |sep|];
      assert !OccursAt(a + sep, sep, i + 1);
    }
  }

  /** `s.replace(pat, "")`: removes the leftmost non-overlapping occurrences of `pat`. */
  function RemoveAll(s: string, pat: string): (r: string)
    requires pat != []
    ensures |r| <= |s|
    decreases |s|
  {
    if s == [] then ""
    else if StartsWith(s, pat) then RemoveAll(s[|pat|..], pat)
    else [s[0]] + RemoveAll(s[1..], pat)
  }

  /** Python's identity `s.replace(pat, "") == "".join(s.split(pat))`. */
  lemma {:induction false} RemoveAllIsJoinOfSplit(s: string, pat: string)
    requires pat != []
    ensures RemoveAll(s, pat) == Join(Split(s, pat), "")
    decreases |s|
  {
    if s == [] {
    } else if StartsWith(s, pat) {
      RemoveAllIsJoinOfSplit(s[|pat|..], pat);
      var r := Split(s[|pat|..], pat);
      assert ([""] + r)[1..] == r;
    } else {
      var r := Split(s[1..], pat);
      RemoveAllIsJoinOfSplit(s[1..], pat);
      JoinCons(s[0], r[0], r[1..], "");
      assert [r[0]] + r[1..] == r;
    }
  }

  /** Removing a pattern that does not occur changes nothing. */
  lemma {:induction false} RemoveAllAbsent(s: string, pat: string)
    requires pat != [] && !Contains(s, pat)
    ensures RemoveAll(s, pat) == s
    decreases |s|
  {
    if s != [] {
      assert !OccursAt(s, pat, 0);
      ContainsCons(s[0], s[1..], pat);
      assert [s[0]] + s[1..] == s;
      RemoveAllAbsent(s[1..], pat);
    }
  }

  /** The length of the run of non-whitespace characters at the end of `t`. */
  function TrailingWordLength(t: string): (n: nat)
    ensures n <= |t|
    ensures forall i :: |t| - n <= i < |t| ==> !IsSpace(t[i])
    ensures n < |t| ==> IsSpace(t[|t| - n - 1])
    decreases |t|
  {
    if t == [] || IsSpace(t[|t| - 1]) then 0 else 1 + TrailingWordLength(t[..|t| - 1])
  }

  /** `s.split()[-1]`: the last maximal run of non-whitespace characters (empty for a blank `s`). */
  function LastWord(s: string): (w: string)
    ensures |w| <= |s|
  {
    var t := TrimRight(s);
    t[|t| - TrailingWordLength(t)..]
  }

  /** The last word holds no whitespace, is empty only for a blank string, and is
      a whole word: it ends the right-stripped string and is preceded by whitespace. */
  lemma LastWordSpec(s: string)
    ensures var w := LastWord(s);
      && (forall i :: 0 <= i < |w| ==> !IsSpace(w[i]))
      && (w == [] <==> forall i :: 0 <= i < |s| ==> IsSpace(s[i]))
      && var t := TrimRight(s);
         && w == t[|t| - |w|..]
         && (|w| < |t| ==> IsSpace(t[|t| - |w| - 1]))
  {
    var t := TrimRight(s);
    TrimRightSpec(s);
    var n := TrailingWordLength(t);
    assert t != [] ==> n >= 1;
    assert t == [] ==> forall i :: 0 <= i < |s| ==> IsSpace(s[i]);
    assert t != [] ==> t[|t| - 1] == s[|t| - 1];
  }
}
