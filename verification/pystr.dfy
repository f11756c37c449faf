/** The handful of Python `str` operations the script relies on, written out
    over `seq<char>`: `strip()`, `split(c)` with a one-character separator,
    `c.join(parts)`, the substring test `t in s` and `s.replace(a, b)`. */
module PyStr {

  /** Python's `str.isspace` for one character: general category Zs, or
      bidirectional class WS, B or S. */
  predicate IsSpace(c: char) {
    || c == ' ' || c == '\t' || c == '\n' || c == '\r'
    || c == '\U{000B}' || c == '\U{000C}'
    || ('\U{001C}' <= c <= '\U{001F}')
    || c == '\U{0085}' || c == '\U{00A0}' || c == '\U{1680}'
    || ('\U{2000}' <= c <= '\U{200A}')
    || c == '\U{2028}' || c == '\U{2029}' || c == '\U{202F}'
    || c == '\U{205F}' || c == '\U{3000}'
  }

  /** How many whitespace characters `s` starts with. */
  function Leading(s: string): (n: nat)
    ensures n <= |s|
    ensures forall i :: 0 <= i < n ==> IsSpace(s[i])
    ensures n < |s| ==> !IsSpace(s[n])
  {
    if |s| > 0 && IsSpace(s[0]) then 1 + Leading(s[1..]) else 0
  }

  /** How many whitespace characters `s` ends with. */
  function Trailing(s: string): (n: nat)
    ensures n <= |s|
    ensures forall i :: |s| - n <= i < |s| ==> IsSpace(s[i])
    ensures n < |s| ==> !IsSpace(s[|s| - n - 1])
  {
    if |s| > 0 && IsSpace(s[|s| - 1]) then 1 + Trailing(s[..|s| - 1]) else 0
  }

  /** `s.strip()`: leading and then trailing whitespace removed. */
  function Strip(s: string): string {
    var left := s[Leading(s)..];
    left[..|left| - Trailing(left)]
  }

  /** The stripped string is the infix of `s` that starts at its first and
      ends at its last character that is not whitespace; everything cut off
      is whitespace. */
  lemma StripIsTrimmedInfix(s: string)
    ensures var r := Strip(s);
      var a := Leading(s);
      && a + |r| <= |s| && r == s[a..a + |r|]
      && (forall i :: 0 <= i < a ==> IsSpace(s[i]))
      && (forall i :: a + |r| <= i < |s| ==> IsSpace(s[i]))
      && (r == [] || (!IsSpace(r[0]) && !IsSpace(r[|r| - 1])))
  {
    var a := Leading(s);
    var left := s[a..];
    var t := Trailing(left);
    var r := left[..|left| - t];
    assert Strip(s) == r;
    assert r == s[a..a + |r|];
    forall i | a + |r| <= i < |s|
      ensures IsSpace(s[i])
    {
      assert s[i] == left[i - a];
    }
    if r != [] {
      assert a < |s| && r[0] == s[a] && !IsSpace(s[a]);
      assert t < |left| && r[|r| - 1] == left[|left| - t - 1] && !IsSpace(left[|left| - t - 1]);
    }
  }

  /** Index of the last `c` in `s`, or -1 when there is none (`s.rfind(c)`). */
  function LastIndexOf(s: string, c: char): (r: int)
    ensures -1 <= r < |s|
    ensures r >= 0 ==> s[r] == c
    ensures forall k :: r < k < |s| ==> s[k] != c
  {
    if |s| == 0 then -1
    else if s[|s| - 1] == c then |s| - 1
    else LastIndexOf(s[..|s| - 1], c)
  }

  /** `s.split(c)` for a one-character separator: the pieces between
      consecutive separators, always at least one (`"".split(",") == [""]`).
      Written from the last separator backwards, which yields the same list
      as Python's left-to-right scan. */
  function Split(s: string, c: char): (parts: seq<string>)
    ensures |parts| >= 1
    ensures forall k :: 0 <= k < |parts| ==> c !in parts[k]
    decreases |s|
  {
    var last := LastIndexOf(s, c);
    if last < 0 then [s] else Split(s[..last], c) + [s[last + 1..]]
  }

  /** `c.join(parts)`. */
  function Join(parts: seq<string>, c: char): string
  {
    if |parts| == 0 then ""
    else if |parts| == 1 then parts[0]
    else parts[0] + [c] + Join(parts[1..], c)
  }

  /** `Join(ps + [p])` puts one separator between `Join(ps)` and `p`. */
  lemma {:induction false} JoinSnoc(ps: seq<string>, p: string, c: char)
    requires |ps| >= 1
    ensures Join(ps + [p], c) == Join(ps, c) + [c] + p
    decreases |ps|
  {
    if |ps| == 1 {
      assert ps + [p] == [ps[0], p];
    } else {
      assert (ps + [p])[1..] == ps[1..] + [p];
      JoinSnoc(ps[1..], p, c);
    }
  }

  /** Joining the pieces of a split restores the string. */
  lemma {:induction false} JoinSplit(s: string, c: char)
    ensures Join(Split(s, c), c) == s
    decreases |s|
  {
    var last := LastIndexOf(s, c);
    if last >= 0 {
      JoinSplit(s[..last], c);
      JoinSnoc(Split(s[..last], c), s[last + 1..], c);
      assert s == s[..last] + [c] + s[last + 1..];
    }
  }

  /** A split has exactly one more piece than the string has separators. */
  lemma {:induction false} SplitCount(s: string, c: char)
    ensures |Split(s, c)| == multiset(s)[c] + 1
    decreases |s|
  {
    var last := LastIndexOf(s, c);
    if last < 0 {
      assert c !in s;
    } else {
      SplitCount(s[..last], c);
      assert s == s[..last] + [c] + s[last + 1..];
      assert c !in s[last + 1..];
      assert multiset(s) == multiset(s[..last]) + multiset([c]) + multiset(s[last + 1..]);
    }
  }

  /** The last piece of `s.split(c)` is what follows the last `c`
      (`s.split(c)[-1]`). */
  lemma SplitLast(s: string, c: char)
    ensures var parts := Split(s, c);
      parts[|parts| - 1] == s[LastIndexOf(s, c) + 1..]
  {
    if LastIndexOf(s, c) < 0 {
      assert s[0..] == s;
    }
  }

  /** Everything before the last piece of `s.split(c)`, joined back with `c`,
      is `s` up to its last `c`, and empty when `s` has no `c`
      (`c.join(s.split(c)[:-1])`). */
  lemma SplitDropLast(s: string, c: char)
    ensures var parts := Split(s, c);
      var last := LastIndexOf(s, c);
      Join(parts[..|parts| - 1], c) == if last < 0 then "" else s[..last]
  {
    var parts := Split(s, c);
    var last := LastIndexOf(s, c);
    if last >= 0 {
      assert parts[..|parts| - 1] == Split(s[..last], c);
      JoinSplit(s[..last], c);
    }
  }

  /** Python's `t in s` for strings: `t` occurs in `s` as a contiguous block,
      tried at every start position from the left. */
  predicate Contains(s: string, t: string)
    decreases |s|
  {
    || (|t| <= |s| && s[..|t|] == t)
    || (|s| > 0 && Contains(s[1..], t))
  }

  /** `t` is the block of `s` that starts at position `i`. */
  predicate OccursAt(s: string, t: string, i: int) {
    0 <= i <= |s| - |t| && s[i..i + |t|] == t
  }

  /** `t in s` holds exactly when `t` is the block of `s` at some start
      position. */
  lemma {:induction false} ContainsAt(s: string, t: string)
    ensures Contains(s, t) <==> exists i :: OccursAt(s, t, i)
    decreases |s|
  {
    if |t| <= |s| && s[..|t|] == t {
      assert OccursAt(s, t, 0);
    }
    if |s| > 0 {
      ContainsAt(s[1..], t);
      if Contains(s[1..], t) {
        var i :| OccursAt(s[1..], t, i);
        assert s[i + 1..i + 1 + |t|] == s[1..][i..i + |t|];
        assert OccursAt(s, t, i + 1);
      }
      if exists i :: OccursAt(s, t, i) {
        var i :| OccursAt(s, t, i);
        if i > 0 {
          assert s[1..][i - 1..i - 1 + |t|] == s[i..i + |t|];
          assert OccursAt(s[1..], t, i - 1);
        }
      }
    } else if exists i :: OccursAt(s, t, i) {
      var i :| OccursAt(s, t, i);
      assert s[..|t|] == s[i..i + |t|];
    }
  }

  /** Without a copy of its first character early enough in `s`, a
      non-empty `t` does not occur in `s`. */
  lemma NoRoomForFirstChar(s: string, t: string)
    requires |t| > 0 && !(|t| <= |s| && t[0] in s[..|s| - |t| + 1])
    ensures !Contains(s, t)
  {
    if Contains(s, t) {
      ContainsFirstChar(s, t);
      assert false;
    }
  }

  /** A string contains each of its suffixes. */
  lemma {:induction false} ContainsSuffix(u: string, t: string)
    ensures Contains(u + t, t)
    decreases |u|
  {
    if |u| == 0 {
      assert (u + t)[..|t|] == t;
    } else {
      ContainsSuffix(u[1..], t);
      assert (u + t)[1..] == u[1..] + t;
    }
  }

  /** An occurrence of a non-empty `t` starts at a copy of its first
      character early enough in `s` to leave room for the rest. */
  lemma {:induction false} ContainsFirstChar(s: string, t: string)
    requires |t| > 0 && Contains(s, t)
    ensures |t| <= |s| && t[0] in s[..|s| - |t| + 1]
    decreases |s|
  {
    if |t| <= |s| && s[..|t|] == t {
      assert s[..|s| - |t| + 1][0] == s[0];
    } else {
      ContainsFirstChar(s[1..], t);
      assert s[1..][..|s| - |t|] == s[..|s| - |t| + 1][1..];
    }
  }

  /** `s.replace(pat, repl)`: every occurrence of `pat`, found left to right
      without overlap, replaced by `repl`; an empty `pat` inserts `repl` before
      every character and at the end, as Python does. */
  function Replace(s: string, pat: string, repl: string): string
    decreases |s|
  {
    if |pat| == 0 then
      if |s| == 0 then repl else repl + [s[0]] + Replace(s[1..], pat, repl)
    else if |pat| <= |s| && s[..|pat|] == pat then
      repl + Replace(s[|pat|..], pat, repl)
    else if |s| == 0 then ""
    else [s[0]] + Replace(s[1..], pat, repl)
  }

  /** A string without an occurrence of a non-empty `pat` is left as it is. */
  lemma {:induction false} ReplaceAbsent(s: string, pat: string, repl: string)
    requires |pat| > 0 && !Contains(s, pat)
    ensures Replace(s, pat, repl) == s
    decreases |s|
  {
    if |s| > 0 {
      ReplaceAbsent(s[1..], pat, repl);
    }
  }

  /** A leading occurrence of a non-empty `pat` is the first one replaced. */
  lemma ReplaceLeading(pat: string, rest: string, repl: string)
    requires |pat| > 0
    ensures Replace(pat + rest, pat, repl) == repl + Replace(rest, pat, repl)
  {
    assert (pat + rest)[..|pat|] == pat;
    assert (pat + rest)[|pat|..] == rest;
  }
}
