/**
 * The Python string built-ins the generator relies on: `str.split` with an
 * explicit separator, `str.join`, `str.strip`, `startswith`, `endswith`,
 * the `in` substring test and `str.replace`.
 */
module Text {

  /** Python's `str.isspace` for a single code point. */
  predicate IsSpace(c: char)
  {
    c == ' ' || ('\t' <= c <= '\r') || ('\U{1c}' <= c <= '\U{1f}') || c == '\U{85}'
    || c == '\U{a0}' || c == '\U{1680}' || ('\U{2000}' <= c <= '\U{200a}')
    || c == '\U{2028}' || c == '\U{2029}' || c == '\U{202f}' || c == '\U{205f}' || c == '\U{3000}'
  }

  function TrimStart(s: string): string
  {
    if |s| > 0 && IsSpace(s[0]) then TrimStart(s[1..]) else s
  }

  function TrimEnd(s: string): string
  {
    if |s| > 0 && IsSpace(s[|s| - 1]) then TrimEnd(s[..|s| - 1]) else s
  }

  /** `s.strip()` */
  function Strip(s: string): string
  {
    TrimEnd(TrimStart(s))
  }

  /** `s.startswith(p)` */
  predicate StartsWith(s: string, p: string)
  {
    |p| <= |s| && s[..|p|] == p
  }

  /** `s.endswith(p)` */
  predicate EndsWith(s: string, p: string)
  {
    |p| <= |s| && s[|s| - |p|..] == p
  }

  /** `p in s` on strings: `p` occurs in `s` as a substring. */
  predicate Contains(s: string, p: string)
    decreases |s|
  {
    StartsWith(s, p) || (|s| > 0 && Contains(s[1..], p))
  }

  /** `s.split(sep)` for a one-character separator: never empty. */
  function Split(s: string, sep: char): (r: seq<string>)
    ensures |r| >= 1
  {
    if |s| == 0 then [""]
    else
      var rest := Split(s[1..], sep);
      if s[0] == sep then [""] + rest else [[s[0]] + rest[0]] + rest[1..]
  }

  /** `sep.join(parts)` for a one-character separator. */
  function Join(parts: seq<string>, sep: char): string
  {
    if |parts| == 0 then ""
    else if |parts| == 1 then parts[0]
    else parts[0] + [sep] + Join(parts[1..], sep)
  }

  /**
   * `s.replace(old, new)`: every non-overlapping occurrence of `pat`, from
   * the left, becomes `rep`; an empty `pat` inserts `rep` around every
   * character.
   */
  function ReplaceAll(s: string, pat: string, rep: string): string
    decreases |s|
  {
    if pat == "" then rep + Interleave(s, rep)
    else if |s| == 0 then ""
    else if StartsWith(s, pat) then rep + ReplaceAll(s[|pat|..], pat, rep)
    else [s[0]] + ReplaceAll(s[1..], pat, rep)
  }

  function Interleave(s: string, rep: string): string
  {
    if |s| == 0 then "" else [s[0]] + rep + Interleave(s[1..], rep)
  }

  /** `"".join(parts)` */
  function Concat(parts: seq<string>): string
  {
    if |parts| == 0 then "" else parts[0] + Concat(parts[1..])
  }

  lemma {:induction false} ConcatAppend(a: seq<string>, b: seq<string>)
    ensures Concat(a + b) == Concat(a) + Concat(b)
  {
    if |a| == 0 {
      assert a + b == b;
    } else {
      assert (a + b)[1..] == a[1..] + b;
      ConcatAppend(a[1..], b);
    }
  }

  /** Every piece `Split` returns is free of the separator. */
  lemma {:induction false} SplitPiecesHaveNoSep(s: string, sep: char)
    ensures forall k :: 0 <= k < |Split(s, sep)| ==> sep !in Split(s, sep)[k]
  {
    if |s| > 0 {
      SplitPiecesHaveNoSep(s[1..], sep);
    }
  }

  /** Joining what `Split` returns gives the text back. */
  lemma {:induction false} JoinSplit(s: string, sep: char)
    ensures Join(Split(s, sep), sep) == s
  {
    if |s| > 0 {
      var rest := Split(s[1..], sep);
      JoinSplit(s[1..], sep);
      if s[0] == sep {
        assert s == [sep] + s[1..];
      } else {
        var r := [[s[0]] + rest[0]] + rest[1..];
        if |rest| == 1 {
        } else {
          assert r[1..] == rest[1..];
          assert Join(rest, sep) == rest[0] + [sep] + Join(rest[1..], sep);
          assert s == [s[0]] + s[1..];
        }
      }
    }
  }

  /** A text without the separator splits into itself. */
  lemma {:induction false} SplitWithoutSep(s: string, sep: char)
    requires sep !in s
    ensures Split(s, sep) == [s]
  {
    if |s| > 0 {
      assert sep !in s[1..];
      SplitWithoutSep(s[1..], sep);
      assert [s[0]] + s[1..] == s;
    }
  }

  /** Splitting `p + sep + t` where `p` has no separator splits off `p`. */
  lemma {:induction false} SplitAfterPiece(p: string, t: string, sep: char)
    requires sep !in p
    ensures Split(p + [sep] + t, sep) == [p] + Split(t, sep)
  {
    if |p| == 0 {
      assert p + [sep] + t == [sep] + t;
      assert ([sep] + t)[1..] == t;
    } else {
      assert (p + [sep] + t)[1..] == p[1..] + [sep] + t;
      assert sep !in p[1..];
      SplitAfterPiece(p[1..], t, sep);
      assert [p[0]] + p[1..] == p;
    }
  }

  /** Splitting a join of separator-free pieces gives the pieces back. */
  lemma {:induction false} SplitJoin(parts: seq<string>, sep: char)
    requires |parts| >= 1
    requires forall k :: 0 <= k < |parts| ==> sep !in parts[k]
    ensures Split(Join(parts, sep), sep) == parts
  {
    if |parts| == 1 {
      SplitWithoutSep(parts[0], sep);
    } else {
      SplitJoin(parts[1..], sep);
      SplitAfterPiece(parts[0], Join(parts[1..], sep), sep);
    }
  }

  /** A text in which the pattern does not occur is left as it is. */
  lemma {:induction false} ReplaceAbsent(s: string, pat: string, rep: string)
    requires pat != "" && !Contains(s, pat)
    ensures ReplaceAll(s, pat, rep) == s
  {
    if |s| > 0 {
      ReplaceAbsent(s[1..], pat, rep);
      assert [s[0]] + s[1..] == s;
    }
  }

  /**
   * Replacing in `s + t` replaces in each part separately when no occurrence
   * can straddle the boundary: the last character of `s`, or the first of
   * `t`, is not in the pattern.
   */
  lemma {:induction false} ReplaceSplit(s: string, t: string, pat: string, rep: string)
    requires pat != ""
    requires (|s| > 0 && s[|s| - 1] !in pat) || (|t| > 0 && t[0] !in pat)
    ensures ReplaceAll(s + t, pat, rep) == ReplaceAll(s, pat, rep) + ReplaceAll(t, pat, rep)
  {
    if |s| == 0 {
      assert s + t == t;
    } else if StartsWith(s + t, pat) {
      if |pat| > |s| {
        StraddleShares(s, t, pat);
        assert false;
      }
      assert s[..|pat|] == (s + t)[..|pat|];
      assert (s + t)[|pat|..] == s[|pat|..] + t;
      if |pat| < |s| {
        ReplaceSplit(s[|pat|..], t, pat, rep);
        AppendAssoc(rep, ReplaceAll(s[|pat|..], pat, rep), ReplaceAll(t, pat, rep));
      } else {
        assert s[|pat|..] + t == t;
        assert ReplaceAll(s[|pat|..], pat, rep) == "";
      }
    } else {
      assert !StartsWith(s, pat) by {
        if |pat| <= |s| {
          assert s[..|pat|] == (s + t)[..|pat|];
        }
      }
      assert (s + t)[1..] == s[1..] + t;
      if |s| > 1 {
        ReplaceSplit(s[1..], t, pat, rep);
        AppendAssoc([s[0]], ReplaceAll(s[1..], pat, rep), ReplaceAll(t, pat, rep));
      } else {
        assert s[1..] + t == t;
        assert ReplaceAll(s[1..], pat, rep) == "";
      }
    }
  }

  /** Concatenation is associative; stated once so that the proofs above need not rederive it. */
  lemma AppendAssoc<T>(a: seq<T>, b: seq<T>, c: seq<T>)
    ensures a + (b + c) == (a + b) + c
  {
  }

  /** An occurrence at the start of `s + t` that is longer than `s` holds the characters on both sides of the boundary. */
  lemma StraddleShares(s: string, t: string, pat: string)
    requires 0 < |s| < |pat| && StartsWith(s + t, pat)
    ensures s[|s| - 1] in pat
    ensures |t| > 0 && t[0] in pat
  {
    assert (s + t)[..|pat|] == pat;
    assert pat[|s| - 1] == s[|s| - 1];
    assert pat[|s|] == t[0];
  }

  /** A single character that is not in the pattern is left as it is. */
  lemma ReplaceOneChar(c: char, pat: string, rep: string)
    requires pat != "" && c !in pat
    ensures ReplaceAll([c], pat, rep) == [c]
  {
    assert !StartsWith([c], pat) by {
      if |pat| <= 1 {
        assert [c][..|pat|][0] == c;
      }
    }
    assert [c][1..] == "";
  }

  /** Replacing a whole text by itself quotes it exactly once. */
  lemma ReplaceWhole(s: string, rep: string)
    ensures ReplaceAll(s, s, rep) == rep
  {
    if s != "" {
      assert s[|s|..] == "";
    }
  }
}
