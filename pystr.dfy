/** The Python `str` operations the two handlers rely on: `split()` with no
    separator, `lower()`, `title()`, `endswith`, `replace`, the last piece of
    `split('/')`, and substring containment. Case mapping covers the ASCII
    letters only. */
module PyStr {

  /** Python's `str.isspace` for one character. */
  predicate IsSpace(c: char)
  {
    var n := c as int;
    n == 0x20 || 0x09 <= n <= 0x0D || 0x1C <= n <= 0x1F || n == 0x85 || n == 0xA0 ||
    n == 0x1680 || 0x2000 <= n <= 0x200A || n == 0x2028 || n == 0x2029 ||
    n == 0x202F || n == 0x205F || n == 0x3000
  }

  predicate IsUpper(c: char) { 'A' <= c <= 'Z' }

  predicate IsLowerLetter(c: char) { 'a' <= c <= 'z' }

  /** A character that has a case; `title()` starts a new word after any other. */
  predicate IsCased(c: char) { IsUpper(c) || IsLowerLetter(c) }

  function LowerChar(c: char): char
  {
    if IsUpper(c) then (c as int + 32) as char else c
  }

  function UpperChar(c: char): char
  {
    if IsLowerLetter(c) then (c as int - 32) as char else c
  }

  // ---------------------------------------------------------------- lower()

  function Lower(s: string): (r: string)
    ensures |r| == |s|
  {
    seq(|s|, i requires 0 <= i < |s| => LowerChar(s[i]))
  }

  /** `lower()` leaves no upper-case letter, changes only upper-case letters,
      and maps each to the same letter. */
  lemma LowerShape(s: string)
    ensures forall i :: 0 <= i < |s| ==> !IsUpper(Lower(s)[i])
    ensures forall i :: 0 <= i < |s| ==> IsSpace(Lower(s)[i]) == IsSpace(s[i])
    ensures forall i :: 0 <= i < |s| ==> (Lower(s)[i] == s[i] <==> !IsUpper(s[i]))
    ensures forall i :: 0 <= i < |s| ==> UpperChar(Lower(s)[i]) == UpperChar(s[i])
  {
  }

  lemma LowerIdempotent(s: string)
    ensures Lower(Lower(s)) == s <==> Lower(s) == s
    ensures Lower(Lower(s)) == Lower(s)
  {
  }

  // ---------------------------------------------------------------- title()

  /** `title()` scanning from a state where the previous character was cased
      (`prevCased`) or not: a cased character after a cased one is lowered,
      any other is upper-cased. */
  function TitleFrom(s: string, prevCased: bool): (r: string)
    ensures |r| == |s|
  {
    if s == [] then []
    else [if prevCased then LowerChar(s[0]) else UpperChar(s[0])] + TitleFrom(s[1..], IsCased(s[0]))
  }

  /** What `title()` does, position by position: the first letter of every word
      is upper case, every other letter is lower case, each letter stays the
      same letter, and characters without case are unchanged. */
  function Title(s: string): (r: string)
    ensures |r| == |s|
    ensures forall i :: 0 <= i < |s| ==> TitledAt(s, r, i, !StartsWord(s, i))
  {
    TitleFromShape(s, false);
    assert forall i :: 0 <= i < |s| ==> CasedBefore(s, i, false) == !StartsWord(s, i);
    TitleFrom(s, false)
  }

  /** A letter starts a word when it is first or follows a character without case. */
  predicate StartsWord(s: string, i: int)
    requires 0 <= i < |s|
  {
    i == 0 || !IsCased(s[i - 1])
  }

  /** Position `i` of `r` is what `title()` makes of `s[i]` when the character
      before it is cased (`after`) or not. */
  predicate TitledAt(s: string, r: string, i: int, after: bool)
    requires 0 <= i < |s| && |r| == |s|
  {
    (IsCased(s[i]) ==> LowerChar(r[i]) == LowerChar(s[i]) && (!after ==> IsUpper(r[i])) && (after ==> IsLowerLetter(r[i]))) &&
    (!IsCased(s[i]) ==> r[i] == s[i])
  }

  /** Whether the character before position `i` is cased, `p` standing for the
      state before the first character. */
  function CasedBefore(s: string, i: int, p: bool): bool
    requires 0 <= i <= |s|
  {
    if i == 0 then p else IsCased(s[i - 1])
  }

  lemma {:induction false} TitleFromShape(s: string, p: bool)
    ensures forall i :: 0 <= i < |s| ==> TitledAt(s, TitleFrom(s, p), i, CasedBefore(s, i, p))
  {
    if s != [] {
      var tail := TitleFrom(s[1..], IsCased(s[0]));
      TitleFromShape(s[1..], IsCased(s[0]));
      var r := TitleFrom(s, p);
      assert r == [if p then LowerChar(s[0]) else UpperChar(s[0])] + tail;
      assert TitledAt(s, r, 0, p);
      forall i | 1 <= i < |s|
        ensures TitledAt(s, r, i, CasedBefore(s, i, p))
      {
        assert r[i] == tail[i - 1] && s[i] == s[1..][i - 1];
        assert TitledAt(s[1..], tail, i - 1, CasedBefore(s[1..], i - 1, IsCased(s[0])));
        if i > 1 {
          assert s[1..][i - 2] == s[i - 1];
        }
      }
    }
  }

  /** `title()` applied to its own result changes nothing. */
  lemma {:induction false} TitleIdempotent(s: string)
    ensures Title(Title(s)) == Title(s)
  {
    TitleFromIdempotent(s, false);
  }

  lemma {:induction false} TitleFromIdempotent(s: string, p: bool)
    ensures TitleFrom(TitleFrom(s, p), p) == TitleFrom(s, p)
  {
    if s != [] {
      var r := TitleFrom(s, p);
      var c := if p then LowerChar(s[0]) else UpperChar(s[0]);
      assert r == [c] + TitleFrom(s[1..], IsCased(s[0]));
      assert r[0] == c && r[1..] == TitleFrom(s[1..], IsCased(s[0]));
      assert IsCased(c) == IsCased(s[0]);
      TitleFromIdempotent(s[1..], IsCased(s[0]));
    }
  }

  // ---------------------------------------------------------------- split()

  /** A piece of `split()` output: non-empty and free of whitespace. */
  predicate IsToken(t: string)
  {
    t != [] && forall i :: 0 <= i < |t| ==> !IsSpace(t[i])
  }

  /** The length of the run of non-whitespace characters at the front of `s`. */
  function TokenLength(s: string): (n: nat)
    ensures n <= |s|
    ensures forall i :: 0 <= i < n ==> !IsSpace(s[i])
    ensures n == |s| || IsSpace(s[n])
  {
    if s == [] || IsSpace(s[0]) then 0 else 1 + TokenLength(s[1..])
  }

  /** Python's `str.split()` with no separator: the maximal runs of
      non-whitespace characters, in order; leading, trailing and repeated
      whitespace produce no empty pieces. */
  function Split(s: string): (tokens: seq<string>)
    ensures forall k :: 0 <= k < |tokens| ==> IsToken(tokens[k])
    decreases |s|
  {
    if s == [] then []
    else if IsSpace(s[0]) then Split(s[1..])
    else
      var n := TokenLength(s);
      [s[..n]] + Split(s[n..])
  }

  /** The tokens written out separated by single spaces. */
  function JoinSpace(ts: seq<string>): string
  {
    if ts == [] then ""
    else if |ts| == 1 then ts[0]
    else ts[0] + " " + JoinSpace(ts[1..])
  }

  lemma {:induction false} TokenLengthOfToken(t: string, rest: string)
    requires IsToken(t)
    requires rest == [] || IsSpace(rest[0])
    ensures TokenLength(t + rest) == |t|
  {
    if |t| > 1 {
      TokenLengthOfToken(t[1..], rest);
      assert (t + rest)[1..] == t[1..] + rest;
    } else {
      assert (t + rest)[1..] == rest;
    }
  }

  /** A token followed by whitespace or the end splits off as the first piece. */
  lemma SplitAfterToken(t: string, rest: string)
    requires IsToken(t)
    requires rest == [] || IsSpace(rest[0])
    ensures Split(t + rest) == [t] + Split(rest)
  {
    TokenLengthOfToken(t, rest);
    assert (t + rest)[..|t|] == t && (t + rest)[|t|..] == rest;
  }

  /** Whitespace before the first token produces no piece. Together with
      `SplitAfterToken` and `Split([]) == []` this fixes `split()` on every
      string. */
  lemma SplitSkipsSpace(c: char, s: string)
    requires IsSpace(c)
    ensures Split([c] + s) == Split(s)
  {
    assert ([c] + s)[1..] == s;
  }

  /** `split()` inverts joining tokens with single spaces. */
  lemma {:induction false} SplitJoinSpace(ts: seq<string>)
    requires forall k :: 0 <= k < |ts| ==> IsToken(ts[k])
    ensures Split(JoinSpace(ts)) == ts
  {
    if |ts| == 1 {
      SplitAfterToken(ts[0], "");
      assert ts[0] + "" == ts[0];
    } else if |ts| > 1 {
      var tail := JoinSpace(ts[1..]);
      SplitJoinSpace(ts[1..]);
      assert ts[0] + " " + tail == ts[0] + (" " + tail);
      SplitAfterToken(ts[0], " " + tail);
      assert (" " + tail)[1..] == tail;
    }
  }

  /** A single word is one piece; a blank string has none. */
  lemma SplitWord(t: string)
    requires IsToken(t)
    ensures Split(t) == [t]
  {
    SplitAfterToken(t, "");
    assert t + "" == t;
  }

  lemma {:induction false} SplitBlank(s: string)
    requires forall i :: 0 <= i < |s| ==> IsSpace(s[i])
    ensures Split(s) == []
  {
    if s != [] {
      SplitBlank(s[1..]);
    }
  }

  // ---------------------------------------------------- prefixes, suffixes

  predicate StartsWith(s: string, prefix: string)
  {
    |prefix| <= |s| && s[..|prefix|] == prefix
  }

  predicate EndsWith(s: string, suffix: string)
  {
    |suffix| <= |s| && s[|s| - |suffix|..] == suffix
  }

  /** `pat` occurs in `s` starting at position `j`. */
  predicate OccursAt(s: string, pat: string, j: int)
  {
    0 <= j && j + |pat| <= |s| && s[j..j + |pat|] == pat
  }

  /** An occurrence in a suffix of `s` is an occurrence in `s`, shifted. */
  lemma OccursShift(s: string, k: int, pat: string, j: int)
    requires 0 <= k <= |s| && 0 <= j
    ensures OccursAt(s[k..], pat, j) <==> OccursAt(s, pat, j + k)
  {
    if j + |pat| <= |s| - k {
      assert s[k..][j..j + |pat|] == s[j + k..j + k + |pat|];
    }
  }

  /** Python's `t in s` for strings. */
  predicate Contains(s: string, t: string)
  {
    exists j | 0 <= j <= |s| :: OccursAt(s, t, j)
  }

  lemma ContainsMiddle(a: string, t: string, b: string)
    ensures Contains(a + t + b, t)
  {
    assert (a + t + b)[|a|..|a| + |t|] == t;
    assert OccursAt(a + t + b, t, |a|);
  }

  // ---------------------------------------------------------------- replace

  /** Python's `s.replace(pat, rep)`: every non-overlapping occurrence of `pat`,
      found scanning from the left, is replaced by `rep`; no character comes
      from anywhere else. */
  function Replace(s: string, pat: string, rep: string): (r: string)
    requires pat != []
    ensures forall c :: c in r ==> c in s || c in rep
    decreases |s|
  {
    if s == [] then []
    else if StartsWith(s, pat) then
      var tail := Replace(s[|pat|..], pat, rep);
      assert forall c :: c in s[|pat|..] ==> c in s;
      rep + tail
    else
      var tail := Replace(s[1..], pat, rep);
      assert forall c :: c in s[1..] ==> c in s;
      [s[0]] + tail
  }

  /** Without an occurrence of `pat`, `replace` returns the string unchanged. */
  lemma {:induction false} ReplaceAbsent(s: string, pat: string, rep: string)
    requires pat != []
    requires forall j :: !OccursAt(s, pat, j)
    ensures Replace(s, pat, rep) == s
  {
    if s != [] {
      assert !OccursAt(s, pat, 0);
      forall j
        ensures !OccursAt(s[1..], pat, j)
      {
        if j >= 0 {
          OccursShift(s, 1, pat, j);
        }
      }
      ReplaceAbsent(s[1..], pat, rep);
    }
  }

  /** An occurrence of `pat` at the front is replaced by `rep`. */
  lemma ReplaceOccurrence(t: string, pat: string, rep: string)
    requires pat != []
    ensures Replace(pat + t, pat, rep) == rep + Replace(t, pat, rep)
  {
    assert (pat + t)[..|pat|] == pat;
    assert (pat + t)[|pat|..] == t;
  }

  /** `replace` works piecewise on `b + t` when no occurrence of `pat` starts
      inside `b` and ends inside `t`. */
  lemma {:induction false} ReplaceAppend(b: string, t: string, pat: string, rep: string)
    requires pat != []
    requires forall j :: |b| - |pat| < j < |b| ==> !OccursAt(b + t, pat, j)
    ensures Replace(b + t, pat, rep) == Replace(b, pat, rep) + Replace(t, pat, rep)
  {
    if b == [] {
      assert b + t == t;
    } else if StartsWith(b + t, pat) {
      assert OccursAt(b + t, pat, 0);
      assert |pat| <= |b|;
      assert b[..|pat|] == (b + t)[..|pat|];
      var b' := b[|pat|..];
      assert (b + t)[|pat|..] == b' + t;
      forall j | |b'| - |pat| < j < |b'|
        ensures !OccursAt(b' + t, pat, j)
      {
        if j >= 0 {
          OccursShift(b + t, |pat|, pat, j);
        }
      }
      ReplaceAppend(b', t, pat, rep);
    } else {
      assert !StartsWith(b, pat) by {
        if |pat| <= |b| {
          assert b[..|pat|] == (b + t)[..|pat|];
        }
      }
      var b' := b[1..];
      assert (b + t)[0] == b[0] && (b + t)[1..] == b' + t;
      forall j | |b'| - |pat| < j < |b'|
        ensures !OccursAt(b' + t, pat, j)
      {
        if j >= 0 {
          OccursShift(b + t, 1, pat, j);
        }
      }
      ReplaceAppend(b', t, pat, rep);
    }
  }

  // ------------------------------------------------------- split(sep)[-1]

  /** `s.split(sep)[-1]`: the part of `s` after its last `sep`, or all of `s`. */
  function LastSegment(s: string, sep: char): (r: string)
    ensures sep !in r
    ensures EndsWith(s, r)
    ensures |r| == |s| || s[|s| - |r| - 1] == sep
  {
    if s == [] then []
    else if s[|s| - 1] == sep then []
    else LastSegment(s[..|s| - 1], sep) + [s[|s| - 1]]
  }
}
