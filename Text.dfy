/**
 * ASCII string primitives in the sense of Python's `str` methods, as the
 * configuration tools use them: `strip`, `rstrip(c)`, `lower`, `startswith`,
 * `endswith`, the `in` substring test, `split(sep)`, `split(sep, 1)` and
 * `str(n)` for a natural number. Unicode is not modelled: a character is
 * whitespace, a word character or an upper-case letter only by its ASCII
 * meaning.
 */
module Text {

  /** The ASCII characters for which Python's `str.isspace()` holds (and that
      the regular-expression class `\s` matches). */
  predicate IsSpace(c: char) {
    c == ' ' || c == '\t' || c == '\n' || c == '\r' || c == '\U{B}' || c == '\U{C}'
    || ('\U{1C}' <= c <= '\U{1F}')
  }

  /** The ASCII characters matched by the regular-expression class `\w`. */
  predicate IsWordChar(c: char) {
    ('a' <= c <= 'z') || ('A' <= c <= 'Z') || ('0' <= c <= '9') || c == '_'
  }

  predicate AllSpace(s: string) {
    forall i :: 0 <= i < |s| ==> IsSpace(s[i])
  }

  /** A non-empty run of word characters: what `\w+` matches. */
  predicate IsWord(s: string) {
    |s| > 0 && forall i :: 0 <= i < |s| ==> IsWordChar(s[i])
  }

  /** No whitespace at either end: what `strip()` leaves. */
  predicate IsStripped(s: string) {
    s == [] || (!IsSpace(s[0]) && !IsSpace(s[|s| - 1]))
  }

  predicate StartsWith(s: string, p: string) {
    |p| <= |s| && s[..|p|] == p
  }

  predicate EndsWith(s: string, p: string) {
    |p| <= |s| && s[|s| - |p|..] == p
  }

  /** Python's `t in s` for strings: `t` occurs in `s` at some position. */
  predicate Contains(s: string, t: string)
    decreases |s|
  {
    StartsWith(s, t) || (s != [] && Contains(s[1..], t))
  }

  /** A string that starts with `p` is `p` followed by the rest. */
  lemma StartsWithSplit(s: string, p: string)
    requires StartsWith(s, p)
    ensures s == p + s[|p|..]
  {
    assert s == s[..|p|] + s[|p|..];
  }

  /** Concatenation regrouped, for proofs that need one particular grouping. */
  lemma Assoc(a: string, b: string, c: string)
    ensures a + b + c == a + (b + c)
  {
  }

  /** `lstrip()`: drops the leading whitespace and nothing else. */
  function LStrip(s: string): (r: string)
    ensures |r| <= |s| && r == s[|s| - |r|..]
    ensures AllSpace(s[..|s| - |r|])
    ensures r == [] || !IsSpace(r[0])
  {
    if s != [] && IsSpace(s[0]) then
      var r := LStrip(s[1..]);
      LStripStep(s, r);
      r
    else s
  }

  /** One leading space more in front of the rest of `lstrip()`. */
  lemma LStripStep(s: string, r: string)
    requires s != [] && IsSpace(s[0])
    requires |r| <= |s| - 1 && r == s[1..][|s| - 1 - |r|..]
    requires AllSpace(s[1..][..|s| - 1 - |r|])
    ensures r == s[|s| - |r|..]
    ensures AllSpace(s[..|s| - |r|])
  {
    assert s[..|s| - |r|] == [s[0]] + s[1..][..|s| - 1 - |r|];
  }

  /** `rstrip()`: drops the trailing whitespace and nothing else. */
  function RStrip(s: string): (r: string)
    ensures |r| <= |s| && r == s[..|r|]
    ensures AllSpace(s[|r|..])
    ensures r == [] || !IsSpace(r[|r| - 1])
  {
    if s != [] && IsSpace(s[|s| - 1]) then
      var r := RStrip(s[..|s| - 1]);
      RStripStep(s, r);
      r
    else s
  }

  /** One trailing space more behind the rest of `rstrip()`. */
  lemma RStripStep(s: string, r: string)
    requires s != [] && IsSpace(s[|s| - 1])
    requires |r| <= |s| - 1 && r == s[..|s| - 1][..|r|]
    requires AllSpace(s[..|s| - 1][|r|..])
    ensures r == s[..|r|]
    ensures AllSpace(s[|r|..])
  {
    assert s[|r|..] == s[..|s| - 1][|r|..] + [s[|s| - 1]];
  }

  /** `strip()`. */
  function Strip(s: string): (r: string)
    ensures IsStripped(r)
  {
    var l := LStrip(s);
    var r := RStrip(l);
    assert r != [] ==> r[0] == l[0];
    r
  }

  /** `strip()` introduces no character. */
  lemma StripAvoids(s: string, x: char)
    requires x !in s
    ensures x !in Strip(s)
  {
    var lo, hi := StripSlice(s);
    assert forall i :: lo <= i < hi ==> Strip(s)[i - lo] == s[i];
  }

  /** `strip()` leaves a contiguous piece of its argument that has no
      whitespace at either end, and everything it drops is whitespace. */
  lemma StripSlice(s: string) returns (lo: nat, hi: nat)
    ensures lo <= hi <= |s| && Strip(s) == s[lo..hi]
    ensures AllSpace(s[..lo]) && AllSpace(s[hi..])
    ensures IsStripped(Strip(s))
  {
    var l := LStrip(s);
    lo := |s| - |l|;
    hi := lo + |RStrip(l)|;
    assert s[lo..hi] == l[..|RStrip(l)|];
    assert s[hi..] == l[|RStrip(l)|..];
    var r := RStrip(l);
    if r != [] {
      assert r[0] == l[0];
    }
  }

  /** A string that does not start with whitespace starts with its
      stripped form. */
  lemma StripUnpadded(p: string)
    requires p == [] || !IsSpace(p[0])
    ensures StartsWith(p, Strip(p))
  {
    var lo, hi := StripSlice(p);
    if lo > 0 {
      assert IsSpace(p[..lo][0]);
    }
  }

  lemma StartsWithTrans(a: string, b: string, c: string)
    requires StartsWith(a, b) && StartsWith(b, c)
    ensures StartsWith(a, c)
  {
    assert a[..|c|] == b[..|c|];
  }

  /** `strip()` leaves a string that already has no whitespace at its ends
      unchanged; so `strip()` is idempotent. */
  lemma {:induction false} StripStripped(s: string)
    requires IsStripped(s)
    ensures Strip(s) == s
  {
    assert LStrip(s) == s;
  }

  lemma {:induction false} LStripSpaces(w: string, s: string)
    requires AllSpace(w)
    requires s == [] || !IsSpace(s[0])
    ensures LStrip(w + s) == s
  {
    if w != [] {
      assert (w + s)[1..] == w[1..] + s;
      LStripSpaces(w[1..], s);
    }
  }

  lemma {:induction false} RStripSpaces(s: string, w: string)
    requires AllSpace(w)
    requires s == [] || !IsSpace(s[|s| - 1])
    ensures RStrip(s + w) == s
  {
    if w != [] {
      assert (s + w)[..|s + w| - 1] == s + w[..|w| - 1];
      RStripSpaces(s, w[..|w| - 1]);
    }
  }

  /** Leading whitespace in front of a text that does not start with
      whitespace makes no difference to `strip()`. */
  lemma StripLeadingSpaces(w: string, s: string)
    requires AllSpace(w)
    requires s == [] || !IsSpace(s[0])
    ensures Strip(w + s) == Strip(s)
  {
    LStripSpaces(w, s);
    LStripSpaces([], s);
    assert [] + s == s;
  }

  /** Whitespace padding on either side of a stripped string is removed by
      `strip()`, and nothing else is. */
  lemma StripPadded(w1: string, s: string, w2: string)
    requires AllSpace(w1) && AllSpace(w2) && IsStripped(s) && s != []
    ensures Strip(w1 + s + w2) == s
  {
    assert w1 + s + w2 == w1 + (s + w2);
    LStripSpaces(w1, s + w2);
    RStripSpaces(s, w2);
  }

  /** `rstrip(c)`: drops every trailing `c`. */
  function RStripChar(s: string, c: char): (r: string)
    ensures |r| <= |s| && r == s[..|r|]
    ensures forall i :: |r| <= i < |s| ==> s[i] == c
    ensures r == [] || r[|r| - 1] != c
  {
    if s != [] && s[|s| - 1] == c then RStripChar(s[..|s| - 1], c) else s
  }

  /** `s.split(c, 1)` when `c` occurs in `s`: the part before the first `c`
      and the part after it. */
  function SplitAtFirst(s: string, c: char): (r: (string, string))
    requires c in s
    ensures c !in r.0 && s == r.0 + [c] + r.1
  {
    if s[0] == c then ([], s[1..])
    else
      var rest := SplitAtFirst(s[1..], c);
      ([s[0]] + rest.0, rest.1)
  }

  /** `s.split(c, 1)` cuts at the only place it can: a split of `s` whose
      left part holds no `c` is the one `SplitAtFirst` returns. */
  lemma {:induction false} SplitAtFirstUnique(a: string, c: char, b: string)
    requires c !in a
    ensures SplitAtFirst(a + [c] + b, c) == (a, b)
  {
    if a != [] {
      assert (a + [c] + b)[0] == a[0] && a[0] != c;
      assert (a + [c] + b)[1..] == a[1..] + [c] + b;
      SplitAtFirstUnique(a[1..], c, b);
      assert [a[0]] + a[1..] == a;
    }
  }

  /** `s.split(c)`: the pieces between the occurrences of `c`. */
  function Split(s: string, c: char): (r: seq<string>)
    ensures |r| >= 1
    ensures forall i :: 0 <= i < |r| ==> c !in r[i]
  {
    if s == [] then [[]]
    else if s[0] == c then [[]] + Split(s[1..], c)
    else
      var rest := Split(s[1..], c);
      [[s[0]] + rest[0]] + rest[1..]
  }

  /** Joining the pieces of `split(c)` with `c` gives back the string. */
  function Join(parts: seq<string>, c: char): string
    requires |parts| >= 1
  {
    if |parts| == 1 then parts[0] else parts[0] + [c] + Join(parts[1..], c)
  }

  lemma {:induction false} JoinSplit(s: string, c: char)
    ensures Join(Split(s, c), c) == s
  {
    if s != [] {
      JoinSplit(s[1..], c);
      var rest := Split(s[1..], c);
      if s[0] != c && |rest| > 1 {
        assert Join(rest, c) == rest[0] + [c] + Join(rest[1..], c);
      }
    }
  }

  /** A first piece without separator splits off as one element. */
  lemma {:induction false} SplitCons(a: string, c: char, b: string)
    requires c !in a
    ensures Split(a + [c] + b, c) == [a] + Split(b, c)
  {
    if a != [] {
      assert (a + [c] + b)[0] == a[0] && a[0] != c;
      assert (a + [c] + b)[1..] == a[1..] + [c] + b;
      SplitCons(a[1..], c, b);
      assert [a[0]] + a[1..] == a;
    }
  }

  lemma {:induction false} SplitNoSeparator(a: string, c: char)
    requires c !in a
    ensures Split(a, c) == [a]
  {
    if a != [] {
      assert a[0] != c;
      SplitNoSeparator(a[1..], c);
      assert [a[0]] + a[1..] == a;
    }
  }

  /** The text of `lines`, each one followed by `c`. */
  function Terminated(lines: seq<string>, c: char): string {
    if lines == [] then [] else lines[0] + [c] + Terminated(lines[1..], c)
  }

  lemma TerminatedOne(line: string, c: char)
    ensures Terminated([line], c) == line + [c]
  {
    assert [line][1..] == [];
  }

  lemma {:induction false} TerminatedAppend(a: seq<string>, b: seq<string>, c: char)
    ensures Terminated(a + b, c) == Terminated(a, c) + Terminated(b, c)
  {
    if a == [] {
      assert a + b == b;
    } else {
      assert (a + b)[0] == a[0];
      assert (a + b)[1..] == a[1..] + b;
      TerminatedAppend(a[1..], b, c);
    }
  }

  /** Every line ends in `c` and holds no other `c`, so `split(c)` gives the
      lines back, followed by the empty piece after the last `c`. */
  lemma {:induction false} SplitTerminated(lines: seq<string>, c: char)
    requires forall i :: 0 <= i < |lines| ==> c !in lines[i]
    ensures Split(Terminated(lines, c), c) == lines + [[]]
  {
    if lines != [] {
      SplitTerminated(lines[1..], c);
      SplitCons(lines[0], c, Terminated(lines[1..], c));
    }
  }

  /** A substring of `t` turns up wherever `t` does. */
  lemma {:induction false} ContainsShift(s: string, k: nat, t: string)
    requires k <= |s| && Contains(s[k..], t)
    ensures Contains(s, t)
  {
    if k > 0 {
      assert s[1..][k - 1..] == s[k..];
      ContainsShift(s[1..], k - 1, t);
    }
  }

  lemma {:induction false} ContainsSuffix(s: string, a: string, b: string)
    requires Contains(s, a + b)
    ensures Contains(s, b)
    decreases |s|
  {
    if StartsWith(s, a + b) {
      assert s[..|a + b|] == a + b;
      assert s[|a|..][..|b|] == (a + b)[|a|..];
      assert (a + b)[|a|..] == b;
      ContainsShift(s, |a|, b);
    } else {
      ContainsSuffix(s[1..], a, b);
      ContainsShift(s, 1, b);
    }
  }

  function LowerChar(c: char): char {
    if 'A' <= c <= 'Z' then (c as int - 'A' as int + 'a' as int) as char else c
  }

  /** `lower()` on ASCII text. */
  function Lower(s: string): (r: string)
    ensures |r| == |s|
    ensures forall i :: 0 <= i < |s| ==> r[i] == LowerChar(s[i])
  {
    seq(|s|, i requires 0 <= i < |s| => LowerChar(s[i]))
  }

  /** The longest prefix of word characters. */
  function WordPrefix(s: string): (r: string)
    ensures StartsWith(s, r)
    ensures forall i :: 0 <= i < |r| ==> IsWordChar(r[i])
    ensures |r| == |s| || !IsWordChar(s[|r|])
  {
    if s != [] && IsWordChar(s[0]) then [s[0]] + WordPrefix(s[1..]) else []
  }

  /** A run of word characters followed by a non-word character (or nothing)
      is exactly what `WordPrefix` takes. */
  lemma {:induction false} WordPrefixOf(w: string, rest: string)
    requires forall i :: 0 <= i < |w| ==> IsWordChar(w[i])
    requires rest == [] || !IsWordChar(rest[0])
    ensures WordPrefix(w + rest) == w
  {
    if w == [] {
      assert w + rest == rest;
    } else {
      assert (w + rest)[0] == w[0];
      assert (w + rest)[1..] == w[1..] + rest;
      WordPrefixOf(w[1..], rest);
      assert [w[0]] + w[1..] == w;
    }
  }

  /** Dropping trailing `c` after a text that does not end in `c` gives that
      text back. */
  lemma RStripCharAppended(s: string, c: char)
    requires s == [] || s[|s| - 1] != c
    ensures RStripChar(s + [c], c) == s
  {
    assert (s + [c])[..|s + [c]| - 1] == s;
  }

  /** `"  " * level`: the formatter's indentation. */
  function Indent(level: nat): (r: string)
    ensures |r| == 2 * level && AllSpace(r)
  {
    if level == 0 then [] else "  " + Indent(level - 1)
  }

  function DigitChar(d: nat): char
    requires d < 10
  {
    ('0' as int + d) as char
  }

  /** `str(n)`: the decimal digits of `n`. */
  function NatToString(n: nat): (r: string)
    ensures |r| >= 1
    ensures n >= 10 ==> |r| >= 2
  {
    if n < 10 then [DigitChar(n)] else NatToString(n / 10) + [DigitChar(n % 10)]
  }

  /** Distinct numbers have distinct decimal spellings. */
  lemma {:induction false} NatToStringInjective(m: nat, n: nat)
    requires NatToString(m) == NatToString(n)
    ensures m == n
  {
    var s, t := NatToString(m), NatToString(n);
    if m < 10 && n < 10 {
      assert s[0] == t[0];
    } else if m >= 10 && n >= 10 {
      assert DigitChar(m % 10) == s[|s| - 1] == t[|t| - 1] == DigitChar(n % 10);
      assert NatToString(m / 10) == s[..|s| - 1] == t[..|t| - 1] == NatToString(n / 10);
      NatToStringInjective(m / 10, n / 10);
    } else {
      assert false;
    }
  }
}
