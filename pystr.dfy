/**
 * The Python string operations the loaders use, with Python's semantics:
 * `in`/`find`, `replace`, `strip`, `zfill`, slices with negative bounds,
 * `int()` on a digit string, `str()` on an integer and `dict.get(k, k)`.
 * Strings are sequences of decoded characters.
 */
module PyStr {

  /** `sub in s`, equivalently `s.find(sub) != -1`. */
  predicate Contains(s: string, sub: string)
    decreases |s|
  {
    sub <= s || (|s| > 0 && Contains(s[1..], sub))
  }

  lemma {:induction false} ContainsChar(s: string, c: char)
    ensures Contains(s, [c]) <==> c in s
  {
    if |s| > 0 {
      ContainsChar(s[1..], c);
      assert s == [s[0]] + s[1..];
    }
  }

  /** A string lacking one of the characters of `sub` does not contain `sub`. */
  lemma {:induction false} ContainsNeedsChar(s: string, sub: string, c: char)
    requires c in sub && c !in s
    ensures !Contains(s, sub)
    decreases |s|
  {
    if |s| > 0 {
      assert forall i :: 1 <= i < |s| ==> s[1..][i - 1] == s[i];
      ContainsNeedsChar(s[1..], sub, c);
    }
    var k :| 0 <= k < |sub| && sub[k] == c;
    if k < |s| {
      assert s[k] != sub[k];
    }
  }

  /** An occurrence in a suffix is an occurrence in the whole string. */
  lemma {:induction false} ContainsInSuffix(s: string, k: nat, sub: string)
    requires k <= |s|
    ensures Contains(s[k..], sub) ==> Contains(s, sub)
  {
    if k > 0 {
      assert s[1..][k - 1..] == s[k..];
      ContainsInSuffix(s[1..], k - 1, sub);
    }
  }

  /** An occurrence in a prefix is an occurrence in the whole string. */
  lemma {:induction false} ContainsInPrefix(s: string, k: nat, sub: string)
    requires k <= |s|
    ensures Contains(s[..k], sub) ==> Contains(s, sub)
  {
    if sub <= s[..k] {
      assert sub <= s;
    } else if k > 0 {
      assert s[..k][1..] == s[1..][..k - 1];
      ContainsInPrefix(s[1..], k - 1, sub);
    }
  }

  /** Whatever occurs in a slice occurs in the whole. */
  lemma ContainsInSlice(s: string, i: nat, j: nat, sub: string)
    requires i <= j <= |s|
    ensures Contains(s[i..j], sub) ==> Contains(s, sub)
  {
    assert s[..j][i..] == s[i..j];
    ContainsInSuffix(s[..j], i, sub);
    ContainsInPrefix(s, j, sub);
  }

  /** `s.replace(pat, sub)`: every non-overlapping occurrence, left to right. */
  function Replace(s: string, pat: string, sub: string): string
    requires |pat| > 0
    decreases |s|
  {
    if s == [] then []
    else if pat <= s then sub + Replace(s[|pat|..], pat, sub)
    else [s[0]] + Replace(s[1..], pat, sub)
  }

  lemma CharPrefix(c: char, s: string)
    ensures [c] <= s <==> |s| > 0 && s[0] == c
  {
    if |s| > 0 {
      assert s[..1] == [s[0]];
    }
  }

  /** Replacing a single character distributes over concatenation. */
  lemma {:induction false} ReplaceCharConcat(a: string, b: string, c: char, sub: string)
    ensures Replace(a + b, [c], sub) == Replace(a, [c], sub) + Replace(b, [c], sub)
  {
    if a != [] {
      var ab := a + b;
      assert ab[1..] == a[1..] + b;
      CharPrefix(c, ab);
      CharPrefix(c, a);
      assert Replace(ab, [c], sub) == (if a[0] == c then sub else [a[0]]) + Replace(ab[1..], [c], sub);
      assert Replace(a, [c], sub) == (if a[0] == c then sub else [a[0]]) + Replace(a[1..], [c], sub);
      ReplaceCharConcat(a[1..], b, c, sub);
    } else {
      assert a + b == b;
    }
  }

  /** A character absent from the input and from the replacement stays absent. */
  lemma {:induction false} ReplaceKeepsCharAbsent(s: string, pat: string, sub: string, c: char)
    requires |pat| > 0 && c !in s && c !in sub
    ensures c !in Replace(s, pat, sub)
  {
    if s != [] {
      if pat <= s {
        assert forall i :: |pat| <= i < |s| ==> s[|pat|..][i - |pat|] == s[i];
        ReplaceKeepsCharAbsent(s[|pat|..], pat, sub, c);
      } else {
        assert forall i :: 1 <= i < |s| ==> s[1..][i - 1] == s[i];
        ReplaceKeepsCharAbsent(s[1..], pat, sub, c);
      }
    }
  }

  /** A non-empty prefix agrees on the first character and continues as a prefix of the rest. */
  lemma PrefixCons(p: string, s: string)
    ensures |p| > 0 && |s| > 0 ==> (p <= s <==> p[0] == s[0] && p[1..] <= s[1..])
  {
  }

  /**
   * A prefix of the replaced text that uses no character of the replacement
   * was already a prefix of the input.
   */
  lemma {:induction false} PrefixOfReplace(p: string, t: string, pat: string, sub: string)
    requires |pat| > 0 && |sub| > 0
    requires forall i :: 0 <= i < |p| ==> p[i] !in sub
    ensures p <= Replace(t, pat, sub) ==> p <= t
  {
    if p != [] && t != [] {
      var r := Replace(t, pat, sub);
      PrefixCons(p, r);
      if pat <= t {
        var rest := Replace(t[|pat|..], pat, sub);
        assert r == sub + rest;
        assert r[0] == sub[0];
        assert r[0] in sub;
        assert p[0] != r[0];
      } else {
        assert r[1..] == Replace(t[1..], pat, sub);
        PrefixOfReplace(p[1..], t[1..], pat, sub);
        PrefixCons(p, t);
      }
    }
  }

  /** Text made of characters foreign to `pat` cannot start an occurrence of it. */
  lemma {:induction false} ContainsAfterForeign(a: string, x: string, pat: string)
    requires |pat| > 0
    requires forall i :: 0 <= i < |a| ==> a[i] !in pat
    requires !Contains(x, pat)
    ensures !Contains(a + x, pat)
  {
    if a != [] {
      assert (a + x)[1..] == a[1..] + x;
      assert forall i :: 0 <= i < |a[1..]| ==> a[1..][i] == a[i + 1];
      ContainsAfterForeign(a[1..], x, pat);
      assert (a + x)[0] == a[0];
      assert a[0] !in pat;
      assert pat[0] in pat;
      PrefixCons(pat, a + x);
    } else {
      assert a + x == x;
    }
  }

  /**
   * After `s.replace(pat, sub)` no occurrence of `pat` is left, provided the
   * replacement shares no character with `pat`.
   */
  lemma {:induction false} ReplaceRemovesPattern(s: string, pat: string, sub: string)
    requires |pat| > 0 && |sub| > 0
    requires forall i :: 0 <= i < |sub| ==> sub[i] !in pat
    ensures !Contains(Replace(s, pat, sub), pat)
  {
    if s != [] {
      if pat <= s {
        ReplaceRemovesPattern(s[|pat|..], pat, sub);
        ContainsAfterForeign(sub, Replace(s[|pat|..], pat, sub), pat);
      } else {
        var r := Replace(s, pat, sub);
        ReplaceRemovesPattern(s[1..], pat, sub);
        assert r[1..] == Replace(s[1..], pat, sub);
        forall i | 0 <= i < |pat[1..]| ensures pat[1..][i] !in sub {
          assert pat[1..][i] == pat[i + 1];
        }
        PrefixOfReplace(pat[1..], s[1..], pat, sub);
        PrefixCons(pat, r);
        PrefixCons(pat, s);
      }
    }
  }

  /** Python's `str.isspace` for one byte: space, tab, newline, CR, VT, FF. */
  predicate IsSpace(c: char) {
    c == ' ' || c == '\t' || c == '\n' || c == '\r' || c == '\U{000B}' || c == '\U{000C}'
  }

  function LStrip(s: string): (r: string)
    ensures |r| <= |s| && r == s[|s| - |r|..]
    ensures forall i :: 0 <= i < |s| - |r| ==> IsSpace(s[i])
    ensures r == [] || !IsSpace(r[0])
    decreases |s|
  {
    if |s| > 0 && IsSpace(s[0]) then LStrip(s[1..]) else s
  }

  function RStrip(s: string): (r: string)
    ensures |r| <= |s| && r == s[..|r|]
    ensures forall i :: |r| <= i < |s| ==> IsSpace(s[i])
    ensures r == [] || !IsSpace(r[|r| - 1])
    decreases |s|
  {
    if |s| > 0 && IsSpace(s[|s| - 1]) then RStrip(s[..|s| - 1]) else s
  }

  /** `s.strip()` with no argument. */
  function Strip(s: string): string {
    RStrip(LStrip(s))
  }

  function Zeros(n: nat): (r: string)
    ensures |r| == n && forall i :: 0 <= i < n ==> r[i] == '0'
  {
    seq(n, _ => '0')
  }

  predicate IsSign(c: char) { c == '+' || c == '-' }

  /**
   * `s.zfill(width)`: left-pads with zeros to `width` characters, keeping a
   * leading sign in front of the zeros.
   */
  function ZFill(s: string, width: nat): (r: string)
    ensures |r| == if |s| >= width then |s| else width
    ensures |s| >= width ==> r == s
    ensures |s| < width && (s == [] || !IsSign(s[0])) ==>
      r[width - |s|..] == s && r[..width - |s|] == Zeros(width - |s|)
    ensures |s| < width && s != [] && IsSign(s[0]) ==>
      r[0] == s[0] && r[width - |s| + 1..] == s[1..] && r[1..width - |s| + 1] == Zeros(width - |s|)
  {
    if |s| >= width then s
    else if s != [] && IsSign(s[0]) then [s[0]] + Zeros(width - |s|) + s[1..]
    else Zeros(width - |s|) + s
  }

  /** `s[:n]`. */
  function Take(s: string, n: nat): (r: string)
    ensures |r| == if n <= |s| then n else |s|
    ensures r <= s
  {
    if n <= |s| then s[..n] else s
  }

  /** `s[:-n]` for a positive `n`: all but the last `n` characters. */
  function AllButLast(s: string, n: nat): (r: string)
    requires n > 0
    ensures |r| == if |s| >= n then |s| - n else 0
    ensures r <= s
  {
    if |s| >= n then s[..|s| - n] else []
  }

  /** `s[-n:]` for a positive `n`: the last `n` characters, or all of a shorter string. */
  function LastN(s: string, n: nat): (r: string)
    requires n > 0
    ensures |r| == if |s| >= n then n else |s|
    ensures r == s[|s| - |r|..]
  {
    if |s| >= n then s[|s| - n..] else s
  }

  /** `s[:-n]` and `s[-n:]` always put `s` back together. */
  lemma SplitLastJoins(s: string, n: nat)
    requires n > 0
    ensures AllButLast(s, n) + LastN(s, n) == s
  {
  }

  /** `d.get(k, k)`: the mapped value, or the key itself when it is absent. */
  function Get(d: map<string, string>, k: string): string {
    if k in d then d[k] else k
  }

  predicate IsDigit(c: char) { '0' <= c <= '9' }

  predicate AllDigits(s: string) {
    forall i :: 0 <= i < |s| ==> IsDigit(s[i])
  }

  function DigitValue(c: char): nat
    requires IsDigit(c)
  {
    (c as int - '0' as int) as nat
  }

  function DigitChar(d: nat): (c: char)
    requires d < 10
    ensures IsDigit(c) && DigitValue(c) == d
  {
    ('0' as int + d) as char
  }

  /** `int(s)` on a string of decimal digits. */
  function DigitsValue(s: string): nat
    requires AllDigits(s)
    decreases |s|
  {
    if |s| == 0 then 0 else 10 * DigitsValue(s[..|s| - 1]) + DigitValue(s[|s| - 1])
  }

  /** `str(n)` for a natural number: the shortest decimal spelling. */
  function NatToString(n: nat): (r: string)
    ensures |r| > 0 && AllDigits(r)
    ensures r[0] != '0' || n == 0
    ensures DigitsValue(r) == n
    decreases n
  {
    if n < 10 then [DigitChar(n)]
    else
      var high := NatToString(n / 10);
      var r := high + [DigitChar(n % 10)];
      assert r[..|r| - 1] == high;
      r
  }

  /** `str(i)` for an integer. */
  function IntToString(i: int): (r: string)
    ensures |r| > 0
    ensures i >= 0 ==> AllDigits(r) && DigitsValue(r) == i
    ensures i < 0 ==> r[0] == '-' && AllDigits(r[1..]) && DigitsValue(r[1..]) == -i
  {
    if i < 0 then "-" + NatToString(-i) else NatToString(i)
  }
}
