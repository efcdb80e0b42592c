/** The Python string operations the application's decision rules are built
    from: `str.isspace`/`str.strip`, substring `in`, `str.split(sep)`,
    `sep.join`, `str.replace(old, '')` and a simplified `int()`. */
module Text {
  import opened Common

  /** Python's `str.isspace`, the set `str.strip()` removes. U+3000 (the
      ideographic space) belongs to it. */
  predicate IsSpace(c: char) {
    || ('\t' <= c <= '\r')
    || ('\U{1C}' <= c <= '\U{1F}')
    || c == ' ' || c == '\U{85}' || c == '\U{A0}' || c == '\U{1680}'
    || ('\U{2000}' <= c <= '\U{200A}')
    || c == '\U{2028}' || c == '\U{2029}' || c == '\U{202F}' || c == '\U{205F}'
    || c == '\U{3000}'
  }

  const IdeographicSpace: char := '\U{3000}'

  predicate AllSpace(s: string) {
    forall i :: 0 <= i < |s| ==> IsSpace(s[i])
  }

  // ---------------------------------------------------------------- strip

  /** `s.lstrip()`: the longest suffix of `s` that does not start with whitespace. */
  function TrimLeft(s: string): (r: string)
    ensures |r| <= |s|
    decreases |s|
  {
    if |s| > 0 && IsSpace(s[0]) then TrimLeft(s[1..]) else s
  }

  /** What `lstrip()` removes is all whitespace, and what it keeps is a suffix
      that does not start with whitespace. */
  lemma {:induction false} TrimLeftSpec(s: string)
    ensures TrimLeft(s) == s[|s| - |TrimLeft(s)|..]
    ensures AllSpace(s[..|s| - |TrimLeft(s)|])
    ensures TrimLeft(s) != [] ==> !IsSpace(TrimLeft(s)[0])
    decreases |s|
  {
    if |s| > 0 && IsSpace(s[0]) {
      TrimLeftSpec(s[1..]);
      var k := |s| - |TrimLeft(s)|;
      assert s[..k] == [s[0]] + s[1..][..k - 1];
    }
  }

  /** `s.rstrip()`: the longest prefix of `s` that does not end with whitespace. */
  function TrimRight(s: string): (r: string)
    ensures |r| <= |s|
    decreases |s|
  {
    if |s| > 0 && IsSpace(s[|s| - 1]) then TrimRight(s[..|s| - 1]) else s
  }

  /** What `rstrip()` removes is all whitespace, and what it keeps is a prefix
      that does not end with whitespace. */
  lemma {:induction false} TrimRightSpec(s: string)
    ensures TrimRight(s) == s[..|TrimRight(s)|]
    ensures AllSpace(s[|TrimRight(s)|..])
    ensures TrimRight(s) != [] ==> !IsSpace(TrimRight(s)[|TrimRight(s)| - 1])
    decreases |s|
  {
    if |s| > 0 && IsSpace(s[|s| - 1]) {
      TrimRightSpec(s[..|s| - 1]);
      var k := |TrimRight(s)|;
      assert s[k..] == s[..|s| - 1][k..] + [s[|s| - 1]];
    }
  }

  /** `s.strip()`. */
  function Strip(s: string): string {
    TrimRight(TrimLeft(s))
  }

  /** `s` is whitespace + `Strip(s)` + whitespace, and the stripped part has
      no whitespace at either end. */
  lemma StripParts(s: string)
    ensures |Strip(s)| <= |s|
    ensures s == Lead(s) + Strip(s) + Trail(s)
    ensures AllSpace(Lead(s)) && AllSpace(Trail(s))
    ensures Strip(s) != [] ==> !IsSpace(Strip(s)[0]) && !IsSpace(Strip(s)[|Strip(s)| - 1])
  {
    var l := TrimLeft(s);
    var r := TrimRight(l);
    TrimLeftSpec(s);
    TrimRightSpec(l);
    assert l == r + Trail(s);
    assert s == Lead(s) + l;
  }

  function Lead(s: string): string {
    s[..|s| - |TrimLeft(s)|]
  }

  function Trail(s: string): string {
    var l := TrimLeft(s);
    l[|TrimRight(l)|..]
  }

  lemma AllSpaceTrimLeft(s: string)
    requires AllSpace(s)
    ensures TrimLeft(s) == []
  {
    TrimLeftSpec(s);
  }

  lemma {:induction false} TrimLeftSpacePrefix(w: string, x: string)
    requires AllSpace(w)
    ensures TrimLeft(w + x) == TrimLeft(x)
    decreases |w|
  {
    if |w| > 0 {
      assert (w + x)[1..] == w[1..] + x;
      TrimLeftSpacePrefix(w[1..], x);
    } else {
      assert w + x == x;
    }
  }

  lemma {:induction false} TrimRightSpaceSuffix(x: string, w: string)
    requires AllSpace(w)
    ensures TrimRight(x + w) == TrimRight(x)
    decreases |w|
  {
    if |w| > 0 {
      assert (x + w)[..|x + w| - 1] == x + w[..|w| - 1];
      TrimRightSpaceSuffix(x, w[..|w| - 1]);
    } else {
      assert x + w == x;
    }
  }

  lemma {:induction false} TrimLeftSpaceSuffix(x: string, w: string)
    requires AllSpace(w)
    ensures TrimLeft(x + w) == if AllSpace(x) then [] else TrimLeft(x) + w
    decreases |x|
  {
    if AllSpace(x) {
      AllSpaceTrimLeft(x + w);
    } else {
      assert |x| > 0;
      if IsSpace(x[0]) {
        assert (x + w)[1..] == x[1..] + w;
        TrimLeftSpaceSuffix(x[1..], w);
      }
    }
  }

  /** Leading and trailing whitespace does not change what `strip()` returns. */
  lemma StripPadded(w1: string, s: string, w2: string)
    requires AllSpace(w1) && AllSpace(w2)
    ensures Strip(w1 + s + w2) == Strip(s)
  {
    assert w1 + s + w2 == w1 + (s + w2);
    TrimLeftSpacePrefix(w1, s + w2);
    TrimLeftSpaceSuffix(s, w2);
    if !AllSpace(s) {
      TrimRightSpaceSuffix(TrimLeft(s), w2);
    } else {
      AllSpaceTrimLeft(s);
    }
  }

  /** pandas' `str.strip()` applied twice is applied once. */
  lemma StripIdempotent(s: string)
    ensures Strip(Strip(s)) == Strip(s)
  {
    StripParts(s);
    StripNoPadding(Strip(s));
  }

  /** A string without surrounding whitespace is its own `strip()`. */
  lemma StripNoPadding(s: string)
    requires s != [] ==> !IsSpace(s[0]) && !IsSpace(s[|s| - 1])
    ensures Strip(s) == s
  {
    TrimLeftNoPadding(s);
    TrimRightNoPadding(s);
  }

  lemma TrimLeftNoPadding(s: string)
    requires s != [] ==> !IsSpace(s[0])
    ensures TrimLeft(s) == s
  {
  }

  lemma TrimRightNoPadding(s: string)
    requires s != [] ==> !IsSpace(s[|s| - 1])
    ensures TrimRight(s) == s
  {
  }

  // ------------------------------------------------------------ substring

  predicate IsPrefix(k: string, s: string) {
    |k| <= |s| && s[..|k|] == k
  }

  /** Python's `k in s` for strings: `k` occurs in `s` as a contiguous substring. */
  predicate Contains(s: string, k: string)
    decreases |s|
  {
    IsPrefix(k, s) || (|s| > 0 && Contains(s[1..], k))
  }

  /** `k` occurs in `s` starting at position `i`. */
  predicate OccursAt(s: string, k: string, i: int) {
    0 <= i <= |s| - |k| && s[i..i + |k|] == k
  }

  /** `Contains` agrees with the positional definition of a substring. */
  lemma {:induction false} ContainsAt(s: string, k: string)
    ensures Contains(s, k) <==> exists i :: OccursAt(s, k, i)
    decreases |s|
  {
    if IsPrefix(k, s) {
      assert OccursAt(s, k, 0);
    } else if |s| > 0 {
      ContainsAt(s[1..], k);
      if Contains(s[1..], k) {
        var i :| OccursAt(s[1..], k, i);
        assert s[1..][i..i + |k|] == s[i + 1..i + 1 + |k|];
        assert OccursAt(s, k, i + 1);
      } else {
        forall i | OccursAt(s, k, i)
          ensures false
        {
          if i > 0 {
            var t := s[1..];
            assert |t[i - 1..i - 1 + |k|]| == |k|;
            forall j | 0 <= j < |k|
              ensures t[i - 1..i - 1 + |k|][j] == k[j]
            {
              assert t[i - 1..i - 1 + |k|][j] == s[i + j] == s[i..i + |k|][j];
            }
            assert t[i - 1..i - 1 + |k|] == k;
            assert OccursAt(t, k, i - 1);
          }
        }
      }
    } else {
      forall i | OccursAt(s, k, i)
        ensures false
      {
      }
    }
  }

  /** The empty string is a substring of every string. */
  lemma ContainsEmpty(s: string)
    ensures Contains(s, "")
  {
    assert IsPrefix("", s);
  }

  // ---------------------------------------------------------- split, join

  function Count(s: string, c: char): nat {
    if |s| == 0 then 0 else (if s[0] == c then 1 else 0) + Count(s[1..], c)
  }

  /** Python's `s.split(c)` for a one-character separator: empty pieces are kept,
      and `"".split(c) == [""]`. */
  function Split(s: string, c: char): (r: seq<string>)
    ensures |r| >= 1
    decreases |s|
  {
    if |s| == 0 then [""]
    else
      var rest := Split(s[1..], c);
      if s[0] == c then [""] + rest else [[s[0]] + rest[0]] + rest[1..]
  }

  /** Python's `sep.join(parts)`. */
  function Join(parts: seq<string>, sep: string): string {
    if |parts| == 0 then ""
    else if |parts| == 1 then parts[0]
    else parts[0] + sep + Join(parts[1..], sep)
  }

  /** `split` yields one piece more than there are separators. */
  lemma {:induction false} SplitLength(s: string, c: char)
    ensures |Split(s, c)| == Count(s, c) + 1
    decreases |s|
  {
    if |s| > 0 {
      SplitLength(s[1..], c);
    }
  }

  /** No piece of `split(c)` contains `c`. */
  lemma {:induction false} SplitPiecesFree(s: string, c: char)
    ensures forall k :: 0 <= k < |Split(s, c)| ==> c !in Split(s, c)[k]
    decreases |s|
  {
    if |s| > 0 {
      SplitPiecesFree(s[1..], c);
    }
  }

  /** Joining the pieces with the separator gives the original string back. */
  lemma {:induction false} JoinSplit(s: string, c: char)
    ensures Join(Split(s, c), [c]) == s
    decreases |s|
  {
    if |s| > 0 {
      var rest := Split(s[1..], c);
      JoinSplit(s[1..], c);
      if s[0] == c {
        assert Split(s, c)[1..] == rest;
      } else {
        var r := Split(s, c);
        assert r[1..] == rest[1..];
        if |rest| == 1 {
          assert s == [s[0]] + rest[0];
        } else {
          assert Join(rest, [c]) == rest[0] + [c] + Join(rest[1..], [c]);
          assert s == [s[0]] + rest[0] + [c] + Join(rest[1..], [c]);
        }
      }
    }
  }

  /** A piece free of the separator, then the separator, then anything: the
      piece comes out first. */
  lemma {:induction false} SplitFreePrefix(a: string, c: char, b: string)
    requires c !in a
    ensures Split(a + [c] + b, c) == [a] + Split(b, c)
    decreases |a|
  {
    if |a| == 0 {
      assert a + [c] + b == [c] + b;
      assert ([c] + b)[1..] == b;
    } else {
      assert (a + [c] + b)[1..] == a[1..] + [c] + b;
      SplitFreePrefix(a[1..], c, b);
      assert [a[0]] + a[1..] == a;
    }
  }

  /** A string free of the separator splits into itself. */
  lemma {:induction false} SplitFree(a: string, c: char)
    requires c !in a
    ensures Split(a, c) == [a]
    decreases |a|
  {
    if |a| > 0 {
      SplitFree(a[1..], c);
      assert [a[0]] + a[1..] == a;
    }
  }

  /** Splitting the join of separator-free pieces gives the pieces back. */
  lemma {:induction false} SplitJoin(parts: seq<string>, c: char)
    requires |parts| >= 1
    requires forall k :: 0 <= k < |parts| ==> c !in parts[k]
    ensures Split(Join(parts, [c]), c) == parts
    decreases |parts|
  {
    if |parts| == 1 {
      SplitFree(parts[0], c);
    } else {
      SplitJoin(parts[1..], c);
      SplitFreePrefix(parts[0], c, Join(parts[1..], [c]));
      assert [parts[0]] + parts[1..] == parts;
    }
  }

  /** A trailing separator adds one empty piece at the end. */
  lemma {:induction false} SplitTrailingSeparator(s: string, c: char)
    ensures Split(s + [c], c) == Split(s, c) + [""]
    decreases |s|
  {
    if |s| == 0 {
      assert s + [c] == [c];
      assert [c][1..] == [];
    } else {
      assert (s + [c])[1..] == s[1..] + [c];
      SplitTrailingSeparator(s[1..], c);
    }
  }

  // -------------------------------------------------------------- replace

  /** `s.replace(c, '')` for a single character. */
  function RemoveChar(s: string, c: char): (r: string)
    ensures c !in r && |r| == |s| - Count(s, c)
    ensures forall i :: 0 <= i < |r| ==> r[i] in s
    ensures c !in s ==> r == s
  {
    if |s| == 0 then ""
    else if s[0] == c then RemoveChar(s[1..], c)
    else [s[0]] + RemoveChar(s[1..], c)
  }

  lemma {:induction false} RemoveCharAppend(a: string, b: string, c: char)
    ensures RemoveChar(a + b, c) == RemoveChar(a, c) + RemoveChar(b, c)
    decreases |a|
  {
    if |a| == 0 {
      assert a + b == b;
    } else {
      assert (a + b)[1..] == a[1..] + b;
      RemoveCharAppend(a[1..], b, c);
    }
  }

  lemma RemoveCharAllSpace(w: string, c: char)
    requires AllSpace(w)
    ensures AllSpace(RemoveChar(w, c))
  {
  }

  /** `s.replace(pat, '')`: occurrences of `pat` are removed left to right,
      without overlap, as CPython's `str.replace` finds them. */
  function RemoveAll(s: string, pat: string): (r: string)
    requires |pat| > 0
    ensures |r| <= |s|
    decreases |s|
  {
    if IsPrefix(pat, s) then RemoveAll(s[|pat|..], pat)
    else if |s| == 0 then ""
    else [s[0]] + RemoveAll(s[1..], pat)
  }

  /** Removing a pattern that does not occur changes nothing. */
  lemma {:induction false} RemoveAllAbsent(s: string, pat: string)
    requires |pat| > 0 && !Contains(s, pat)
    ensures RemoveAll(s, pat) == s
    decreases |s|
  {
    if |s| > 0 {
      RemoveAllAbsent(s[1..], pat);
      assert [s[0]] + s[1..] == s;
    }
  }

  // ------------------------------------------------------------------ int

  predicate IsDigit(c: char) {
    '0' <= c <= '9'
  }

  predicate AllDigits(s: string) {
    forall i :: 0 <= i < |s| ==> IsDigit(s[i])
  }

  /** Value of a decimal digit string, most significant digit first. */
  function DigitsValue(s: string): nat
    requires AllDigits(s)
  {
    if |s| == 0 then 0 else 10 * DigitsValue(s[..|s| - 1]) + (s[|s| - 1] as int - '0' as int)
  }

  /** U+001C..U+001F: whitespace for `str.isspace`, but not for `int()`.
      CPython's `int()` turns non-ASCII whitespace into a space and then skips
      only ASCII space and `\t`..`\r`, so these four controls are never skipped;
      they are not digits or signs either, so `int()` rejects any text holding one. */
  predicate IsInfoSeparator(c: char) {
    '\U{1C}' <= c <= '\U{1F}'
  }

  predicate HasInfoSeparator(s: string) {
    exists i :: 0 <= i < |s| && IsInfoSeparator(s[i])
  }

  /** The whitespace `int()` skips around its digits. */
  predicate IsIntSpace(c: char) {
    IsSpace(c) && !IsInfoSeparator(c)
  }

  predicate AllIntSpace(s: string) {
    forall i :: 0 <= i < |s| ==> IsIntSpace(s[i])
  }

  /** Python's `int(s)`, simplified: surrounding whitespace (not U+001C..U+001F),
      an optional sign and one or more ASCII digits. */
  function ParseInt(s: string): Option<int> {
    var t := Strip(s);
    if HasInfoSeparator(s) then None
    else if |t| == 0 then None
    else if t[0] == '+' || t[0] == '-' then
      var ds := t[1..];
      if |ds| > 0 && AllDigits(ds) then
        var v: int := DigitsValue(ds);
        Some(if t[0] == '-' then -v else v)
      else None
    else if AllDigits(t) then Some(DigitsValue(t))
    else None
  }

  function DigitChar(d: nat): char
    requires d < 10
  {
    ('0' as int + d) as char
  }

  /** Decimal digits of `n`, without leading zeros. */
  function NatDigits(n: nat): (r: string)
    ensures |r| > 0 && AllDigits(r)
  {
    if n < 10 then [DigitChar(n)] else NatDigits(n / 10) + [DigitChar(n % 10)]
  }

  /** Python's `str(n)` for an int. */
  function IntToString(n: int): string {
    if n < 0 then "-" + NatDigits(-n) else NatDigits(n)
  }

  lemma {:induction false} NatDigitsValue(n: nat)
    ensures DigitsValue(NatDigits(n)) == n
  {
    if n >= 10 {
      NatDigitsValue(n / 10);
      var r := NatDigits(n);
      assert r[..|r| - 1] == NatDigits(n / 10);
    }
  }

  /** `int(str(n)) == n`. */
  lemma ParseIntToString(n: int)
    ensures ParseInt(IntToString(n)) == Some(n)
  {
    var s := IntToString(n);
    var ds := NatDigits(if n < 0 then -n else n);
    NatDigitsValue(if n < 0 then -n else n);
    assert !IsSpace(s[0]) && !IsSpace(s[|s| - 1]);
    StripNoPadding(s);
    if n < 0 {
      assert s[1..] == ds;
    }
  }

  /** `int()` ignores surrounding whitespace of the kind it skips. */
  lemma ParseIntPadded(w1: string, s: string, w2: string)
    requires AllIntSpace(w1) && AllIntSpace(w2)
    ensures ParseInt(w1 + s + w2) == ParseInt(s)
  {
    StripPadded(w1, s, w2);
    var p := w1 + s + w2;
    if HasInfoSeparator(p) {
      var i :| 0 <= i < |p| && IsInfoSeparator(p[i]);
      assert |w1| <= i < |w1| + |s| && p[i] == s[i - |w1|];
    }
    if HasInfoSeparator(s) {
      var i :| 0 <= i < |s| && IsInfoSeparator(s[i]);
      assert p[|w1| + i] == s[i];
    }
  }

  /** `int()` rejects any text holding one of U+001C..U+001F, even at an end,
      where `strip()` would have removed it. */
  lemma ParseIntInfoSeparator(a: string, c: char, b: string)
    requires IsInfoSeparator(c)
    ensures ParseInt(a + [c] + b) == None
  {
    assert (a + [c] + b)[|a|] == c;
  }
}
