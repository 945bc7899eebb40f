/**
 * String helpers with Python's meaning: `str.isspace`, `str.strip`,
 * `str(n)` for a non-negative integer, `sep.join(xs)`, `str.endswith`.
 */
module Text {

  /** Python's `str.isspace` for one code point. */
  predicate IsSpace(c: char)
  {
    var x := c as int;
    (9 <= x <= 13) || (28 <= x <= 32) || x == 0x85 || x == 0xA0 || x == 0x1680 ||
    (0x2000 <= x <= 0x200A) || x == 0x2028 || x == 0x2029 || x == 0x202F ||
    x == 0x205F || x == 0x3000
  }

  /** `s.lstrip()`: drop leading white space. */
  function TrimStart(s: string): (r: string)
    ensures |r| <= |s|
    decreases |s|
  {
    if s != [] && IsSpace(s[0]) then TrimStart(s[1..]) else s
  }

  /** `s.rstrip()`: drop trailing white space. */
  function TrimEnd(s: string): (r: string)
    ensures |r| <= |s|
    decreases |s|
  {
    if s != [] && IsSpace(s[|s| - 1]) then TrimEnd(s[..|s| - 1]) else s
  }

  /** Python's `s.strip()`: drop leading and trailing white space. */
  function Strip(s: string): (r: string)
    ensures |r| <= |s|
  {
    TrimEnd(TrimStart(s))
  }

  /** `lstrip` keeps a suffix and drops only white space, up to a non-space character. */
  lemma {:induction false} TrimStartSlice(s: string) returns (lo: nat)
    ensures lo <= |s| && TrimStart(s) == s[lo..]
    ensures forall j :: 0 <= j < lo ==> IsSpace(s[j])
    ensures lo < |s| ==> !IsSpace(s[lo])
    decreases |s|
  {
    if s != [] && IsSpace(s[0]) {
      var k := TrimStartSlice(s[1..]);
      lo := k + 1;
      assert s[1..][k..] == s[lo..];
      assert forall j :: 1 <= j < lo ==> s[j] == s[1..][j - 1];
    } else {
      lo := 0;
    }
  }

  /** `rstrip` keeps a prefix and drops only white space, back to a non-space character. */
  lemma {:induction false} TrimEndSlice(s: string) returns (hi: nat)
    ensures hi <= |s| && TrimEnd(s) == s[..hi]
    ensures forall j :: hi <= j < |s| ==> IsSpace(s[j])
    ensures 0 < hi ==> !IsSpace(s[hi - 1])
    decreases |s|
  {
    if s != [] && IsSpace(s[|s| - 1]) {
      hi := TrimEndSlice(s[..|s| - 1]);
      assert s[..|s| - 1][..hi] == s[..hi];
    } else {
      hi := |s|;
    }
  }

  /**
   * `strip` keeps one slice `s[lo..hi]`: everything outside it is white
   * space, and when it is not empty it starts and ends with a non-space
   * character.
   */
  lemma StripSlice(s: string) returns (lo: nat, hi: nat)
    ensures lo <= hi <= |s| && Strip(s) == s[lo..hi]
    ensures forall j :: 0 <= j < |s| && !(lo <= j < hi) ==> IsSpace(s[j])
    ensures lo < hi ==> !IsSpace(s[lo]) && !IsSpace(s[hi - 1])
  {
    lo := TrimStartSlice(s);
    var t := TrimStart(s);
    var k := TrimEndSlice(t);
    hi := lo + k;
    assert Strip(s) == TrimEnd(t);
    assert t[..k] == s[lo..hi];
    forall j | 0 <= j < |s| && !(lo <= j < hi)
      ensures IsSpace(s[j])
    {
      if j >= hi {
        assert s[j] == t[j - lo];
      }
    }
    if lo < hi {
      assert s[lo] == t[0] && s[hi - 1] == t[k - 1];
    }
  }

  /** A stripped text is empty exactly when the text is all white space, and otherwise has non-space ends. */
  lemma StripEnds(s: string)
    ensures var r := Strip(s);
      (r == [] <==> forall j :: 0 <= j < |s| ==> IsSpace(s[j])) &&
      (r != [] ==> !IsSpace(r[0]) && !IsSpace(r[|r| - 1]))
  {
    var lo, hi := StripSlice(s);
  }

  /** A text without white space at either end is its own strip. */
  lemma StripUnchanged(s: string)
    requires s != [] ==> !IsSpace(s[0]) && !IsSpace(s[|s| - 1])
    ensures Strip(s) == s
  {
    var lo, hi := StripSlice(s);
    if s != [] {
      assert lo == 0 && hi == |s|;
    }
  }

  /** The characters of `s` that `keep` accepts, in their order. */
  function Keep(s: string, keep: char -> bool): (r: string)
    ensures |r| <= |s|
    decreases |s|
  {
    if s == [] then [] else (if keep(s[0]) then [s[0]] else []) + Keep(s[1..], keep)
  }

  /** Everything but white space: the text a reader sees. */
  predicate NotSpace(c: char)
  {
    !IsSpace(c)
  }

  lemma {:induction false} KeepAppend(a: string, b: string, keep: char -> bool)
    ensures Keep(a + b, keep) == Keep(a, keep) + Keep(b, keep)
    decreases |a|
  {
    if a == [] {
      assert a + b == b;
    } else {
      assert (a + b)[0] == a[0] && (a + b)[1..] == a[1..] + b;
      KeepAppend(a[1..], b, keep);
      Assoc(if keep(a[0]) then [a[0]] else [], Keep(a[1..], keep), Keep(b, keep));
    }
  }

  /** Nothing is kept exactly when `keep` accepts no character of `s`. */
  lemma {:induction false} KeepEmpty(s: string, keep: char -> bool)
    ensures Keep(s, keep) == [] <==> forall i :: 0 <= i < |s| ==> !keep(s[i])
    decreases |s|
  {
    if s != [] {
      KeepEmpty(s[1..], keep);
      assert forall i :: 1 <= i < |s| ==> s[i] == s[1..][i - 1];
    }
  }

  /** Filtering by a looser test first changes nothing. */
  lemma {:induction false} KeepKeep(s: string, loose: char -> bool, strict: char -> bool)
    requires forall c :: strict(c) ==> loose(c)
    ensures Keep(Keep(s, loose), strict) == Keep(s, strict)
    decreases |s|
  {
    if s != [] {
      var h := if loose(s[0]) then [s[0]] else [];
      KeepAppend(h, Keep(s[1..], loose), strict);
      KeepKeep(s[1..], loose, strict);
    }
  }

  /** Stripping removes only white space: the visible text is unchanged. */
  lemma StripKeepsText(s: string)
    ensures Keep(Strip(s), NotSpace) == Keep(s, NotSpace)
  {
    var lo, hi := StripSlice(s);
    assert s == s[..lo] + s[lo..hi] + s[hi..];
    KeepAppend(s[..lo] + s[lo..hi], s[hi..], NotSpace);
    KeepAppend(s[..lo], s[lo..hi], NotSpace);
    KeepEmpty(s[..lo], NotSpace);
    KeepEmpty(s[hi..], NotSpace);
    assert forall i :: 0 <= i < |s[hi..]| ==> s[hi..][i] == s[hi + i];
  }

  predicate IsDigit(c: char)
  {
    '0' <= c <= '9'
  }

  predicate AllDigits(s: string)
  {
    forall i :: 0 <= i < |s| ==> IsDigit(s[i])
  }

  function DigitChar(d: nat): (c: char)
    requires d < 10
    ensures IsDigit(c)
  {
    (48 + d) as char
  }

  function DigitValue(c: char): (d: nat)
    requires IsDigit(c)
    ensures d < 10 && DigitChar(d) == c
  {
    (c as int - 48) as nat
  }

  /** Python's `str(n)` (or an f-string field) for a non-negative integer. */
  function NatToString(n: nat): (r: string)
    ensures r != [] && AllDigits(r)
    ensures |r| > 1 ==> r[0] != '0'
    decreases n
  {
    if n < 10 then [DigitChar(n)] else NatToString(n / 10) + [DigitChar(n % 10)]
  }

  /** `int(s)` for a string made of decimal digits. */
  function ParseDigits(s: string): nat
    requires AllDigits(s)
    decreases |s|
  {
    if s == [] then 0 else ParseDigits(s[..|s| - 1]) * 10 + DigitValue(s[|s| - 1])
  }

  /** Decimal printing and parsing are inverse. */
  lemma {:induction false} ParseNatToString(n: nat)
    ensures ParseDigits(NatToString(n)) == n
    decreases n
  {
    if n >= 10 {
      var s := NatToString(n);
      assert s[..|s| - 1] == NatToString(n / 10);
      ParseNatToString(n / 10);
    }
  }

  /** Distinct numbers print as distinct strings. */
  lemma NatToStringInjective(a: nat, b: nat)
    requires NatToString(a) == NatToString(b)
    ensures a == b
  {
    ParseNatToString(a);
    ParseNatToString(b);
  }

  lemma Assoc<T>(a: seq<T>, b: seq<T>, c: seq<T>)
    ensures (a + b) + c == a + (b + c)
  {
  }

  /** Python's `sep.join(xs)`. */
  function Join(xs: seq<string>, sep: string): string
  {
    if |xs| == 0 then "" else if |xs| == 1 then xs[0] else xs[0] + sep + Join(xs[1..], sep)
  }

  /** The position of the first `c` at or after `i`, or `|s|` when there is none. */
  function IndexOf(s: string, c: char, i: nat): (k: nat)
    requires i <= |s|
    ensures i <= k <= |s|
    decreases |s| - i
  {
    if i == |s| || s[i] == c then i else IndexOf(s, c, i + 1)
  }

  /** The search stops at a `c` that only other characters precede. */
  lemma {:induction false} IndexOfAt(s: string, c: char, i: nat, k: nat)
    requires i <= k < |s| && s[k] == c
    requires forall j :: i <= j < k ==> s[j] != c
    ensures IndexOf(s, c, i) == k
    decreases k - i
  {
    if i < k {
      IndexOfAt(s, c, i + 1, k);
    }
  }

  predicate StartsWith(s: string, prefix: string)
  {
    |prefix| <= |s| && s[..|prefix|] == prefix
  }

  predicate EndsWith(s: string, suffix: string)
  {
    |suffix| <= |s| && s[|s| - |suffix|..] == suffix
  }

  /** `str.lower` on the ASCII letters; every other code point is kept. */
  function LowerChar(c: char): char
  {
    if 'A' <= c <= 'Z' then (c as int + 32) as char else c
  }

  function Lower(s: string): (r: string)
    ensures |r| == |s|
  {
    seq(|s|, i requires 0 <= i < |s| => LowerChar(s[i]))
  }
}
