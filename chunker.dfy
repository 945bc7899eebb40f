/**
 * The chunker of the RAG backend: white-space normalisation of a page's
 * text, then a sliding window of `chunkChars` characters that advances to
 * `end - overlap`, keeping every non-empty trimmed window.
 */
module Chunker {
  import opened Wrappers
  import opened Text

  /** The characters matched by the pattern `[ \t]`. */
  predicate IsBlank(c: char)
  {
    c == ' ' || c == '\t'
  }

  predicate NoTab(s: string)
  {
    forall i :: 0 <= i < |s| ==> s[i] != '\t'
  }

  predicate NoDoubleSpace(s: string)
  {
    forall i :: 0 <= i < |s| - 1 ==> !(s[i] == ' ' && s[i + 1] == ' ')
  }

  predicate NoTripleNewline(s: string)
  {
    forall i, j, k :: 0 <= i < |s| && j == i + 1 && k == i + 2 && k < |s| ==> !(s[i] == '\n' && s[j] == '\n' && s[k] == '\n')
  }

  /** The end of the run of characters equal to (or blank like) the one at `i`. */
  function RunEnd(s: string, i: nat, blanks: bool): (k: nat)
    requires i <= |s|
    ensures i <= k <= |s|
    ensures forall j :: i <= j < k ==> if blanks then IsBlank(s[j]) else s[j] == '\n'
    ensures k < |s| ==> if blanks then !IsBlank(s[k]) else s[k] != '\n'
    decreases |s| - i
  {
    if i == |s| then i
    else if blanks && !IsBlank(s[i]) then i
    else if !blanks && s[i] != '\n' then i
    else RunEnd(s, i + 1, blanks)
  }

  /** `re.sub(r"[ \t]+", " ", s)`: every maximal run of spaces and tabs becomes one space. */
  function CollapseBlanks(s: string): (r: string)
    ensures |r| <= |s|
    ensures r == [] <==> s == []
    ensures s != [] ==> (r[0] == ' ' <==> IsBlank(s[0]))
    ensures s != [] && !IsBlank(s[0]) ==> r[0] == s[0]
    ensures NoTab(r) && NoDoubleSpace(r)
    decreases |s|
  {
    if s == [] then []
    else if IsBlank(s[0]) then [' '] + CollapseBlanks(s[RunEnd(s, 0, true)..])
    else [s[0]] + CollapseBlanks(s[1..])
  }

  function Repeat(c: char, k: nat): (r: string)
    ensures |r| == k && forall i :: 0 <= i < k ==> r[i] == c
  {
    seq(k, _ => c)
  }

  /** Every character of `r` occurs somewhere in `s`. */
  predicate DrawnFrom(r: string, s: string)
  {
    forall i :: 0 <= i < |r| ==> r[i] in s
  }

  /** `re.sub(r"\n{3,}", "\n\n", s)`: every run of three or more newlines becomes two. */
  function CollapseNewlines(s: string): (r: string)
    ensures |r| <= |s|
    ensures r == [] <==> s == []
    ensures s != [] ==> r[0] == s[0]
    ensures DrawnFrom(r, s)
    decreases |s|
  {
    if s == [] then []
    else if s[0] == '\n' then
      var k := RunEnd(s, 0, false);
      Repeat('\n', if k >= 3 then 2 else k) + CollapseNewlines(s[k..])
    else [s[0]] + CollapseNewlines(s[1..])
  }

  /** Every slice of a normalised string is normalised. */
  lemma SliceKeepsNormal(s: string, lo: nat, hi: nat)
    requires lo <= hi <= |s|
    ensures NoTab(s) ==> NoTab(s[lo..hi])
    ensures NoDoubleSpace(s) ==> NoDoubleSpace(s[lo..hi])
    ensures NoTripleNewline(s) ==> NoTripleNewline(s[lo..hi])
  {
    var t := s[lo..hi];
    assert forall i :: 0 <= i < |t| ==> t[i] == s[lo + i];
  }

  /** A non-empty text is its first character followed by the rest. */
  lemma FirstRest(s: string)
    requires s != []
    ensures [s[0]] + s[1..] == s
  {
  }

  /** The newline substitution unfolded once, in the shape of its body. */
  lemma CollapseNewlinesStep(s: string, k: nat)
    requires s != [] && k == RunEnd(s, 0, false)
    ensures s[0] == '\n' ==> CollapseNewlines(s) == Repeat('\n', if k >= 3 then 2 else k) + CollapseNewlines(s[k..])
    ensures s[0] != '\n' ==> CollapseNewlines(s) == [s[0]] + CollapseNewlines(s[1..])
  {
  }

  /** At most two newlines in front of a text that does not start with one add no triple newline. */
  lemma NewlinesFrontCapped(m: nat, rest: string)
    requires m <= 2 && NoTripleNewline(rest)
    requires rest != [] ==> rest[0] != '\n'
    ensures NoTripleNewline(Repeat('\n', m) + rest)
  {
    var r := Repeat('\n', m) + rest;
    forall i, j, k | 0 <= i && j == i + 1 && k == i + 2 && k < |r|
      ensures !(r[i] == '\n' && r[j] == '\n' && r[k] == '\n')
    {
      if i >= m {
        assert r[i] == rest[i - m] && r[j] == rest[j - m] && r[k] == rest[k - m];
      } else {
        assert r[m] == rest[0];
      }
    }
  }

  /** A character other than a newline in front adds no triple newline. */
  lemma OtherFrontCapped(c: char, rest: string)
    requires c != '\n' && NoTripleNewline(rest)
    ensures NoTripleNewline([c] + rest)
  {
    var r := [c] + rest;
    forall i, j, k | 1 <= i && j == i + 1 && k == i + 2 && k < |r|
      ensures !(r[i] == '\n' && r[j] == '\n' && r[k] == '\n')
    {
      assert r[i] == rest[i - 1] && r[j] == rest[j - 1] && r[k] == rest[k - 1];
    }
  }

  /** After the substitution no three newlines are adjacent. */
  lemma {:induction false} CollapseNewlinesCapsRuns(s: string)
    ensures NoTripleNewline(CollapseNewlines(s))
    decreases |s|
  {
    if s != [] {
      var k := RunEnd(s, 0, false);
      CollapseNewlinesStep(s, k);
      if s[0] == '\n' {
        CollapseNewlinesCapsRuns(s[k..]);
        NewlinesFrontCapped(if k >= 3 then 2 else k, CollapseNewlines(s[k..]));
      } else {
        CollapseNewlinesCapsRuns(s[1..]);
        OtherFrontCapped(s[0], CollapseNewlines(s[1..]));
      }
    }
  }

  /** Newlines in front of a text without two adjacent spaces add no such pair. */
  lemma NewlinesFrontSingle(m: nat, rest: string)
    requires NoDoubleSpace(rest)
    ensures NoDoubleSpace(Repeat('\n', m) + rest)
  {
    var r := Repeat('\n', m) + rest;
    forall i | 0 <= i < |r| - 1
      ensures !(r[i] == ' ' && r[i + 1] == ' ')
    {
      if i >= m {
        assert r[i] == rest[i - m] && r[i + 1] == rest[i - m + 1];
      }
    }
  }

  /** A character in front adds no pair of spaces unless both it and the next one are spaces. */
  lemma OtherFrontSingle(c: char, rest: string)
    requires NoDoubleSpace(rest)
    requires c == ' ' && rest != [] ==> rest[0] != ' '
    ensures NoDoubleSpace([c] + rest)
  {
    var r := [c] + rest;
    forall i | 0 <= i < |r| - 1
      ensures !(r[i] == ' ' && r[i + 1] == ' ')
    {
      if i > 0 {
        assert r[i] == rest[i - 1] && r[i + 1] == rest[i];
      } else {
        assert r[1] == rest[0];
      }
    }
  }

  /** The newline substitution cannot create two adjacent spaces. */
  lemma {:induction false} CollapseNewlinesKeepsSingleSpaces(s: string)
    requires NoDoubleSpace(s)
    ensures NoDoubleSpace(CollapseNewlines(s))
    decreases |s|
  {
    if s != [] {
      var k := RunEnd(s, 0, false);
      CollapseNewlinesStep(s, k);
      if s[0] == '\n' {
        SuffixKeepsSingleSpaces(s, k);
        CollapseNewlinesKeepsSingleSpaces(s[k..]);
        NewlinesFrontSingle(if k >= 3 then 2 else k, CollapseNewlines(s[k..]));
      } else {
        var rest := CollapseNewlines(s[1..]);
        SuffixKeepsSingleSpaces(s, 1);
        CollapseNewlinesKeepsSingleSpaces(s[1..]);
        assert s[0] == ' ' && rest != [] ==> rest[0] != ' ' by {
          if rest != [] {
            assert rest[0] == s[1..][0] == s[1];
          }
        }
        OtherFrontSingle(s[0], rest);
      }
    }
  }

  lemma SuffixKeepsSingleSpaces(s: string, k: nat)
    requires k <= |s| && NoDoubleSpace(s)
    ensures NoDoubleSpace(s[k..])
  {
    var t := s[k..];
    assert forall i :: 0 <= i < |t| ==> t[i] == s[k + i];
  }


  /** The newline substitution brings in no tab. */
  lemma CollapseNewlinesKeepsNoTab(s: string)
    requires NoTab(s)
    ensures NoTab(CollapseNewlines(s))
  {
    var t := CollapseNewlines(s);
    forall i | 0 <= i < |t|
      ensures t[i] != '\t'
    {
      assert t[i] in s;
    }
  }

  /** Stripping a normalised text keeps it normalised and leaves no white space at its ends. */
  lemma StripKeepsNormal(t: string)
    requires NoTab(t) && NoDoubleSpace(t) && NoTripleNewline(t)
    ensures var c := Strip(t);
      NoTab(c) && NoDoubleSpace(c) && NoTripleNewline(c) &&
      (c != [] ==> !IsSpace(c[0]) && !IsSpace(c[|c| - 1]))
  {
    var lo, hi := StripSlice(t);
    SliceKeepsNormal(t, lo, hi);
  }

  /** The text `_chunk_text` works on: blank runs collapsed, newline runs capped, stripped. */
  function Clean(text: string): (c: string)
  {
    Strip(CollapseNewlines(CollapseBlanks(text)))
  }

  /**
   * The cleaned text holds no tab, no two adjacent spaces and no three
   * adjacent newlines, and neither starts nor ends with white space.
   */
  lemma CleanIsNormalised(text: string)
    ensures var c := Clean(text);
            NoTab(c) && NoDoubleSpace(c) && NoTripleNewline(c) &&
            (c != [] ==> !IsSpace(c[0]) && !IsSpace(c[|c| - 1]))
  {
    var b := CollapseBlanks(text);
    CollapseNewlinesCapsRuns(b);
    CollapseNewlinesKeepsSingleSpaces(b);
    CollapseNewlinesKeepsNoTab(b);
    StripKeepsNormal(CollapseNewlines(b));
  }

  predicate NotBlank(c: char)
  {
    !IsBlank(c)
  }

  predicate NotNewline(c: char)
  {
    c != '\n'
  }

  /** Dropping a prefix of characters that `keep` rejects leaves the kept text as it was. */
  lemma KeepSkip(s: string, k: nat, keep: char -> bool)
    requires k <= |s| && forall j :: 0 <= j < k ==> !keep(s[j])
    ensures Keep(s[k..], keep) == Keep(s, keep)
  {
    assert s == s[..k] + s[k..];
    KeepAppend(s[..k], s[k..], keep);
    KeepEmpty(s[..k], keep);
  }

  /** The blank substitution changes only spaces and tabs: every other character stays, in order. */
  lemma {:induction false} CollapseBlanksKeepsText(s: string)
    ensures Keep(CollapseBlanks(s), NotBlank) == Keep(s, NotBlank)
    decreases |s|
  {
    if s != [] {
      if IsBlank(s[0]) {
        var k := RunEnd(s, 0, true);
        var rest := CollapseBlanks(s[k..]);
        assert CollapseBlanks(s) == [' '] + rest;
        assert ([' '] + rest)[1..] == rest;
        CollapseBlanksKeepsText(s[k..]);
        KeepSkip(s, k, NotBlank);
      } else {
        var rest := CollapseBlanks(s[1..]);
        assert CollapseBlanks(s) == [s[0]] + rest;
        assert ([s[0]] + rest)[1..] == rest;
        CollapseBlanksKeepsText(s[1..]);
      }
    }
  }

  /** The newline substitution changes only newlines: every other character stays, in order. */
  lemma {:induction false} CollapseNewlinesKeepsText(s: string)
    ensures Keep(CollapseNewlines(s), NotNewline) == Keep(s, NotNewline)
    decreases |s|
  {
    if s != [] {
      var k := RunEnd(s, 0, false);
      CollapseNewlinesStep(s, k);
      if s[0] == '\n' {
        var m := if k >= 3 then 2 else k;
        KeepAppend(Repeat('\n', m), CollapseNewlines(s[k..]), NotNewline);
        KeepEmpty(Repeat('\n', m), NotNewline);
        CollapseNewlinesKeepsText(s[k..]);
        KeepSkip(s, k, NotNewline);
      } else {
        var rest := CollapseNewlines(s[1..]);
        assert ([s[0]] + rest)[1..] == rest;
        CollapseNewlinesKeepsText(s[1..]);
      }
    }
  }

  /** On a text with no tab and no two adjacent spaces the blank substitution changes nothing. */
  lemma {:induction false} CollapseBlanksUnchanged(s: string)
    requires NoTab(s) && NoDoubleSpace(s)
    ensures CollapseBlanks(s) == s
    decreases |s|
  {
    if s != [] {
      SliceKeepsNormal(s, 1, |s|);
      assert s[1..|s|] == s[1..];
      CollapseBlanksUnchanged(s[1..]);
      if IsBlank(s[0]) {
        assert RunEnd(s, 0, true) == 1 by {
          if |s| > 1 {
            assert !IsBlank(s[1]);
          }
        }
      }
      FirstRest(s);
    }
  }

  /** A text that starts with `k` newlines is those newlines followed by the rest. */
  lemma NewlineRunSplit(s: string, k: nat)
    requires k <= |s| && forall j :: 0 <= j < k ==> s[j] == '\n'
    ensures Repeat('\n', k) + s[k..] == s
  {
    assert Repeat('\n', k) == s[..k];
  }

  /** Without three adjacent newlines a run of newlines is at most two long. */
  lemma NewlineRunShort(s: string)
    requires s != [] && NoTripleNewline(s)
    ensures RunEnd(s, 0, false) < 3
  {
    if |s| >= 3 {
      assert !(s[0] == '\n' && s[1] == '\n' && s[2] == '\n');
    }
  }

  /** A leading run of at most two newlines is copied as it is. */
  lemma NewlineRunKept(s: string, k: nat)
    requires s != [] && s[0] == '\n' && k == RunEnd(s, 0, false) && k < 3
    requires CollapseNewlines(s[k..]) == s[k..]
    ensures CollapseNewlines(s) == s
  {
    CollapseNewlinesStep(s, k);
    NewlineRunSplit(s, k);
  }

  /** A leading character other than a newline is copied as it is. */
  lemma OtherKept(s: string)
    requires s != [] && s[0] != '\n'
    requires CollapseNewlines(s[1..]) == s[1..]
    ensures CollapseNewlines(s) == s
  {
    CollapseNewlinesStep(s, RunEnd(s, 0, false));
    FirstRest(s);
  }

  /** On a text with no three adjacent newlines the newline substitution changes nothing. */
  lemma {:induction false} CollapseNewlinesUnchanged(s: string)
    requires NoTripleNewline(s)
    ensures CollapseNewlines(s) == s
    decreases |s|
  {
    if s != [] {
      var k := if s[0] == '\n' then RunEnd(s, 0, false) else 1;
      assert k >= 1;
      SliceKeepsNormal(s, k, |s|);
      assert s[k..|s|] == s[k..];
      CollapseNewlinesUnchanged(s[k..]);
      if s[0] == '\n' {
        NewlineRunShort(s);
        NewlineRunKept(s, k);
      } else {
        OtherKept(s);
      }
    }
  }

  /** A run stops at a character that cannot extend it, whatever follows that character. */
  lemma {:induction false} RunEndBreak(a: string, c: char, b: string, i: nat, blanks: bool)
    requires i <= |a|
    requires if blanks then !IsBlank(c) else c != '\n'
    ensures RunEnd(a + [c] + b, i, blanks) == RunEnd(a, i, blanks)
    decreases |a| - i
  {
    if i < |a| {
      assert (a + [c] + b)[i] == a[i];
      RunEndBreak(a, c, b, i + 1, blanks);
    } else {
      assert (a + [c] + b)[i] == c;
    }
  }

  /** The blank substitution unfolded once, in the shape of its body. */
  lemma CollapseBlanksStep(s: string, k: nat)
    requires s != [] && k == RunEnd(s, 0, true)
    ensures IsBlank(s[0]) ==> CollapseBlanks(s) == [' '] + CollapseBlanks(s[k..])
    ensures !IsBlank(s[0]) ==> CollapseBlanks(s) == [s[0]] + CollapseBlanks(s[1..])
  {
  }

  /** Dropping `k <= |a|` characters from `a + [c] + b` drops them from `a`. */
  lemma DropFront(a: string, c: char, b: string, k: nat)
    requires k <= |a|
    ensures (a + [c] + b)[k..] == a[k..] + [c] + b
  {
  }

  /** Regrouping a concatenation around one character. */
  lemma Regroup(p: string, x: string, c: char, y: string)
    ensures p + (x + [c] + y) == (p + x) + [c] + y
  {
  }

  /** The blank split when `a` starts with a run ending at `k`, given the split for `a[k..]`. */
  lemma BlankRunSplit(a: string, c: char, b: string, k: nat)
    requires a != [] && IsBlank(a[0]) && !IsBlank(c) && k == RunEnd(a, 0, true)
    requires CollapseBlanks(a[k..] + [c] + b) == CollapseBlanks(a[k..]) + [c] + CollapseBlanks(b)
    ensures CollapseBlanks(a + [c] + b) == CollapseBlanks(a) + [c] + CollapseBlanks(b)
  {
    var s := a + [c] + b;
    assert s[0] == a[0];
    RunEndBreak(a, c, b, 0, true);
    calc {
      CollapseBlanks(s);
      { CollapseBlanksStep(s, k); }
      [' '] + CollapseBlanks(s[k..]);
      { DropFront(a, c, b, k); }
      [' '] + (CollapseBlanks(a[k..]) + [c] + CollapseBlanks(b));
      { Regroup([' '], CollapseBlanks(a[k..]), c, CollapseBlanks(b)); }
      ([' '] + CollapseBlanks(a[k..])) + [c] + CollapseBlanks(b);
      { CollapseBlanksStep(a, k); }
      CollapseBlanks(a) + [c] + CollapseBlanks(b);
    }
  }

  /** The blank split when `a` starts with another character, given the split for `a[1..]`. */
  lemma BlankOtherSplit(a: string, c: char, b: string)
    requires a != [] && !IsBlank(a[0]) && !IsBlank(c)
    requires CollapseBlanks(a[1..] + [c] + b) == CollapseBlanks(a[1..]) + [c] + CollapseBlanks(b)
    ensures CollapseBlanks(a + [c] + b) == CollapseBlanks(a) + [c] + CollapseBlanks(b)
  {
    var s := a + [c] + b;
    assert s[0] == a[0];
    calc {
      CollapseBlanks(s);
      { CollapseBlanksStep(s, RunEnd(s, 0, true)); }
      [a[0]] + CollapseBlanks(s[1..]);
      { DropFront(a, c, b, 1); }
      [a[0]] + (CollapseBlanks(a[1..]) + [c] + CollapseBlanks(b));
      { Regroup([a[0]], CollapseBlanks(a[1..]), c, CollapseBlanks(b)); }
      ([a[0]] + CollapseBlanks(a[1..])) + [c] + CollapseBlanks(b);
      { CollapseBlanksStep(a, RunEnd(a, 0, true)); }
      CollapseBlanks(a) + [c] + CollapseBlanks(b);
    }
  }

  /** A character other than a space or tab splits the blank substitution in two. */
  lemma {:induction false} CollapseBlanksSplit(a: string, c: char, b: string)
    requires !IsBlank(c)
    ensures CollapseBlanks(a + [c] + b) == CollapseBlanks(a) + [c] + CollapseBlanks(b)
    decreases |a|
  {
    if a == [] {
      assert a + [c] + b == [c] + b && ([c] + b)[1..] == b;
      CollapseBlanksStep([c] + b, RunEnd([c] + b, 0, true));
    } else {
      var k := if IsBlank(a[0]) then RunEnd(a, 0, true) else 1;
      CollapseBlanksSplit(a[k..], c, b);
      if IsBlank(a[0]) {
        BlankRunSplit(a, c, b, k);
      } else {
        BlankOtherSplit(a, c, b);
      }
    }
  }

  /** A whole run of spaces and tabs becomes exactly one space. */
  lemma CollapseBlanksRun(w: string)
    requires w != [] && forall i :: 0 <= i < |w| ==> IsBlank(w[i])
    ensures CollapseBlanks(w) == " "
  {
    var k := RunEnd(w, 0, true);
    assert k == |w|;
    assert w[k..] == [];
  }

  /** Regrouping a concatenation around two characters. */
  lemma Regroup2(a: string, c: char, w: string, d: char, b: string)
    ensures a + [c] + w + [d] + b == a + [c] + (w + [d] + b)
  {
  }

  /** Between two other characters, a run of spaces and tabs becomes one space: words never merge. */
  lemma CollapseBlanksBetween(a: string, c: char, w: string, d: char, b: string)
    requires !IsBlank(c) && !IsBlank(d)
    requires w != [] && forall i :: 0 <= i < |w| ==> IsBlank(w[i])
    ensures CollapseBlanks(a + [c] + w + [d] + b) == CollapseBlanks(a) + [c] + " " + [d] + CollapseBlanks(b)
  {
    calc {
      CollapseBlanks(a + [c] + w + [d] + b);
      { Regroup2(a, c, w, d, b); }
      CollapseBlanks(a + [c] + (w + [d] + b));
      { CollapseBlanksSplit(a, c, w + [d] + b); }
      CollapseBlanks(a) + [c] + CollapseBlanks(w + [d] + b);
      { CollapseBlanksSplit(w, d, b); CollapseBlanksRun(w); }
      CollapseBlanks(a) + [c] + (" " + [d] + CollapseBlanks(b));
      { Regroup2(CollapseBlanks(a), c, " ", d, CollapseBlanks(b)); }
      CollapseBlanks(a) + [c] + " " + [d] + CollapseBlanks(b);
    }
  }

  /** The newline split when `a` starts with a run ending at `k`, given the split for `a[k..]`. */
  lemma NewlineRunSplitAt(a: string, c: char, b: string, k: nat)
    requires a != [] && a[0] == '\n' && c != '\n' && k == RunEnd(a, 0, false)
    requires CollapseNewlines(a[k..] + [c] + b) == CollapseNewlines(a[k..]) + [c] + CollapseNewlines(b)
    ensures CollapseNewlines(a + [c] + b) == CollapseNewlines(a) + [c] + CollapseNewlines(b)
  {
    var s := a + [c] + b;
    assert s[0] == a[0];
    RunEndBreak(a, c, b, 0, false);
    var p := Repeat('\n', if k >= 3 then 2 else k);
    calc {
      CollapseNewlines(s);
      { CollapseNewlinesStep(s, k); }
      p + CollapseNewlines(s[k..]);
      { DropFront(a, c, b, k); }
      p + (CollapseNewlines(a[k..]) + [c] + CollapseNewlines(b));
      { Regroup(p, CollapseNewlines(a[k..]), c, CollapseNewlines(b)); }
      (p + CollapseNewlines(a[k..])) + [c] + CollapseNewlines(b);
      { CollapseNewlinesStep(a, k); }
      CollapseNewlines(a) + [c] + CollapseNewlines(b);
    }
  }

  /** The newline split when `a` starts with another character, given the split for `a[1..]`. */
  lemma NewlineOtherSplit(a: string, c: char, b: string)
    requires a != [] && a[0] != '\n' && c != '\n'
    requires CollapseNewlines(a[1..] + [c] + b) == CollapseNewlines(a[1..]) + [c] + CollapseNewlines(b)
    ensures CollapseNewlines(a + [c] + b) == CollapseNewlines(a) + [c] + CollapseNewlines(b)
  {
    var s := a + [c] + b;
    assert s[0] == a[0];
    calc {
      CollapseNewlines(s);
      { CollapseNewlinesStep(s, RunEnd(s, 0, false)); }
      [a[0]] + CollapseNewlines(s[1..]);
      { DropFront(a, c, b, 1); }
      [a[0]] + (CollapseNewlines(a[1..]) + [c] + CollapseNewlines(b));
      { Regroup([a[0]], CollapseNewlines(a[1..]), c, CollapseNewlines(b)); }
      ([a[0]] + CollapseNewlines(a[1..])) + [c] + CollapseNewlines(b);
      { CollapseNewlinesStep(a, RunEnd(a, 0, false)); }
      CollapseNewlines(a) + [c] + CollapseNewlines(b);
    }
  }

  /** A character other than a newline splits the newline substitution in two. */
  lemma {:induction false} CollapseNewlinesSplit(a: string, c: char, b: string)
    requires c != '\n'
    ensures CollapseNewlines(a + [c] + b) == CollapseNewlines(a) + [c] + CollapseNewlines(b)
    decreases |a|
  {
    if a == [] {
      assert a + [c] + b == [c] + b && ([c] + b)[1..] == b;
      CollapseNewlinesStep([c] + b, RunEnd([c] + b, 0, false));
    } else {
      var k := if a[0] == '\n' then RunEnd(a, 0, false) else 1;
      CollapseNewlinesSplit(a[k..], c, b);
      if a[0] == '\n' {
        NewlineRunSplitAt(a, c, b, k);
      } else {
        NewlineOtherSplit(a, c, b);
      }
    }
  }

  /** A whole run of `k` newlines is capped at two. */
  lemma CollapseNewlinesRun(k: nat)
    ensures CollapseNewlines(Repeat('\n', k)) == Repeat('\n', if k >= 3 then 2 else k)
  {
    if k > 0 {
      var w := Repeat('\n', k);
      assert RunEnd(w, 0, false) == k;
      CollapseNewlinesStep(w, k);
      assert w[k..] == [];
    }
  }

  /** Between two other characters, three or more newlines become two and shorter runs stay. */
  lemma CollapseNewlinesBetween(a: string, c: char, k: nat, d: char, b: string)
    requires c != '\n' && d != '\n'
    ensures CollapseNewlines(a + [c] + Repeat('\n', k) + [d] + b)
         == CollapseNewlines(a) + [c] + Repeat('\n', if k >= 3 then 2 else k) + [d] + CollapseNewlines(b)
  {
    var w := Repeat('\n', k);
    var m := Repeat('\n', if k >= 3 then 2 else k);
    calc {
      CollapseNewlines(a + [c] + w + [d] + b);
      { Regroup2(a, c, w, d, b); }
      CollapseNewlines(a + [c] + (w + [d] + b));
      { CollapseNewlinesSplit(a, c, w + [d] + b); }
      CollapseNewlines(a) + [c] + CollapseNewlines(w + [d] + b);
      { CollapseNewlinesSplit(w, d, b); CollapseNewlinesRun(k); }
      CollapseNewlines(a) + [c] + (m + [d] + CollapseNewlines(b));
      { Regroup2(CollapseNewlines(a), c, m, d, CollapseNewlines(b)); }
      CollapseNewlines(a) + [c] + m + [d] + CollapseNewlines(b);
    }
  }

  /** Cleaning removes or merges only white space: the visible text is the input's. */
  lemma CleanKeepsText(text: string)
    ensures Keep(Clean(text), NotSpace) == Keep(text, NotSpace)
  {
    var b := CollapseBlanks(text);
    var n := CollapseNewlines(b);
    assert forall c :: NotSpace(c) ==> NotBlank(c) && NotNewline(c);
    CollapseBlanksKeepsText(text);
    KeepKeep(b, NotBlank, NotSpace);
    KeepKeep(text, NotBlank, NotSpace);
    CollapseNewlinesKeepsText(b);
    KeepKeep(n, NotNewline, NotSpace);
    KeepKeep(b, NotNewline, NotSpace);
    StripKeepsText(n);
  }

  /** The cleaned text is empty exactly when the input is nothing but white space. */
  lemma CleanEmpty(text: string)
    ensures Clean(text) == [] <==> forall i :: 0 <= i < |text| ==> IsSpace(text[i])
  {
    var c := Clean(text);
    CleanKeepsText(text);
    KeepEmpty(text, NotSpace);
    KeepEmpty(c, NotSpace);
    CleanIsNormalised(text);
    if c != [] {
      assert NotSpace(c[0]);
    }
  }

  /** Cleaning a cleaned text changes nothing. */
  lemma CleanIdempotent(text: string)
    ensures Clean(Clean(text)) == Clean(text)
  {
    var c := Clean(text);
    CleanIsNormalised(text);
    CollapseBlanksUnchanged(c);
    CollapseNewlinesUnchanged(c);
    StripUnchanged(c);
  }

}


module ChunkWindows {
  import opened Wrappers
  import opened Text
  import opened Chunker

  /** The half-open character range `[lo, hi)` that one loop iteration slices. */
  datatype Window = Window(lo: nat, hi: nat)

  /** Every window is a valid slice of a text of length `n`. */
  predicate Inside(ws: seq<Window>, n: nat)
    decreases |ws|
  {
    ws == [] || (ws[0].lo <= ws[0].hi <= n && Inside(ws[1..], n))
  }

  /**
   * The windows the chunking loop visits from `start` on, over a cleaned
   * text of length `n`: each is `[start, min(n, start + width))`, and the
   * next starts at `max(0, end - overlap)` until a window reaches `n`.
   */
  function WindowsFrom(n: nat, width: int, overlap: int, start: nat): (ws: seq<Window>)
    requires 0 < width && overlap < width
    ensures ws != [] <==> start < n
    ensures Inside(ws, n)
    decreases n - start
  {
    if start >= n then []
    else
      var end := Min(n, start + width);
      if end == n then [Window(start, end)]
      else [Window(start, end)] + WindowsFrom(n, width, overlap, Max(0, end - overlap))
  }

  /** One loop iteration: the current window, then (unless it reached `n`) the windows from the next start. */
  lemma WindowsStep(n: nat, width: int, overlap: int, start: nat, end: nat)
    requires 0 < width && overlap < width && start < n && end == Min(n, start + width)
    ensures WindowsFrom(n, width, overlap, start)[0] == Window(start, end)
    ensures end == n ==> |WindowsFrom(n, width, overlap, start)| == 1
    ensures end < n ==> WindowsFrom(n, width, overlap, start)[1..] == WindowsFrom(n, width, overlap, Max(0, end - overlap))
  {
  }

  /** The same iteration as a list: the current window in front of the windows from the next start. */
  lemma WindowsCons(n: nat, width: int, overlap: int, start: nat, end: nat)
    requires 0 < width && overlap < width && start < n && end == Min(n, start + width)
    ensures end == n ==> WindowsFrom(n, width, overlap, start) == [Window(start, end)]
    ensures end < n ==>
      WindowsFrom(n, width, overlap, start) ==
      [Window(start, end)] + WindowsFrom(n, width, overlap, Max(0, end - overlap))
  {
  }

  /** Every window is non-empty, lies in `[start, n)` and is at most `width` long. */
  predicate Bounded(ws: seq<Window>, start: nat, n: nat, width: int)
  {
    forall i :: 0 <= i < |ws| ==> start <= ws[i].lo < ws[i].hi <= n && ws[i].hi - ws[i].lo <= width
  }

  lemma BoundedCons(w: Window, rest: seq<Window>, start: nat, next: nat, n: nat, width: int)
    requires start <= w.lo < w.hi <= n && w.hi - w.lo <= width
    requires start <= next && Bounded(rest, next, n, width)
    ensures Bounded([w] + rest, start, n, width)
  {
    var ws := [w] + rest;
    forall i | 0 <= i < |ws|
      ensures start <= ws[i].lo < ws[i].hi <= n && ws[i].hi - ws[i].lo <= width
    {
      if i > 0 {
        assert ws[i] == rest[i - 1];
      }
    }
  }

  /** The windows from `start` are non-empty, lie in `[start, n)` and are at most `width` long. */
  lemma {:induction false} WindowsBounded(n: nat, width: int, overlap: int, start: nat)
    requires 0 < width && overlap < width
    ensures Bounded(WindowsFrom(n, width, overlap, start), start, n, width)
    decreases n - start
  {
    if start < n {
      var end := Min(n, start + width);
      WindowsCons(n, width, overlap, start, end);
      if end < n {
        var next := Max(0, end - overlap);
        WindowsBounded(n, width, overlap, next);
        BoundedCons(Window(start, end), WindowsFrom(n, width, overlap, next), start, next, n, width);
      }
    }
  }

  /**
   * Every window but the last is exactly `width` long and ends before
   * `n`; the last one reaches `n`, or the next start would not be before `n`.
   */
  predicate Full(ws: seq<Window>, n: nat, width: int, overlap: int)
  {
    (forall i :: 0 <= i < |ws| - 1 ==> ws[i].hi - ws[i].lo == width && ws[i].hi < n) &&
    (ws != [] ==> ws[|ws| - 1].hi == n || ws[|ws| - 1].hi - overlap >= n)
  }

  lemma FullCons(w: Window, rest: seq<Window>, n: nat, width: int, overlap: int)
    requires w.hi - w.lo == width && w.hi < n
    requires rest != [] && Full(rest, n, width, overlap)
    ensures Full([w] + rest, n, width, overlap)
  {
    var ws := [w] + rest;
    assert ws[|ws| - 1] == rest[|rest| - 1];
    forall i | 0 <= i < |ws| - 1
      ensures ws[i].hi - ws[i].lo == width && ws[i].hi < n
    {
      if i > 0 {
        assert ws[i] == rest[i - 1];
      }
    }
  }

  /** The windows from `start` are full up to the last one, which reaches `n` unless the next start would not be before `n`. */
  lemma {:induction false} WindowsFull(n: nat, width: int, overlap: int, start: nat)
    requires 0 < width && overlap < width
    ensures Full(WindowsFrom(n, width, overlap, start), n, width, overlap)
    decreases n - start
  {
    if start < n {
      var end := Min(n, start + width);
      WindowsCons(n, width, overlap, start, end);
      if end < n {
        var next := Max(0, end - overlap);
        var rest := WindowsFrom(n, width, overlap, next);
        WindowsFull(n, width, overlap, next);
        if rest != [] {
          FullCons(Window(start, end), rest, n, width, overlap);
        }
      }
    }
  }

  /** Each window after the first starts at `max(0, end - overlap)` of the one before it. */
  ghost predicate Advancing(ws: seq<Window>, overlap: int)
  {
    forall i, j :: 0 <= i && j == i + 1 && j < |ws| ==> ws[j].lo == Max(0, ws[i].hi - overlap)
  }

  lemma AdvancingCons(w: Window, rest: seq<Window>, overlap: int)
    requires Advancing(rest, overlap)
    requires rest != [] ==> rest[0].lo == Max(0, w.hi - overlap)
    ensures Advancing([w] + rest, overlap)
  {
    var ws := [w] + rest;
    forall i, j | 0 <= i && j == i + 1 && j < |ws|
      ensures ws[j].lo == Max(0, ws[i].hi - overlap)
    {
      if i > 0 {
        assert ws[i] == rest[i - 1] && ws[j] == rest[j - 1];
      }
    }
  }

  /** The windows from `start` each start at `max(0, end - overlap)` of the one before. */
  lemma {:induction false} WindowsAdvance(n: nat, width: int, overlap: int, start: nat)
    requires 0 < width && overlap < width
    ensures Advancing(WindowsFrom(n, width, overlap, start), overlap)
    decreases n - start
  {
    if start < n {
      var end := Min(n, start + width);
      WindowsCons(n, width, overlap, start, end);
      if end < n {
        var next := Max(0, end - overlap);
        WindowsAdvance(n, width, overlap, next);
        if next < n {
          WindowsStep(n, width, overlap, next, Min(n, next + width));
        }
        AdvancingCons(Window(start, end), WindowsFrom(n, width, overlap, next), overlap);
      }
    }
  }

  /** Window starts and ends strictly increase along the list. */
  predicate Increasing(ws: seq<Window>)
  {
    forall i, j :: 0 <= i < j < |ws| ==> ws[i].lo < ws[j].lo && ws[i].hi < ws[j].hi
  }

  lemma IncreasingCons(w: Window, rest: seq<Window>)
    requires Increasing(rest)
    requires rest != [] ==> w.lo < rest[0].lo && w.hi < rest[0].hi
    ensures Increasing([w] + rest)
  {
    var ws := [w] + rest;
    forall i, j | 0 <= i < j < |ws|
      ensures ws[i].lo < ws[j].lo && ws[i].hi < ws[j].hi
    {
      assert ws[j] == rest[j - 1];
      if i > 0 {
        assert ws[i] == rest[i - 1];
      }
    }
  }

  /** The windows from `start` strictly increase in start and in end. */
  lemma {:induction false} WindowsIncrease(n: nat, width: int, overlap: int, start: nat)
    requires 0 < width && overlap < width
    ensures Increasing(WindowsFrom(n, width, overlap, start))
    decreases n - start
  {
    if start < n {
      var end := Min(n, start + width);
      WindowsCons(n, width, overlap, start, end);
      if end < n {
        var next := Max(0, end - overlap);
        WindowsIncrease(n, width, overlap, next);
        if next < n {
          WindowsStep(n, width, overlap, next, Min(n, next + width));
        }
        IncreasingCons(Window(start, end), WindowsFrom(n, width, overlap, next));
      }
    }
  }

  /** Each window starts no later than the previous one ended (at `from` for the first). */
  predicate Chained(ws: seq<Window>, from: nat, n: nat)
    decreases |ws|
  {
    ws == [] || (ws[0].lo <= from <= ws[0].hi <= n && Chained(ws[1..], ws[0].hi, n))
  }

  /** The windows' texts concatenated with the overlap of each with its predecessor removed. */
  function Reassemble(c: string, ws: seq<Window>, from: nat): string
    requires Chained(ws, from, |c|)
    decreases |ws|
  {
    if ws == [] then []
    else c[ws[0].lo..ws[0].hi][from - ws[0].lo..] + Reassemble(c, ws[1..], ws[0].hi)
  }

  /** With `0 <= overlap < width` each window starts no later than the previous one ended. */
  lemma {:induction false} WindowsChained(n: nat, width: int, overlap: int, start: nat, from: nat)
    requires 0 <= overlap < width && start <= from <= Min(n, start + width)
    ensures Chained(WindowsFrom(n, width, overlap, start), from, n)
    decreases n - start
  {
    var ws := WindowsFrom(n, width, overlap, start);
    if start < n {
      var end := Min(n, start + width);
      WindowsStep(n, width, overlap, start, end);
      if end < n {
        WindowsChained(n, width, overlap, Max(0, end - overlap), end);
      } else {
        assert ws[1..] == [];
      }
    }
  }

  /** A window's text from `from` on, followed by the text from its end, is the text from `from`. */
  lemma SliceJoin(c: string, lo: nat, from: nat, hi: nat)
    requires lo <= from <= hi <= |c|
    ensures c[lo..hi][from - lo..] + c[hi..] == c[from..]
  {
    assert c[lo..hi][from - lo..] == c[from..hi];
  }

  /**
   * Chained windows whose last one ends at the end of the text give the
   * text back from `from` on once each window's overlap with the one
   * before is removed.
   */
  lemma {:induction false} ReassembleCovers(c: string, ws: seq<Window>, from: nat)
    requires Chained(ws, from, |c|)
    requires if ws == [] then from == |c| else ws[|ws| - 1].hi == |c|
    ensures Reassemble(c, ws, from) == c[from..]
    decreases |ws|
  {
    if ws != [] {
      var rest := ws[1..];
      if rest != [] {
        assert rest[|rest| - 1] == ws[|ws| - 1];
      }
      ReassembleCovers(c, rest, ws[0].hi);
      SliceJoin(c, ws[0].lo, from, ws[0].hi);
    }
  }

  /**
   * With `0 <= overlap < width`, removing from each window its overlap
   * with the one before gives back the text exactly: from `start` on, or
   * from any later point `from` inside the first window.
   */
  lemma WindowsReassemble(c: string, width: int, overlap: int, start: nat, from: nat)
    requires 0 <= overlap < width && start <= from <= Min(|c|, start + width)
    ensures Chained(WindowsFrom(|c|, width, overlap, start), from, |c|)
    ensures Reassemble(c, WindowsFrom(|c|, width, overlap, start), from) == c[from..]
  {
    var ws := WindowsFrom(|c|, width, overlap, start);
    WindowsChained(|c|, width, overlap, start, from);
    WindowsBounded(|c|, width, overlap, start);
    WindowsFull(|c|, width, overlap, start);
    ReassembleCovers(c, ws, from);
  }

  /** A window's trimmed text as the loop appends it: only when non-empty. */
  function Kept(p: string): seq<string>
  {
    if p == [] then [] else [p]
  }

  /**
   * The non-empty results of `trim` on the windows' texts, in window
   * order. `_chunk_text` always trims with `Strip`; the trimming is a
   * parameter because the windowing does not depend on it, and the bounds
   * on the chunks need only that it never lengthens a text
   * (`PiecesSized`), which keeps `Strip`'s definition out of these proofs.
   */
  function Pieces(c: string, ws: seq<Window>, trim: string -> string): (r: seq<string>)
    requires Inside(ws, |c|)
    ensures |r| <= |ws|
    decreases |ws|
  {
    if ws == [] then [] else Kept(trim(c[ws[0].lo..ws[0].hi])) + Pieces(c, ws[1..], trim)
  }

  /** One window step on the piece list: this window's piece, then the pieces of the windows from the next start. */
  lemma PiecesStep(c: string, width: int, overlap: int, start: nat, end: nat, trim: string -> string)
    requires 0 < width && overlap < width && start < |c| && end == Min(|c|, start + width)
    ensures end == |c| ==> Pieces(c, WindowsFrom(|c|, width, overlap, start), trim) == Kept(trim(c[start..end]))
    ensures end < |c| ==>
      Pieces(c, WindowsFrom(|c|, width, overlap, start), trim) ==
      Kept(trim(c[start..end])) + Pieces(c, WindowsFrom(|c|, width, overlap, Max(0, end - overlap)), trim)
  {
    var ws := WindowsFrom(|c|, width, overlap, start);
    var p := Kept(trim(c[start..end]));
    WindowsStep(|c|, width, overlap, start, end);
    if end == |c| {
      assert ws[1..] == [];
      assert Pieces(c, ws[1..], trim) == [];
      assert p + [] == p;
    }
  }

  /** What `_chunk_text(text, width, overlap)` returns: the non-empty stripped windows of the cleaned text. */
  function Chunks(text: string, width: int, overlap: int): seq<string>
    requires 0 < width && overlap < width
  {
    var c := Clean(text);
    Pieces(c, WindowsFrom(|c|, width, overlap, 0), Strip)
  }

  /** Windows no longer than `width`. */
  predicate Narrow(ws: seq<Window>, width: int)
  {
    forall i :: 0 <= i < |ws| ==> ws[i].hi - ws[i].lo <= width
  }

  /** Pieces non-empty and no longer than `width`. */
  predicate Sized(r: seq<string>, width: int)
  {
    forall i :: 0 <= i < |r| ==> 0 < |r[i]| <= width
  }

  /** A kept piece in front of sized pieces leaves them sized. */
  lemma KeptSized(p: string, rest: seq<string>, width: int)
    requires |p| <= width && Sized(rest, width)
    ensures Sized(Kept(p) + rest, width)
  {
    var r := Kept(p) + rest;
    forall i | 0 <= i < |r|
      ensures 0 < |r[i]| <= width
    {
      if i < |Kept(p)| {
        assert r[i] == p;
      } else {
        assert r[i] == rest[i - |Kept(p)|];
      }
    }
  }

  /** When `trim` never lengthens a text, the pieces of narrow windows are non-empty and at most `width` long. */
  lemma {:induction false} PiecesSized(c: string, ws: seq<Window>, width: int, trim: string -> string)
    requires Inside(ws, |c|) && Narrow(ws, width)
    requires forall s :: |trim(s)| <= |s|
    ensures Sized(Pieces(c, ws, trim), width)
    decreases |ws|
  {
    if ws != [] {
      assert forall i :: 0 <= i < |ws| - 1 ==> ws[1..][i] == ws[i + 1];
      PiecesSized(c, ws[1..], width, trim);
      KeptSized(trim(c[ws[0].lo..ws[0].hi]), Pieces(c, ws[1..], trim), width);
    }
  }

  /** A text that starts with a non-space character keeps the piece of its first window. */
  lemma FirstPieceKept(c: string, width: int, overlap: int)
    requires 0 < width && overlap < width && c != [] && !IsSpace(c[0])
    ensures Pieces(c, WindowsFrom(|c|, width, overlap, 0), Strip) != []
  {
    var end := Min(|c|, width);
    PiecesStep(c, width, overlap, 0, end, Strip);
    StripEnds(c[0..end]);
    assert c[0..end][0] == c[0];
  }

  /**
   * Every chunk is non-empty and at most `width` long, and there is no
   * chunk exactly when the cleaned text is empty.
   */
  lemma ChunksBounded(text: string, width: int, overlap: int)
    requires 0 < width && overlap < width
    ensures var r := Chunks(text, width, overlap);
      (forall i :: 0 <= i < |r| ==> 0 < |r[i]| <= width) &&
      (r == [] <==> Clean(text) == [])
  {
    var c := Clean(text);
    var ws := WindowsFrom(|c|, width, overlap, 0);
    assert Narrow(ws, width) by {
      WindowsBounded(|c|, width, overlap, 0);
      assert Bounded(ws, 0, |c|, width);
    }
    assert forall s :: |Strip(s)| <= |s|;
    PiecesSized(c, ws, width, Strip);
    if c != [] {
      CleanIsNormalised(text);
      FirstPieceKept(c, width, overlap);
    }
  }

  /**
   * The pieces of the windows from `start` on, walked the way the `while`
   * loop walks them: this window's piece, then (unless it reached the end)
   * the pieces from `max(0, end - overlap)`.
   */
  function PiecesFrom(c: string, width: int, overlap: int, start: nat, trim: string -> string): seq<string>
    requires 0 < width && overlap < width
    decreases |c| - start
  {
    if start >= |c| then []
    else
      var end := Min(|c|, start + width);
      Kept(trim(c[start..end])) + if end == |c| then [] else PiecesFrom(c, width, overlap, Max(0, end - overlap), trim)
  }

  /** One step of the walk: this window's piece, then the walk from the next start. */
  lemma PiecesFromStep(c: string, width: int, overlap: int, start: nat, end: nat, trim: string -> string)
    requires 0 < width && overlap < width && start < |c| && end == Min(|c|, start + width)
    ensures end == |c| ==> PiecesFrom(c, width, overlap, start, trim) == Kept(trim(c[start..end]))
    ensures end < |c| ==>
      PiecesFrom(c, width, overlap, start, trim) ==
      Kept(trim(c[start..end])) + PiecesFrom(c, width, overlap, Max(0, end - overlap), trim)
  {
    if end == |c| {
      assert Kept(trim(c[start..end])) + [] == Kept(trim(c[start..end]));
    }
  }

  /** The loop's walk yields the pieces of the windows `WindowsFrom` lists. */
  lemma {:induction false} PiecesFromWindows(c: string, width: int, overlap: int, start: nat, trim: string -> string)
    requires 0 < width && overlap < width
    ensures PiecesFrom(c, width, overlap, start, trim) == Pieces(c, WindowsFrom(|c|, width, overlap, start), trim)
    decreases |c| - start
  {
    if start >= |c| {
      assert WindowsFrom(|c|, width, overlap, start) == [];
    } else {
      var end := Min(|c|, start + width);
      PiecesStep(c, width, overlap, start, end, trim);
      PiecesFromStep(c, width, overlap, start, end, trim);
      if end < |c| {
        PiecesFromWindows(c, width, overlap, Max(0, end - overlap), trim);
      }
    }
  }

  /**
   * The `while` loop of `_chunk_text` over the cleaned text, with the
   * per-window `.strip()` passed in as `trim` (`ChunkText`, the only
   * caller, passes `Strip`; see `Pieces` for why): windows of `chunkChars`
   * characters, each kept when its trimmed text is non-empty, the next
   * starting `overlap` characters before the previous end.
   */
  method SlideWindows(cleaned: string, chunkChars: int, overlap: int, trim: string -> string) returns (out: seq<string>)
    requires 0 < chunkChars && overlap < chunkChars
    ensures out == Pieces(cleaned, WindowsFrom(|cleaned|, chunkChars, overlap, 0), trim)
  {
    out := [];
    var start: nat := 0;
    var n := |cleaned|;
    ghost var total := PiecesFrom(cleaned, chunkChars, overlap, 0, trim);
    while start < n
      invariant out + PiecesFrom(cleaned, chunkChars, overlap, start, trim) == total
      decreases n - start
    {
      var end := Min(n, start + chunkChars);
      var chunk := trim(cleaned[start..end]);
      ghost var before := out;
      ghost var rest := if end == n then [] else PiecesFrom(cleaned, chunkChars, overlap, Max(0, end - overlap), trim);
      PiecesFromStep(cleaned, chunkChars, overlap, start, end, trim);
      assert PiecesFrom(cleaned, chunkChars, overlap, start, trim) == Kept(chunk) + rest;
      if chunk != [] {
        out := out + [chunk];
      }
      assert out == before + Kept(chunk);
      Assoc(before, Kept(chunk), rest);
      if end == n {
        break;
      }
      start := Max(0, end - overlap);
    }
    PiecesFromWindows(cleaned, chunkChars, overlap, 0, trim);
  }

  /** `_chunk_text`: clean the text; nothing when it is empty; otherwise slide the window over it. */
  method ChunkText(text: string, chunkChars: int, overlap: int) returns (out: seq<string>)
    requires 0 < chunkChars && overlap < chunkChars
    ensures out == Chunks(text, chunkChars, overlap)
  {
    var cleaned := Clean(text);
    if cleaned == [] {
      return [];
    }
    out := SlideWindows(cleaned, chunkChars, overlap, Strip);
  }
}
