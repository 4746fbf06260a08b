/** The clean-up `token_format` applies after joining: every run of the reserved
    delimiter is collapsed to one (`re.sub("~+", "~", res)`), then one trailing
    delimiter is dropped. */
module Delimiters {

  /** SPECIAL_CHAR, the reserved delimiter. */
  const Delimiter: char := '~'

  predicate NoDoubledDelimiter(s: string)
  {
    forall i :: 0 <= i < |s| - 1 ==> !(s[i] == Delimiter && s[i + 1] == Delimiter)
  }

  predicate EndsWithDelimiter(s: string)
  {
    |s| > 0 && s[|s| - 1] == Delimiter
  }

  /** The regular-expression substitution of `~+` by `~`, scanning left to right:
      a delimiter followed by another delimiter is dropped. */
  function CollapseRuns(s: string): (r: string)
    ensures |r| <= |s|
    ensures |s| > 0 ==> |r| > 0 && r[0] == s[0]
    ensures NoDoubledDelimiter(r)
    ensures forall c :: c in r ==> c in s
  {
    if |s| <= 1 then s
    else if s[0] == Delimiter && s[1] == Delimiter then CollapseRuns(s[1..])
    else
      var tail := CollapseRuns(s[1..]);
      assert tail[0] == s[1];
      [s[0]] + tail
  }

  /** An independent reading of the substitution, scanning right to left: keep
      every character except a delimiter whose left neighbour is a delimiter,
      which leaves exactly the first delimiter of each run. */
  function KeepRunHeads(s: string): string
  {
    if |s| == 0 then ""
    else KeepRunHeads(s[..|s| - 1]) + (if IsRunContinuation(s, |s| - 1) then "" else [s[|s| - 1]])
  }

  predicate IsRunContinuation(s: string, i: nat)
    requires i < |s|
  {
    i > 0 && s[i - 1] == Delimiter && s[i] == Delimiter
  }

  /** The text of s with every delimiter removed. */
  function RemoveDelimiters(s: string): string
  {
    if |s| == 0 then ""
    else (if s[0] == Delimiter then "" else [s[0]]) + RemoveDelimiters(s[1..])
  }

  /** Appending one character to the input appends it to the output unless it
      continues a run of delimiters. */
  lemma {:induction false} CollapseSnoc(s: string, c: char)
    ensures CollapseRuns(s + [c])
         == CollapseRuns(s) + (if |s| > 0 && s[|s| - 1] == Delimiter && c == Delimiter then "" else [c])
  {
    if |s| >= 2 {
      assert (s + [c])[1..] == s[1..] + [c];
      CollapseSnoc(s[1..], c);
    } else if |s| == 1 {
      assert (s + [c])[1..] == [c];
    }
  }

  /** CollapseSnoc, stated on the last character of a non-empty string. */
  lemma {:induction false} CollapseLast(s: string)
    requires |s| > 0
    ensures CollapseRuns(s)
         == CollapseRuns(s[..|s| - 1]) + (if IsRunContinuation(s, |s| - 1) then "" else [s[|s| - 1]])
  {
    var init, c := s[..|s| - 1], s[|s| - 1];
    assert init + [c] == s;
    CollapseSnoc(init, c);
  }

  /** The left-to-right and right-to-left readings agree. */
  lemma {:induction false} CollapseMatchesRunHeads(s: string)
    ensures CollapseRuns(s) == KeepRunHeads(s)
  {
    if |s| > 0 {
      CollapseMatchesRunHeads(s[..|s| - 1]);
      CollapseLast(s);
    }
  }

  /** The last character survives the collapse. */
  lemma CollapseKeepsLast(s: string)
    requires |s| > 0
    ensures |CollapseRuns(s)| > 0 && CollapseRuns(s)[|CollapseRuns(s)| - 1] == s[|s| - 1]
  {
    CollapseSnoc(s[..|s| - 1], s[|s| - 1]);
    assert s[..|s| - 1] + [s[|s| - 1]] == s;
  }

  /** The collapse changes exactly the strings that hold a doubled delimiter. */
  lemma {:induction false} CollapseFixpoint(s: string)
    ensures CollapseRuns(s) == s <==> NoDoubledDelimiter(s)
  {
    if |s| >= 2 && NoDoubledDelimiter(s) {
      assert NoDoubledDelimiter(s[1..]) by {
        forall i | 0 <= i < |s[1..]| - 1
          ensures !(s[1..][i] == Delimiter && s[1..][i + 1] == Delimiter)
        {
          assert s[1..][i] == s[i + 1] && s[1..][i + 1] == s[i + 2];
        }
      }
      CollapseFixpoint(s[1..]);
      assert !(s[0] == Delimiter && s[1] == Delimiter);
      assert [s[0]] + s[1..] == s;
    }
  }

  /** Collapsing twice is collapsing once. */
  lemma CollapseIdempotent(s: string)
    ensures CollapseRuns(CollapseRuns(s)) == CollapseRuns(s)
  {
    CollapseFixpoint(CollapseRuns(s));
  }

  /** The collapse removes delimiters only: every other character is kept, in order. */
  lemma {:induction false} CollapseKeepsText(s: string)
    ensures RemoveDelimiters(CollapseRuns(s)) == RemoveDelimiters(s)
  {
    if |s| >= 2 {
      CollapseKeepsText(s[1..]);
      if !(s[0] == Delimiter && s[1] == Delimiter) {
        assert ([s[0]] + CollapseRuns(s[1..]))[1..] == CollapseRuns(s[1..]);
      }
    }
  }

  /** A doubled delimiter anywhere collapses like a single one. */
  lemma {:induction false} CollapseDoubled(a: string, b: string)
    ensures CollapseRuns(a + [Delimiter, Delimiter] + b) == CollapseRuns(a + [Delimiter] + b)
  {
    if |a| == 0 {
      assert (a + [Delimiter, Delimiter] + b)[1..] == [Delimiter] + b;
      assert a + [Delimiter] + b == [Delimiter] + b;
    } else {
      assert (a + [Delimiter, Delimiter] + b)[1..] == a[1..] + [Delimiter, Delimiter] + b;
      assert (a + [Delimiter] + b)[1..] == a[1..] + [Delimiter] + b;
      CollapseDoubled(a[1..], b);
    }
  }

  /** `res[:-1]` when `res[-1]` is the delimiter; Python fails on an empty res. */
  function DropTrailingDelimiter(s: string): string
    requires |s| > 0
  {
    if s[|s| - 1] == Delimiter then s[..|s| - 1] else s
  }

  /** Lines 23-25 of token_format: collapse runs, then drop one trailing delimiter. */
  function CleanUp(s: string): (r: string)
    requires |s| > 0
    ensures NoDoubledDelimiter(r)
    ensures !EndsWithDelimiter(r)
    ensures |s| >= 2 && s[0] != Delimiter && s[1] != Delimiter ==> |r| >= 2 && r[..2] == s[..2]
  {
    var collapsed := CollapseRuns(s);
    assert |s| >= 2 && s[0] != Delimiter ==> collapsed[1] == s[1];
    DropTrailingDelimiter(collapsed)
  }

  /** A trailing delimiter, as an empty last group leaves, does not show. */
  lemma CleanUpTrailing(a: string)
    requires |a| > 0
    ensures CleanUp(a + [Delimiter]) == CleanUp(a)
  {
    CollapseSnoc(a, Delimiter);
    CollapseKeepsLast(a);
  }

  /** A doubled delimiter, as an empty middle group leaves, does not show. */
  lemma CleanUpDoubled(a: string, b: string)
    ensures CleanUp(a + [Delimiter, Delimiter] + b) == CleanUp(a + [Delimiter] + b)
  {
    CollapseDoubled(a, b);
  }

  /** A string that is already clean passes through unchanged. */
  lemma CleanUpIdentity(s: string)
    requires |s| > 0 && NoDoubledDelimiter(s) && !EndsWithDelimiter(s)
    ensures CleanUp(s) == s
  {
    CollapseFixpoint(s);
  }
}
