/** The sentence segmentation of `preprocess_conllu`: lines are read one at a time
    (as `readline` returns them, end-of-file reading as ""), blocks end at a blank
    line, only lines whose first tab-separated field is a digit string are kept,
    and reading stops when the line after a block's closing blank line is also
    blank, or the file has ended; sentences one blank line apart are all read. */
module Segment {
  import opened Strings

  /** A line that describes a single token: its first tab-separated field is a
      non-empty run of digits. */
  predicate IsTokenLine(line: string)
  {
    DigitsUntilTab(line, 0)
  }

  /** From position i on, `line` holds at least one digit and only digits up to
      the first tab or the end. */
  predicate DigitsUntilTab(line: string, i: nat)
    decreases |line| - i
  {
    i < |line| && '0' <= line[i] <= '9'
    && (i + 1 == |line| || line[i + 1] == '\t' || DigitsUntilTab(line, i + 1))
  }

  /** `s.isdigit()`, for ASCII digits. */
  predicate IsDigits(s: string)
  {
    |s| > 0 && forall i :: 0 <= i < |s| ==> '0' <= s[i] <= '9'
  }

  /** The test as the source writes it, `line.split('\t')[0].isdigit()`, is the
      token-line test. */
  lemma TokenLineTest(line: string)
    ensures IsTokenLine(line) <==> IsDigits(Split(line, '\t')[0])
  {
    FirstFieldDigits(line, 0);
    FirstFieldIsSplit(line);
  }

  /** `line.split('\t')[0]`: everything before the first tab. */
  function FirstField(line: string): (r: string)
    ensures r <= line && '\t' !in r
    ensures |r| < |line| ==> line[|r|] == '\t'
  {
    if |line| == 0 || line[0] == '\t' then "" else [line[0]] + FirstField(line[1..])
  }

  /** The first field is what splitting at tabs puts first. */
  lemma FirstFieldIsSplit(line: string)
    ensures FirstField(line) == Split(line, '\t')[0]
  {
    var f, g := FirstField(line), Split(line, '\t')[0];
    var rest := Split(line, '\t');
    JoinSplit(line, '\t');
    assert |rest| == 1 ==> Join('\t', rest) == g;
    assert |rest| > 1 ==> Join('\t', rest) == g + ['\t'] + Join('\t', rest[1..]);
    assert g <= line;
    PrefixBeforeTab(line, f, g);
  }

  /** Two tab-free prefixes of a line that each end at a tab or at the end of
      the line are the same. */
  lemma PrefixBeforeTab(line: string, f: string, g: string)
    requires f <= line && '\t' !in f && (|f| < |line| ==> line[|f|] == '\t')
    requires g <= line && '\t' !in g && (|g| < |line| ==> line[|g|] == '\t')
    ensures f == g
  {
  }

  /** The digit test from position i reads the rest of the first field. */
  lemma {:induction false} FirstFieldDigits(line: string, i: nat)
    requires i <= |FirstField(line)|
    ensures DigitsUntilTab(line, i)
        <==> |FirstField(line)| > i && forall j :: i <= j < |FirstField(line)| ==> '0' <= line[j] <= '9'
    decreases |line| - i
  {
    var f := FirstField(line);
    if i < |f| {
      assert line[i] == f[i];
      if i + 1 < |f| {
        assert line[i + 1] == f[i + 1];
        FirstFieldDigits(line, i + 1);
      }
    }
  }

  /** `f.readline()` when the cursor is at `next`. */
  function ReadLine(lines: seq<string>, next: nat): string
  {
    if next < |lines| then lines[next] else ""
  }

  /** The token lines among lines[lo..hi], in order. */
  function TokenLinesIn(lines: seq<string>, lo: nat, hi: nat): (r: seq<string>)
    requires lo <= hi <= |lines|
    ensures |r| <= hi - lo
    decreases hi - lo
  {
    if lo == hi then []
    else TokenLinesIn(lines, lo, hi - 1) + (if IsTokenLine(lines[hi - 1]) then [lines[hi - 1]] else [])
  }

  /** The token lines of a whole file, in order. */
  function TokenLines(lines: seq<string>): seq<string>
  {
    TokenLinesIn(lines, 0, |lines|)
  }

  /** Where the block that starts at `start` ends: the index of the first blank
      line from `start` on, or the length of the file when there is none. */
  function BlockEnd(lines: seq<string>, start: nat): (k: nat)
    requires start <= |lines|
    ensures start <= k <= |lines|
    decreases |lines| - start
  {
    if start == |lines| || Blank(lines[start]) then start else BlockEnd(lines, start + 1)
  }

  /** The block is the run of non-blank lines from `start`, stopped by a blank
      line or the end of the file. */
  lemma {:induction false} BlockEndSpec(lines: seq<string>, start: nat)
    requires start <= |lines|
    ensures forall j :: start <= j < BlockEnd(lines, start) ==> !Blank(lines[j])
    ensures BlockEnd(lines, start) < |lines| ==> Blank(lines[BlockEnd(lines, start)])
    decreases |lines| - start
  {
    if start < |lines| && !Blank(lines[start]) {
      BlockEndSpec(lines, start + 1);
    }
  }

  /** A block's contribution: its token lines as one sentence, or nothing when
      it has none. */
  function Sentence(block: seq<string>): (r: seq<seq<string>>)
    ensures |r| == if |block| == 0 then 0 else 1
  {
    if |block| == 0 then [] else [block]
  }

  /** The sentences read from the cursor `next` on. */
  function SentencesFrom(lines: seq<string>, next: nat): seq<seq<string>>
    decreases |lines| + 1 - next
  {
    if next >= |lines| || Blank(lines[next]) then []
    else
      var k := BlockEnd(lines, next);
      Sentence(TokenLinesIn(lines, next, k)) + SentencesFrom(lines, k + 1)
  }

  /** One step of reading, from a non-blank line. */
  lemma Unfold(lines: seq<string>, next: nat)
    requires next < |lines| && !Blank(lines[next])
    ensures SentencesFrom(lines, next)
         == Sentence(TokenLinesIn(lines, next, BlockEnd(lines, next))) + SentencesFrom(lines, BlockEnd(lines, next) + 1)
  {
  }

  /** The sentences of a whole file. */
  function Sentences(lines: seq<string>): seq<seq<string>>
  {
    SentencesFrom(lines, 0)
  }

  /** The inner loop of `preprocess_conllu`: from the non-blank line at `start`,
      read up to the next blank line (or the end of the file), collecting the token
      lines. Returns them and the cursor after the line that ended the block. */
  method ReadBlock(lines: seq<string>, start: nat) returns (conllLines: seq<string>, next: nat)
    requires start < |lines| && !Blank(lines[start])
    ensures next == BlockEnd(lines, start) + 1
    ensures conllLines == TokenLinesIn(lines, start, next - 1)
  {
    var line := lines[start];
    next := start + 1;
    conllLines := [];
    while !Blank(line)
      invariant start < next <= |lines| + 1
      invariant line == ReadLine(lines, next - 1)
      invariant forall j :: start <= j < next - 1 ==> !Blank(lines[j])
      invariant conllLines == TokenLinesIn(lines, start, next - 1)
      decreases |lines| + 1 - next
    {
      if IsTokenLine(line) {
        conllLines := conllLines + [line];
      }
      line := ReadLine(lines, next);
      next := next + 1;
    }
    BlockEndIs(lines, start, next - 1);
  }

  /** The sentences of `preprocess_conllu`, computed as the source does: the outer
      loop reads one block per round and stops when the line after a block's
      closing blank line is also blank, or the file has ended. */
  method SegmentSentences(lines: seq<string>) returns (sentences: seq<seq<string>>)
    ensures sentences == Sentences(lines)
    ensures forall i :: 0 <= i < |sentences| ==> |sentences[i]| > 0
    ensures forall i, x :: 0 <= i < |sentences| && x in sentences[i] ==> IsTokenLine(x)
  {
    sentences := [];
    var next := 0;
    var line := ReadLine(lines, next);
    var at := next;  // the index of `line`
    next := next + 1;
    while !Blank(line)
      invariant next == at + 1 && at <= |lines| + 1
      invariant line == ReadLine(lines, at)
      invariant sentences + SentencesFrom(lines, at) == Sentences(lines)
      decreases |lines| + 1 - at
    {
      var conllLines;
      conllLines, next := ReadBlock(lines, at);
      NextBlock(lines, at);
      if |conllLines| == 0 {
        line := ReadLine(lines, next);
        at := next;
        next := next + 1;
        continue;
      }
      assert sentences + ([conllLines] + SentencesFrom(lines, next)) == (sentences + [conllLines]) + SentencesFrom(lines, next);
      sentences := sentences + [conllLines];
      line := ReadLine(lines, next);
      at := next;
      next := next + 1;
    }
    Finished(lines, at);
    assert sentences + [] == sentences;
    SentencesAreTokenLines(lines, 0);
  }

  /** One round of the outer loop: the sentences from a non-blank line are the
      block's token lines, if any, then the sentences after the line that ends
      the block. */
  lemma NextBlock(lines: seq<string>, next: nat)
    requires next < |lines| && !Blank(lines[next])
    ensures var k := BlockEnd(lines, next);
      |TokenLinesIn(lines, next, k)| == 0 ==> SentencesFrom(lines, next) == SentencesFrom(lines, k + 1)
    ensures var k := BlockEnd(lines, next);
      |TokenLinesIn(lines, next, k)| > 0 ==>
      SentencesFrom(lines, next) == [TokenLinesIn(lines, next, k)] + SentencesFrom(lines, k + 1)
  {
    var k := BlockEnd(lines, next);
    var block := TokenLinesIn(lines, next, k);
    var later := SentencesFrom(lines, k + 1);
    assert SentencesFrom(lines, next) == Sentence(block) + later by {
      Unfold(lines, next);
    }
    if |block| == 0 {
      assert Sentence(block) + later == later;
    }
  }

  /** Every sentence read is non-empty and made of token lines only. */
  lemma {:induction false} SentencesAreTokenLines(lines: seq<string>, next: nat)
    ensures forall i :: 0 <= i < |SentencesFrom(lines, next)| ==> |SentencesFrom(lines, next)[i]| > 0
    ensures forall i, x :: 0 <= i < |SentencesFrom(lines, next)| && x in SentencesFrom(lines, next)[i] ==> IsTokenLine(x)
    decreases |lines| + 1 - next
  {
    if next < |lines| && !Blank(lines[next]) {
      var k := BlockEnd(lines, next);
      var block := TokenLinesIn(lines, next, k);
      var rest := SentencesFrom(lines, k + 1);
      var all := SentencesFrom(lines, next);
      assert all == Sentence(block) + rest by {
        Unfold(lines, next);
      }
      TokenLinesExact(lines, next, k);
      if k < |lines| {
        SentencesAreTokenLines(lines, k + 1);
      } else {
        assert |rest| == 0;
      }
      forall i | 0 <= i < |all|
        ensures |all[i]| > 0 && forall x :: x in all[i] ==> IsTokenLine(x)
      {
        if i < |Sentence(block)| {
          assert all[i] == block;
        } else {
          assert all[i] == rest[i - |Sentence(block)|];
        }
      }
    }
  }

  /** At a blank line (or the end of the file) there is nothing more to read. */
  lemma Finished(lines: seq<string>, next: nat)
    requires Blank(ReadLine(lines, next))
    ensures SentencesFrom(lines, next) == []
  {
    assert |SentencesFrom(lines, next)| == 0;
  }

  /** The block ends at the first blank line. */
  lemma {:induction false} BlockEndIs(lines: seq<string>, start: nat, k: nat)
    requires start <= k <= |lines|
    requires forall j :: start <= j < k ==> !Blank(lines[j])
    requires k < |lines| ==> Blank(lines[k])
    ensures BlockEnd(lines, start) == k
    decreases k - start
  {
    if start < k {
      BlockEndIs(lines, start + 1, k);
    }
  }

  /** Collecting token lines distributes over adjacent ranges. */
  lemma {:induction false} TokenLinesSplit(lines: seq<string>, lo: nat, mid: nat, hi: nat)
    requires lo <= mid <= hi <= |lines|
    ensures TokenLinesIn(lines, lo, hi) == TokenLinesIn(lines, lo, mid) + TokenLinesIn(lines, mid, hi)
    decreases hi - mid
  {
    if mid < hi {
      TokenLinesSplit(lines, lo, mid, hi - 1);
    }
  }

  /** Two ranges holding the same lines hold the same token lines. */
  lemma {:induction false} TokenLinesAgree(a: seq<string>, alo: nat, b: seq<string>, blo: nat, n: nat)
    requires alo + n <= |a| && blo + n <= |b|
    requires forall j :: alo <= j < alo + n ==> a[j] == b[j - alo + blo]
    ensures TokenLinesIn(a, alo, alo + n) == TokenLinesIn(b, blo, blo + n)
  {
    if n > 0 {
      TokenLinesAgree(a, alo, b, blo, n - 1);
      assert a[alo + n - 1] == b[(alo + n - 1) - alo + blo];
    }
  }

  /** Exactly the token lines of the range are collected: each collected line is
      a token line of the range, and each token line of the range is collected. */
  lemma {:induction false} TokenLinesExact(lines: seq<string>, lo: nat, hi: nat)
    requires lo <= hi <= |lines|
    ensures forall x :: x in TokenLinesIn(lines, lo, hi) ==> IsTokenLine(x) && x in lines[lo..hi]
    ensures forall j :: lo <= j < hi && IsTokenLine(lines[j]) ==> lines[j] in TokenLinesIn(lines, lo, hi)
    decreases hi - lo
  {
    if lo < hi {
      TokenLinesExact(lines, lo, hi - 1);
      assert lines[lo..hi] == lines[lo..hi - 1] + [lines[hi - 1]];
    }
  }

  /** A token line is never blank: it starts with a digit. */
  lemma TokenLineNotBlank(line: string)
    ensures IsTokenLine(line) ==> !Blank(line)
  {
    if IsTokenLine(line) {
      assert '0' <= line[0] <= '9';
    }
  }

  /** Reading stops at the first pair of consecutive blank lines: nothing after it
      is read. */
  lemma {:induction false} SentencesStopAtDoubleBlank(lines: seq<string>, k: nat, next: nat)
    requires k + 1 < |lines| && next <= k
    requires Blank(lines[k]) && Blank(lines[k + 1])
    ensures SentencesFrom(lines, next) == SentencesFrom(lines[..k], next)
    decreases |lines| - next
  {
    if next < k && !Blank(lines[next]) {
      StopStep(lines, k, next);
      var e := BlockEnd(lines, next);
      if e < k {
        SentencesStopAtDoubleBlank(lines, k, e + 1);
      } else {
        NothingToRead(lines, k, k + 1);
      }
    } else {
      NothingToRead(lines, k, next);
    }
  }

  /** Where reading finds nothing, in the file and in the file cut at the blank
      line k, both give no sentence. */
  lemma NothingToRead(lines: seq<string>, k: nat, next: nat)
    requires k + 1 < |lines| && Blank(lines[k]) && Blank(lines[k + 1])
    requires next <= k + 1 && (next < k ==> Blank(lines[next]))
    ensures SentencesFrom(lines, next) == SentencesFrom(lines[..k], next)
  {
    if next < k {
      assert lines[..k][next] == lines[next];
    }
    assert |SentencesFrom(lines, next)| == 0 && |SentencesFrom(lines[..k], next)| == 0;
  }

  /** One block read before the blank line at k: the file and the file cut at k
      give the same sentence for it. */
  lemma StopStep(lines: seq<string>, k: nat, next: nat)
    requires next < k < |lines| && Blank(lines[k]) && !Blank(lines[next])
    ensures var p, e := lines[..k], BlockEnd(lines, next);
      && e <= k
      && SentencesFrom(lines, next) == Sentence(TokenLinesIn(lines, next, e)) + SentencesFrom(lines, e + 1)
      && SentencesFrom(p, next) == Sentence(TokenLinesIn(lines, next, e)) + SentencesFrom(p, e + 1)
  {
    PrefixBlock(lines, k, next);
    Unfold(lines, next);
    Unfold(lines[..k], next);
  }

  /** A block that starts before a blank line at k is the same block in the
      file cut at k. */
  lemma PrefixBlock(lines: seq<string>, k: nat, next: nat)
    requires next < k < |lines| && Blank(lines[k]) && !Blank(lines[next])
    ensures var p, e := lines[..k], BlockEnd(lines, next);
      && e <= k && next < |p| && !Blank(p[next])
      && BlockEnd(p, next) == e && TokenLinesIn(p, next, e) == TokenLinesIn(lines, next, e)
  {
    var p, e := lines[..k], BlockEnd(lines, next);
    assert p[next] == lines[next];
    BlockEndSpec(lines, next);
    forall y | next <= y < e ensures !Blank(p[y]) {
      assert p[y] == lines[y];
    }
    if e < k {
      assert p[e] == lines[e];
    }
    BlockEndIs(p, next, e);
    forall x | next <= x < next + (e - next) ensures p[x] == lines[x - next + next] {
    }
    TokenLinesAgree(p, next, lines, next, e - next);
  }

  /** Lines i and i + 1 are both blank. */
  predicate BlankPairAt(lines: seq<string>, i: nat)
    requires i + 1 < |lines|
  {
    Blank(lines[i]) && Blank(lines[i + 1])
  }

  /** No two consecutive lines are blank. */
  predicate NoBlankPair(lines: seq<string>)
  {
    forall i :: 0 <= i < |lines| - 1 ==> !BlankPairAt(lines, i)
  }

  /** A file with no leading blank line and no two consecutive blank lines. */
  predicate WellFormed(lines: seq<string>)
  {
    (|lines| > 0 ==> !Blank(lines[0])) && NoBlankPair(lines)
  }


  /** From a cursor at a non-blank line (or the end) of a file with no two
      consecutive blank lines, every remaining token line is read. */
  lemma {:induction false} ReadsAllTokenLines(lines: seq<string>, next: nat)
    requires next <= |lines|
    requires next < |lines| ==> !Blank(lines[next])
    requires NoBlankPair(lines)
    ensures Concat(SentencesFrom(lines, next)) == TokenLinesIn(lines, next, |lines|)
    decreases |lines| - next
  {
    if next < |lines| {
      var k := BlockEnd(lines, next);
      ConcatBlock(lines, next);
      if k < |lines| {
        AfterBlank(lines, k);
        ReadsAllTokenLines(lines, k + 1);
        SkipBlankLine(lines, next, k);
      } else {
        assert TokenLinesIn(lines, next, k) + [] == TokenLinesIn(lines, next, k);
      }
    }
  }

  /** One block's contribution to the concatenated sentences: its token lines,
      in front of what the following blocks contribute. */
  lemma ConcatBlock(lines: seq<string>, next: nat)
    requires next < |lines| && !Blank(lines[next])
    ensures var k := BlockEnd(lines, next);
      && Concat(SentencesFrom(lines, next)) == TokenLinesIn(lines, next, k) + Concat(SentencesFrom(lines, k + 1))
      && (k < |lines| ==> Blank(lines[k]))
      && (k == |lines| ==> |Concat(SentencesFrom(lines, k + 1))| == 0)
  {
    Unfold(lines, next);
    BlockEndSpec(lines, next);
    ConcatSentence(TokenLinesIn(lines, next, BlockEnd(lines, next)), SentencesFrom(lines, BlockEnd(lines, next) + 1));
  }

  /** In a file without two blank lines in a row, the line after a blank line is not blank. */
  lemma AfterBlank(lines: seq<string>, k: nat)
    requires NoBlankPair(lines)
    requires k < |lines| && Blank(lines[k])
    ensures k + 1 < |lines| ==> !Blank(lines[k + 1])
  {
    if k + 1 < |lines| {
      assert !BlankPairAt(lines, k);
    }
  }

  /** A blank line holds no token line: the token lines around it are those
      before it and those after it. */
  lemma SkipBlankLine(lines: seq<string>, lo: nat, k: nat)
    requires lo <= k < |lines| && Blank(lines[k])
    ensures TokenLinesIn(lines, lo, |lines|) == TokenLinesIn(lines, lo, k) + TokenLinesIn(lines, k + 1, |lines|)
  {
    assert |TokenLinesIn(lines, k, k + 1)| == 0 by {
      TokenLineNotBlank(lines[k]);
    }
    TokenLinesSplit(lines, lo, k, |lines|);
    TokenLinesSplit(lines, k, k + 1, |lines|);
  }

  /** A block's contribution is its token lines, in front. */
  lemma ConcatSentence(block: seq<string>, rest: seq<seq<string>>)
    ensures Concat(Sentence(block) + rest) == block + Concat(rest)
  {
    if |block| > 0 {
      assert ([block] + rest)[1..] == rest;
    } else {
      assert Sentence(block) + rest == rest;
    }
  }

  /** In a well-formed file every token line is read, each exactly once and in
      file order: the sentences, put end to end, are the file's token lines. */
  lemma WellFormedSentences(lines: seq<string>)
    requires WellFormed(lines)
    ensures Concat(Sentences(lines)) == TokenLines(lines)
  {
    ReadsAllTokenLines(lines, 0);
  }
}
