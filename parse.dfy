/** `parse` (one sentence of CoNLL lines to one output line) and `parse_eval`
    (one word pair with its similarity to one output line). */
module Parse {
  import opened Strings
  import opened Tokens
  import opened Format

  /** The serialised token of each line, in line order. */
  function FormatLines(conllLines: seq<string>, fromConllLine: TokenSource): seq<string>
  {
    seq(|conllLines|, i requires 0 <= i < |conllLines| => TokenFormat(fromConllLine(conllLines[i])))
  }

  /** The serialised tokens of one sentence, separated by single spaces. */
  function Parse(conllLines: seq<string>, fromConllLine: TokenSource): string
  {
    Join(' ', FormatLines(conllLines, fromConllLine))
  }

  /** The line for an empty sentence is empty; otherwise, when no token field holds
      a space, splitting the line at spaces gives back one field per input line, in
      order, each the serialised token of that line. */
  lemma ParseFields(conllLines: seq<string>, fromConllLine: TokenSource)
    requires forall i :: 0 <= i < |conllLines| ==> Avoids(fromConllLine(conllLines[i]), ' ')
    ensures conllLines == [] ==> Parse(conllLines, fromConllLine) == ""
    ensures conllLines != [] ==>
      var f := Split(Parse(conllLines, fromConllLine), ' ');
      |f| == |conllLines| && forall i :: 0 <= i < |f| ==> f[i] == TokenFormat(fromConllLine(conllLines[i]))
  {
    var parts := FormatLines(conllLines, fromConllLine);
    forall i | 0 <= i < |parts| ensures ' ' !in parts[i] {
      FormatAvoids(fromConllLine(conllLines[i]), ' ');
    }
    if conllLines != [] {
      SplitJoin(parts, ' ');
    }
  }

  /** One more line in the sentence appends its serialised token, after a space
      unless it is the first. */
  lemma ParseAppend(conllLines: seq<string>, line: string, fromConllLine: TokenSource)
    ensures Parse(conllLines + [line], fromConllLine)
         == if conllLines == [] then TokenFormat(fromConllLine(line))
            else Parse(conllLines, fromConllLine) + " " + TokenFormat(fromConllLine(line))
  {
    var parts := FormatLines(conllLines, fromConllLine);
    var tok := TokenFormat(fromConllLine(line));
    assert FormatLines(conllLines + [line], fromConllLine) == parts + [tok];
    if conllLines != [] {
      JoinAppend(' ', parts, [tok]);
    }
  }

  /** The two serialised words and the similarity, separated by single spaces;
      `from_word` is the factory's bare-word constructor. */
  function ParseEval(w1: string, w2: string, sim: string, fromWord: TokenSource): string
  {
    TokenFormat(fromWord(w1)) + " " + TokenFormat(fromWord(w2)) + " " + sim
  }

  /** The output line is exactly three space-separated fields, in order: the
      first word's token, the second word's token, the similarity verbatim
      (when no token field and not the similarity holds a space). */
  lemma ParseEvalFields(w1: string, w2: string, sim: string, fromWord: TokenSource)
    requires Avoids(fromWord(w1), ' ') && Avoids(fromWord(w2), ' ') && ' ' !in sim
    ensures Split(ParseEval(w1, w2, sim, fromWord), ' ')
         == [TokenFormat(fromWord(w1)), TokenFormat(fromWord(w2)), sim]
  {
    var a, b := TokenFormat(fromWord(w1)), TokenFormat(fromWord(w2));
    FormatAvoids(fromWord(w1), ' ');
    FormatAvoids(fromWord(w2), ' ');
    var parts := [a, b, sim];
    assert Join(' ', parts[1..]) == b + " " + sim by {
      assert parts[1..][1..] == [sim];
    }
    assert Join(' ', parts) == ParseEval(w1, w2, sim, fromWord);
    SplitJoin(parts, ' ');
  }
}
