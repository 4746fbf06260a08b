# morph2vec preprocessing, modelled in Dafny

This project models the text-handling core of `morph2vec/data/preprocess.py`:

- `token_format` serialises a token into one flat string. It emits the items
  `w:<word>`, `l:<lemma>`, one `t:<tag>` per morphological tag and then a
  synthetic `t:POS=<pos>`, one `m:<morpheme>` per morpheme and one `n:<ngram>`
  per n-gram, all joined by the reserved delimiter `~`. It then collapses every
  run of `~` into a single `~` and drops one trailing `~`.
  (modules `Delimiters`, `Format`)
- `parse` serialises the tokens of one sentence and joins them with single
  spaces. `parse_eval` does the same for a word pair and appends the
  similarity. (module `Parse`)
- The sentence segmentation loop of `preprocess_conllu` reads lines with a
  `readline` cursor and collects blocks of lines up to a blank line. Within a
  block it keeps only the lines whose first tab-separated field is made of
  digits. It skips blocks that keep no line, and it stops when the line after a
  block's closing blank line is also blank, or the file has ended. It is
  modelled as an imperative method over a sequence of lines (`Segment.SegmentSentences`, `Segment.ReadBlock`).
  The method is proved equal to a recursive reading function, and the
  guarantees are proved about that function. (module `Segment`)
- The eval-line split `w1, w2, sim = line.replace(',', ' ').split()`. It covers
  Python's two unpacking errors: too few values and too many.
  (module `EvalLine`)

Supporting modules:

- `Strings`: Python's `sep.join` and `s.split(sep)` with their round trips,
  plus ASCII whitespace.
- `Tokens`: the `Token` record. The token factory's two constructors
  (`from_conll_line` and `from_word`) are function-typed parameters
  (`TokenSource`).

Three behaviours of the code are easy to misread, and the model follows the code:

- Reading does not continue over every blank line. Two blank lines in a row,
  or a blank first line, end reading altogether; sentences separated by a
  single blank line are all read (`Segment.SentencesStopAtDoubleBlank`,
  `Segment.Finished`).
- A malformed eval line does not raise a dedicated input error. It fails in
  tuple unpacking with Python's "not enough values to unpack (expected 3, got n)"
  or "too many values to unpack (expected 3)"
  (`EvalLine.UnpackError`).
- The delimiter clean-up is a pass over the whole joined string. It therefore
  also collapses runs of `~` that come from inside field values
  (`Format.EmptyGroupsVanish` holds for every token; the field-by-field read-back
  needs fields free of `~`).

## Model

| member | source | states |
|---|---|---|
| Delimiters.CollapseRuns | morph2vec/data/preprocess.py:23 | the substitution of `~+` by `~` leaves no doubled delimiter, never lengthens the string, keeps the first character and introduces no new character |
| Delimiters.CollapseMatchesRunHeads | morph2vec/data/preprocess.py:23 | the left-to-right collapse equals an independent right-to-left reading that keeps exactly the first delimiter of every run |
| Delimiters.CollapseSnoc | morph2vec/data/preprocess.py:23 | appending a character appends it to the collapsed string, unless it continues a run of delimiters |
| Delimiters.CollapseKeepsLast | morph2vec/data/preprocess.py:23 | the last character of the input is the last character of the result |
| Delimiters.CollapseFixpoint | morph2vec/data/preprocess.py:23 | the collapse leaves a string unchanged if and only if it holds no doubled delimiter |
| Delimiters.CollapseIdempotent | morph2vec/data/preprocess.py:23 | collapsing twice is the same as collapsing once |
| Delimiters.CollapseKeepsText | morph2vec/data/preprocess.py:23 | with delimiters removed, input and output are the same: no other character is changed, dropped or reordered |
| Delimiters.CollapseDoubled | morph2vec/data/preprocess.py:23 | a doubled delimiter anywhere in the string collapses exactly like a single one |
| Delimiters.DropTrailingDelimiter | morph2vec/data/preprocess.py:24-25 | `res[:-1]` when `res[-1]` is the delimiter; no contract of its own, see CleanUp |
| Delimiters.CleanUp | morph2vec/data/preprocess.py:23-25 | after collapsing and dropping one trailing delimiter, the string has neither a doubled nor a trailing delimiter, and its first two characters are kept when neither is a delimiter |
| Delimiters.CleanUpTrailing | morph2vec/data/preprocess.py:23-25 | a trailing delimiter, as an empty last group leaves, makes no difference to the cleaned string |
| Delimiters.CleanUpDoubled | morph2vec/data/preprocess.py:23-25 | a doubled delimiter, as an empty middle group leaves, makes no difference to the cleaned string |
| Delimiters.CleanUpIdentity | morph2vec/data/preprocess.py:23-25 | a string that already has no doubled and no trailing delimiter passes through unchanged |
| Strings.SplitJoin | morph2vec/data/preprocess.py:36 | splitting at the separator undoes joining with it, for parts that do not contain the separator |
| Strings.JoinSplit | morph2vec/data/preprocess.py:52 | joining the pieces of `s.split(sep)` with `sep` gives back `s` |
| Strings.JoinAppend | morph2vec/data/preprocess.py:15-21 | joining two non-empty lists of parts is joining each, one separator apart |
| Strings.Join | morph2vec/data/preprocess.py:15-21 | `sep.join(parts)`; no contract of its own, see SplitJoin, JoinSplit and JoinAppend |
| Strings.Split | morph2vec/data/preprocess.py:52 | `s.split(sep)`: at least one piece, no piece holds the separator, and the first piece is a prefix of s |
| Strings.Blank | morph2vec/data/preprocess.py:49-51 | `line.strip() == ''`, for ASCII whitespace; no contract of its own, see TokenLineNotBlank and BlockEndSpec |
| Format.TokenFormat | morph2vec/data/preprocess.py:14-26 | the output begins with `w:` and holds neither a doubled nor a trailing delimiter |
| Format.JoinIsClean | morph2vec/data/preprocess.py:15-25 | joining non-empty, delimiter-free items leaves nothing for the clean-up to change |
| Format.EmptyGroupsVanish | morph2vec/data/preprocess.py:19-25 | for every token, the output equals that of joining only the non-empty groups: an empty morpheme or n-gram group leaves no trace |
| Format.JoinItems | morph2vec/data/preprocess.py:15-21 | joining the non-empty groups is joining the individual items in emission order |
| Format.FormatIsJoinOfItems | morph2vec/data/preprocess.py:14-26 | for a token whose fields avoid the delimiter, the output is exactly its items in order, one delimiter apart |
| Format.FormatSplitsIntoItems | morph2vec/data/preprocess.py:14-26 | round trip: splitting the output at the delimiter recovers the items |
| Format.ItemsLayout | morph2vec/data/preprocess.py:15-21 | the items are `w:`, `l:`, the tags in input order, `t:POS=<pos>`, the morphemes in order, then the n-grams in order, with these positions and count |
| Format.FormatFields | morph2vec/data/preprocess.py:15-21 | the same layout, read back from the output by splitting at the delimiter |
| Format.ItemsHaveOnePos | morph2vec/data/preprocess.py:18 | when no morphological tag itself starts with `POS=`, exactly one item starts with `t:POS=`, and it is the last tag item, even when there are no morphological tags |
| Format.SinglePosItem | morph2vec/data/preprocess.py:18 | for a token whose fields avoid the delimiter and whose tags do not start with `POS=`, exactly one field of the output, split at the delimiter, starts with `t:POS=`: the one after the morphological tags |
| Format.FormatAvoids | morph2vec/data/preprocess.py:14-26 | a character absent from all fields and from the item markup is absent from the output |
| Parse.ParseFields | morph2vec/data/preprocess.py:35-36 | an empty sentence gives the empty string; otherwise splitting the output at spaces gives one field per input line, in line order, each the serialised token of that line |
| Parse.ParseAppend | morph2vec/data/preprocess.py:35-36 | one more line appends its serialised token, after a space unless it is the first |
| Parse.Parse | morph2vec/data/preprocess.py:35-36 | the serialised tokens of the lines joined by single spaces; no contract of its own, see ParseFields and ParseAppend |
| Parse.ParseEval | morph2vec/data/preprocess.py:76-78 | the two serialised words and the similarity, separated by single spaces; no contract of its own, see ParseEvalFields |
| Parse.ParseEvalFields | morph2vec/data/preprocess.py:76-78 | the output line splits at spaces into exactly the first token's serialisation, the second's, and the similarity verbatim |
| Segment.FirstField | morph2vec/data/preprocess.py:52 | the first field is a tab-free prefix of the line, ending at the first tab or the end of the line |
| Segment.FirstFieldIsSplit | morph2vec/data/preprocess.py:52 | that prefix is `line.split('\t')[0]` |
| Segment.TokenLineTest | morph2vec/data/preprocess.py:52 | the index-based token-line test holds exactly when `line.split('\t')[0].isdigit()` does |
| Segment.IsTokenLine | morph2vec/data/preprocess.py:52 | the token-line test, read up to the first tab; no contract of its own, see TokenLineTest |
| Segment.ReadLine | morph2vec/data/preprocess.py:48 | `f.readline()` at the cursor, "" at the end of the file; no contract of its own, see ReadBlock and SegmentSentences |
| Segment.TokenLineNotBlank | morph2vec/data/preprocess.py:51-52 | a token line is never blank, so it never ends a block |
| Segment.BlockEndSpec | morph2vec/data/preprocess.py:51-54 | a block is the run of non-blank lines from its start, ended by a blank line or the end of the file |
| Segment.BlockEndIs | morph2vec/data/preprocess.py:51-54 | the first blank line after a run of non-blank lines is where the block ends |
| Segment.TokenLinesExact | morph2vec/data/preprocess.py:52-53 | the lines collected from a range are all token lines of that range, and every token line of the range is collected |
| Segment.Sentence | morph2vec/data/preprocess.py:55-59 | a block adds one sentence when it collected a line and none otherwise |
| Segment.SentencesFrom | morph2vec/data/preprocess.py:49-60 | the reading function from a cursor; no contract of its own, see NextBlock, SentencesAreTokenLines, Finished, SentencesStopAtDoubleBlank and ReadsAllTokenLines |
| Segment.Sentences | morph2vec/data/preprocess.py:46-60 | the sentences of the whole file, read from its first line; no contract of its own, see SegmentSentences and WellFormedSentences |
| Segment.ReadBlock | morph2vec/data/preprocess.py:50-54 | the inner loop returns the token lines of the block, in order, and leaves the cursor after the line that ended the block |
| Segment.SegmentSentences | morph2vec/data/preprocess.py:46-60 | the outer loop returns the sentences of the reading function; every sentence is non-empty and holds token lines only |
| Segment.NextBlock | morph2vec/data/preprocess.py:55-60 | one round of the outer loop: a block without token lines adds no sentence, otherwise it adds its token lines as the next sentence |
| Segment.SentencesAreTokenLines | morph2vec/data/preprocess.py:49-59 | every sentence read is non-empty and made of token lines only |
| Segment.Finished | morph2vec/data/preprocess.py:48-49 | at a blank line or the end of the file nothing more is read (no sentence); a blank first line gives no sentence at all |
| Segment.SentencesStopAtDoubleBlank | morph2vec/data/preprocess.py:49-60 | two consecutive blank lines end reading: the lines after them do not change the sentences |
| Segment.ReadsAllTokenLines | morph2vec/data/preprocess.py:46-60 | without two consecutive blank lines, the sentences from a non-blank line, put end to end, are exactly the token lines from there on, in file order |
| Segment.WellFormedSentences | morph2vec/data/preprocess.py:46-60 | in a file with no leading blank line and no two consecutive blank lines, the sentences put end to end are the file's token lines, each once and in file order |
| EvalLine.ReplaceCommas | morph2vec/data/preprocess.py:90 | `replace(',', ' ')` keeps the length, changes each comma to a space and nothing else, and leaves no comma |
| EvalLine.ReplaceCommasAppend | morph2vec/data/preprocess.py:90 | the replacement distributes over concatenation |
| EvalLine.Words | morph2vec/data/preprocess.py:90 | `str.split()` yields only non-empty pieces without whitespace, and a line that starts with a non-whitespace character starts its first piece |
| EvalLine.WordsKeepText | morph2vec/data/preprocess.py:90 | splitting loses only whitespace: the pieces put end to end are the line's other characters in order |
| EvalLine.WordsSkipBlank | morph2vec/data/preprocess.py:90 | leading whitespace does not change the pieces |
| EvalLine.WordsCons | morph2vec/data/preprocess.py:90 | a word followed by whitespace is the first piece, and the rest is split on its own |
| EvalLine.WordsSingle | morph2vec/data/preprocess.py:90 | a non-empty word without whitespace is one piece |
| EvalLine.WordsOfSpaced | morph2vec/data/preprocess.py:90 | round trip: words separated by one repeated whitespace string, with trailing whitespace, split back into exactly those words |
| EvalLine.SplitEvalLine | morph2vec/data/preprocess.py:90 | an accepted line yields three non-empty fields without whitespace or commas |
| EvalLine.LeadingSeparator | morph2vec/data/preprocess.py:90 | spaces and commas before the first field change nothing |
| EvalLine.EvalLineFieldCount | morph2vec/data/preprocess.py:90 | n fields, with spaces or commas before, between and after them, are accepted exactly when n is 3; fewer fail with Python's "not enough values to unpack (expected 3, got n)", more with "too many values to unpack (expected 3)" |
| EvalLine.EvalLineRoundTrip | morph2vec/data/preprocess.py:90 | a line made of three fields with any space-or-comma separators before, between and after them yields exactly those three fields |
| EvalLine.EvalLineKeepsText | morph2vec/data/preprocess.py:90 | the three accepted fields, put end to end, are the line's characters other than whitespace and commas, in order |
| EvalLine.EvalOutput | morph2vec/data/preprocess.py:90-92 | the `parse_eval` line for an accepted line, or its unpacking error; no contract of its own, see EvalOutputFields |
| EvalLine.EvalOutputFields | morph2vec/data/preprocess.py:90-92 | an accepted line produces the output line whose space-separated fields are the two words' serialised tokens and the similarity |

## Left out

- The token factory (`TokenFactory.from_conll_line`, `TokenFactory.from_word`, n-gram extraction): morph2vec/entities/tokens.py is not part of this model. Its constructors are function parameters of type `string -> Token`, and its own failures are not modelled.
- `str(...)` on tags, morphemes, n-grams and the similarity: every field is already modelled as a string, and the similarity read at line 90 is a string.
- Model loading (`Word2Morph.load_model`, `Sentence2Tags.load_model`, lines 44 and 85-86): foreign code that only supplies the token factory.
- File I/O, `print`, `tqdm` and the `fire` command-line shim (lines 42-43, 47, 62-67, 83-84, 88-89, 93, 96-97). The file is a sequence of lines as `readline` returns them, trailing newline included, and the end of the file reads as "". The output loops at lines 62-67 and 88-93 only apply `Parse.Parse` or `EvalLine.EvalOutput` to each unit and write the results. An `Err` from `EvalLine.EvalOutput` is a `ValueError` that ends `preprocess_eval`; the lines already written stay in the output file.
- Unicode: `isdigit` is modelled for ASCII digits only, and `strip()` and `split()` for ASCII whitespace only (space, `\t` to `\r`, `\x1c` to `\x1f`).
- Format.FormatFields, Format.FormatSplitsIntoItems and Format.FormatIsJoinOfItems: stated only for tokens whose fields do not contain `~`. Other tokens have `~` runs inside their fields collapsed as well, and `Format.EmptyGroupsVanish` still describes them.
- Format.ItemsHaveOnePos and Format.SinglePosItem: stated only when no morphological tag itself starts with `POS=`. A tag `POS=X` produces a second item, `t:POS=X`, beside the synthetic `t:POS=<pos>`. SinglePosItem is further stated only for tokens whose fields do not contain `~`: a word such as `x~t:POS=y` splits into a second field that starts with `t:POS=`. `Format.ItemsLayout` places the one synthetic POS item for every token.
- Parse.ParseFields, Parse.ParseEvalFields and EvalLine.EvalOutputFields: the read-back by splitting at spaces is stated only for tokens whose fields hold no space.
- Segment.WellFormedSentences and Segment.ReadsAllTokenLines: stated for files without a leading blank line and without two consecutive blank lines. For other files, `Segment.SentencesStopAtDoubleBlank` and `Segment.Finished` say where reading stops.
- EvalLine.WordsOfSpaced: stated for words separated by one repeated whitespace string; other spacings follow word by word from `EvalLine.WordsCons`.
- EvalLine.EvalLineFieldCount: stated for lines whose fields are separated by one repeated separator string. `EvalLine.SplitEvalLine` covers all lines, but only for the accepted case.
