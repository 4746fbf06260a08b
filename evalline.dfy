/** The split of one line of the word-similarity file in `preprocess_eval`:
    commas become spaces, the line is cut at runs of whitespace, and the pieces
    are unpacked into the two words and the similarity. */
module EvalLine {
  import opened Strings
  import opened Tokens
  import opened Format
  import opened Parse

  /** `line.replace(',', ' ')` */
  function ReplaceCommas(s: string): (r: string)
    ensures |r| == |s|
    ensures forall i :: 0 <= i < |s| ==> r[i] == if s[i] == ',' then ' ' else s[i]
    ensures ',' !in r
  {
    if |s| == 0 then ""
    else [if s[0] == ',' then ' ' else s[0]] + ReplaceCommas(s[1..])
  }

  /** No character of s is whitespace. */
  predicate Solid(s: string)
  {
    forall i :: 0 <= i < |s| ==> !IsSpace(s[i])
  }

  /** `s.split()` with no separator: the maximal runs of non-whitespace, with
      leading, trailing and repeated whitespace producing no empty piece. */
  function Words(s: string): (r: seq<string>)
    ensures forall i :: 0 <= i < |r| ==> |r[i]| > 0 && Solid(r[i])
    ensures |s| > 0 && !IsSpace(s[0]) ==> |r| > 0 && r[0][0] == s[0]
  {
    if |s| == 0 then []
    else
      var rest := Words(s[1..]);
      if IsSpace(s[0]) then rest
      else if |s| > 1 && !IsSpace(s[1]) then [[s[0]] + rest[0]] + rest[1..]
      else [[s[0]]] + rest
  }

  /** The characters of s that are not whitespace, in order. */
  function Text(s: string): string
  {
    if |s| == 0 then "" else (if IsSpace(s[0]) then "" else [s[0]]) + Text(s[1..])
  }

  /** Splitting loses only whitespace: the pieces put end to end are the line's
      other characters, in order. */
  lemma {:induction false} WordsKeepText(s: string)
    ensures Concat(Words(s)) == Text(s)
  {
    if |s| > 0 {
      var rest := Words(s[1..]);
      WordsKeepText(s[1..]);
      if !IsSpace(s[0]) {
        if |s| > 1 && !IsSpace(s[1]) {
          var r := [[s[0]] + rest[0]] + rest[1..];
          assert r[1..] == rest[1..];
          assert Concat(rest) == rest[0] + Concat(rest[1..]);
        } else {
          assert ([[s[0]]] + rest)[1..] == rest;
        }
      }
    }
  }

  /** Whitespace in front of a line changes nothing. */
  lemma {:induction false} WordsSkipBlank(pad: string, s: string)
    requires Blank(pad)
    ensures Words(pad + s) == Words(s)
  {
    if |pad| > 0 {
      assert (pad + s)[1..] == pad[1..] + s;
      WordsSkipBlank(pad[1..], s);
    } else {
      assert pad + s == s;
    }
  }

  /** A solid word in front of whitespace-led text is one piece of its own. */
  lemma {:induction false} WordsCons(w: string, sep: string, s: string)
    requires |w| > 0 && Solid(w)
    requires |sep| > 0 && Blank(sep)
    ensures Words(w + sep + s) == [w] + Words(s)
  {
    var all := w + sep + s;
    if |w| == 1 {
      assert all[1..] == sep + s;
      WordsSkipBlank(sep, s);
      assert IsSpace(all[1]);
      assert [all[0]] == w;
    } else {
      assert all[1..] == w[1..] + sep + s;
      WordsCons(w[1..], sep, s);
      assert !IsSpace(all[1]) && all[1] == w[1];
      assert [w[0]] + w[1..] == w;
    }
  }

  /** A solid word followed only by whitespace is one piece. */
  lemma WordsPadded(w: string, pad: string)
    requires |w| > 0 && Solid(w) && Blank(pad)
    ensures Words(w + pad) == [w]
  {
    if |pad| == 0 {
      WordsSingle(w);
      assert w + pad == w;
    } else {
      WordsCons(w, pad, "");
      assert w + pad + "" == w + pad;
    }
  }

  /** A solid word alone is one piece. */
  lemma {:induction false} WordsSingle(w: string)
    requires |w| > 0 && Solid(w)
    ensures Words(w) == [w]
  {
    if |w| > 1 {
      assert Solid(w[1..]) by {
        forall i | 0 <= i < |w[1..]| ensures !IsSpace(w[1..][i]) {
          assert w[1..][i] == w[i + 1];
        }
      }
      WordsSingle(w[1..]);
      assert !IsSpace(w[1]);
      assert Words(w) == [[w[0]] + w[1..]];
      assert [w[0]] + w[1..] == w;
    } else {
      assert Words(w) == [[w[0]]] + Words(w[1..]);
      assert [w[0]] == w;
    }
  }

  /** The words joined by a separator string. */
  function Interleave(fields: seq<string>, sep: string): string
  {
    if |fields| == 0 then ""
    else if |fields| == 1 then fields[0]
    else fields[0] + sep + Interleave(fields[1..], sep)
  }

  /** Round trip: words written with whitespace between them and after them
      are read back, in order. */
  lemma {:induction false} WordsOfSpaced(fields: seq<string>, sep: string, pad: string)
    requires forall i :: 0 <= i < |fields| ==> |fields[i]| > 0 && Solid(fields[i])
    requires |sep| > 0 && Blank(sep) && Blank(pad)
    ensures Words(Interleave(fields, sep) + pad) == fields
  {
    if |fields| == 0 {
      WordsSkipBlank(pad, "");
      assert Interleave(fields, sep) + pad == pad + "";
    } else if |fields| == 1 {
      WordsPadded(fields[0], pad);
    } else {
      WordsOfSpaced(fields[1..], sep, pad);
      assert Interleave(fields, sep) + pad == fields[0] + sep + (Interleave(fields[1..], sep) + pad);
      WordsCons(fields[0], sep, Interleave(fields[1..], sep) + pad);
      assert [fields[0]] + fields[1..] == fields;
    }
  }

  /** The two errors of `w1, w2, sim = ...` when the piece count is not three:
      Python's "not enough values to unpack" and "too many values to unpack". */
  datatype UnpackError = NotEnoughValues(got: nat) | TooManyValues

  datatype EvalRecord = EvalRecord(w1: string, w2: string, sim: string)

  datatype Result<T> = Ok(value: T) | Err(error: UnpackError)

  /** `w1, w2, sim = line.replace(',', ' ').split()` */
  function SplitEvalLine(line: string): (r: Result<EvalRecord>)
    ensures r.Ok? ==> Solid(r.value.w1) && Solid(r.value.w2) && Solid(r.value.sim)
    ensures r.Ok? ==> |r.value.w1| > 0 && |r.value.w2| > 0 && |r.value.sim| > 0
    ensures r.Ok? ==> ',' !in r.value.w1 && ',' !in r.value.w2 && ',' !in r.value.sim
  {
    var fields := Words(ReplaceCommas(line));
    WordsAvoid(ReplaceCommas(line), ',');
    if |fields| < 3 then Err(NotEnoughValues(|fields|))
    else if |fields| > 3 then Err(TooManyValues)
    else Ok(EvalRecord(fields[0], fields[1], fields[2]))
  }

  /** An accepted line loses only whitespace and commas: its three fields, put
      end to end, are the line's other characters in order. */
  lemma EvalLineKeepsText(line: string)
    ensures SplitEvalLine(line).Ok? ==>
      var rec := SplitEvalLine(line).value;
      rec.w1 + rec.w2 + rec.sim == Text(ReplaceCommas(line))
  {
    var fields := Words(ReplaceCommas(line));
    WordsKeepText(ReplaceCommas(line));
    if |fields| == 3 {
      assert fields[1..][1..] == fields[2..] && |fields[2..][1..]| == 0;
      assert Concat(fields[2..]) == fields[2] + "";
      assert Concat(fields) == fields[0] + (fields[1] + (fields[2] + ""));
    }
  }

  /** A character missing from the line is missing from every piece. */
  lemma {:induction false} WordsAvoid(s: string, c: char)
    requires c !in s
    ensures forall i :: 0 <= i < |Words(s)| ==> c !in Words(s)[i]
  {
    if |s| > 0 {
      assert c !in s[1..] by {
        forall i | 0 <= i < |s[1..]| ensures s[1..][i] != c {
          assert s[1..][i] == s[i + 1];
        }
      }
      WordsAvoid(s[1..], c);
      var rest := Words(s[1..]);
      if !IsSpace(s[0]) && |s| > 1 && !IsSpace(s[1]) {
        assert c !in [s[0]] + rest[0];
      }
    }
  }

  /** Characters that end up as whitespace once commas are replaced. */
  predicate Separator(s: string)
  {
    forall i :: 0 <= i < |s| ==> s[i] == ',' || IsSpace(s[i])
  }

  /** The replacement works character by character. */
  lemma {:induction false} ReplaceCommasAppend(a: string, b: string)
    ensures ReplaceCommas(a + b) == ReplaceCommas(a) + ReplaceCommas(b)
  {
    if |a| == 0 {
      assert a + b == b;
    } else {
      assert (a + b)[1..] == a[1..] + b;
      ReplaceCommasAppend(a[1..], b);
    }
  }

  /** Separators become whitespace; words without commas are unchanged. */
  lemma ReplaceCommasParts(sep: string, w: string)
    requires Separator(sep) && ',' !in w
    ensures Blank(ReplaceCommas(sep))
    ensures ReplaceCommas(w) == w
  {
  }

  /** Replacing commas in words interleaved with a separator replaces them in
      the separator only. */
  lemma {:induction false} ReplaceCommasInterleave(fields: seq<string>, sep: string)
    requires forall i :: 0 <= i < |fields| ==> ',' !in fields[i]
    ensures ReplaceCommas(Interleave(fields, sep)) == Interleave(fields, ReplaceCommas(sep))
  {
    if |fields| == 1 {
      ReplaceCommasParts("", fields[0]);
    } else if |fields| > 1 {
      ReplaceCommasInterleave(fields[1..], sep);
      ReplaceCommasAppend(fields[0] + sep, Interleave(fields[1..], sep));
      ReplaceCommasAppend(fields[0], sep);
      ReplaceCommasParts("", fields[0]);
    }
  }

  /** Separators before the first word are skipped: they change nothing. */
  lemma LeadingSeparator(lead: string, s: string)
    requires Separator(lead)
    ensures SplitEvalLine(lead + s) == SplitEvalLine(s)
  {
    ReplaceCommasAppend(lead, s);
    ReplaceCommasParts(lead, "");
    WordsSkipBlank(ReplaceCommas(lead), ReplaceCommas(s));
  }

  /** The outcome for every line made of comma-free words separated by commas
      and whitespace: exactly three words are unpacked in order; fewer fail with
      Python's "not enough values to unpack" (a blank line among them, with no
      word at all), more fail with "too many values to unpack". */
  lemma EvalLineFieldCount(fields: seq<string>, lead: string, sep: string, pad: string)
    requires forall i :: 0 <= i < |fields| ==> |fields[i]| > 0 && Solid(fields[i]) && ',' !in fields[i]
    requires Separator(lead) && |sep| > 0 && Separator(sep) && Separator(pad)
    ensures SplitEvalLine(lead + Interleave(fields, sep) + pad)
         == if |fields| < 3 then Err(NotEnoughValues(|fields|))
            else if |fields| > 3 then Err(TooManyValues)
            else Ok(EvalRecord(fields[0], fields[1], fields[2]))
  {
    var body := Interleave(fields, sep) + pad;
    assert lead + Interleave(fields, sep) + pad == lead + body;
    LeadingSeparator(lead, body);
    ReplaceCommasAppend(Interleave(fields, sep), pad);
    ReplaceCommasInterleave(fields, sep);
    ReplaceCommasParts(sep, "");
    ReplaceCommasParts(pad, "");
    WordsOfSpaced(fields, ReplaceCommas(sep), ReplaceCommas(pad));
  }

  /** Round trip: two words and a similarity written with any comma-or-whitespace
      separators, before, between and after them (such as the line break), are
      read back as they were written. */
  lemma EvalLineRoundTrip(lead: string, w1: string, w2: string, sim: string, sep1: string, sep2: string, pad: string)
    requires |w1| > 0 && Solid(w1) && ',' !in w1
    requires |w2| > 0 && Solid(w2) && ',' !in w2
    requires |sim| > 0 && Solid(sim) && ',' !in sim
    requires Separator(lead) && |sep1| > 0 && Separator(sep1) && |sep2| > 0 && Separator(sep2) && Separator(pad)
    ensures SplitEvalLine(lead + w1 + sep1 + w2 + sep2 + sim + pad) == Ok(EvalRecord(w1, w2, sim))
  {
    Regroup(lead, w1 + sep1 + w2 + sep2 + sim + pad, w1, sep1, w2, sep2, sim, pad);
    LeadingSeparator(lead, w1 + sep1 + w2 + sep2 + sim + pad);
    ReplaceCommasParts(sep1, w1);
    ReplaceCommasParts(sep2, w2);
    ReplaceCommasParts(pad, sim);
    var s1, s2, p := ReplaceCommas(sep1), ReplaceCommas(sep2), ReplaceCommas(pad);
    ReplaceCommasThree(w1, w2, sim, sep1, sep2, pad);
    Regroup("", w1 + s1 + w2 + s2 + sim + p, w1, s1, w2, s2, sim, p);
    WordsThree(w1, w2, sim, s1, s2, p);
  }

  /** The line's pieces, regrouped: a leading separator, then the rest of the
      line with its two inner separators nested to the right. */
  lemma Regroup(lead: string, rest: string, a: string, b: string, c: string, d: string, e: string, f: string)
    requires rest == a + b + c + d + e + f
    ensures lead + a + b + c + d + e + f == lead + rest
    ensures rest == a + b + (c + d + (e + f))
  {
  }

  /** The replacement in a three-word line touches the separators only. */
  lemma ReplaceCommasThree(w1: string, w2: string, sim: string, sep1: string, sep2: string, pad: string)
    requires ',' !in w1 && ',' !in w2 && ',' !in sim
    ensures ReplaceCommas(w1 + sep1 + w2 + sep2 + sim + pad)
         == w1 + ReplaceCommas(sep1) + w2 + ReplaceCommas(sep2) + sim + ReplaceCommas(pad)
  {
    ReplaceCommasParts("", w1);
    ReplaceCommasParts("", w2);
    ReplaceCommasParts("", sim);
    ReplaceCommasAppend(w1 + sep1 + w2 + sep2 + sim, pad);
    ReplaceCommasAppend(w1 + sep1 + w2 + sep2, sim);
    ReplaceCommasAppend(w1 + sep1 + w2, sep2);
    ReplaceCommasAppend(w1 + sep1, w2);
    ReplaceCommasAppend(w1, sep1);
  }

  /** Three solid words with whitespace between them and after them split into
      those three words. */
  lemma WordsThree(w1: string, w2: string, sim: string, s1: string, s2: string, p: string)
    requires |w1| > 0 && Solid(w1) && |w2| > 0 && Solid(w2) && |sim| > 0 && Solid(sim)
    requires |s1| > 0 && Blank(s1) && |s2| > 0 && Blank(s2) && Blank(p)
    ensures Words(w1 + s1 + (w2 + s2 + (sim + p))) == [w1, w2, sim]
  {
    var t := sim + p;
    var m := w2 + s2 + t;
    assert Words(t) == [sim] by {
      WordsPadded(sim, p);
    }
    assert Words(m) == [w2, sim] by {
      WordsCons(w2, s2, t);
    }
    WordsCons(w1, s1, m);
  }

  /** Lines 90-92 of `preprocess_eval`: the output line for one input line, or
      the unpacking error. */
  function EvalOutput(line: string, fromWord: TokenSource): Result<string>
  {
    match SplitEvalLine(line)
    case Ok(rec) => Ok(ParseEval(rec.w1, rec.w2, rec.sim, fromWord))
    case Err(e) => Err(e)
  }

  /** An accepted line becomes the two words' serialised tokens and the
      similarity, as three space-separated fields (when no token field holds a
      space). */
  lemma EvalOutputFields(line: string, fromWord: TokenSource)
    requires SplitEvalLine(line).Ok?
    requires var rec := SplitEvalLine(line).value;
      Avoids(fromWord(rec.w1), ' ') && Avoids(fromWord(rec.w2), ' ')
    ensures var rec := SplitEvalLine(line).value;
      EvalOutput(line, fromWord).Ok?
      && Split(EvalOutput(line, fromWord).value, ' ')
         == [TokenFormat(fromWord(rec.w1)), TokenFormat(fromWord(rec.w2)), rec.sim]
  {
    var rec := SplitEvalLine(line).value;
    assert ' ' !in rec.sim by {
      forall i | 0 <= i < |rec.sim| ensures rec.sim[i] != ' ' {
        assert !IsSpace(rec.sim[i]);
      }
    }
    ParseEvalFields(rec.w1, rec.w2, rec.sim, fromWord);
  }
}
