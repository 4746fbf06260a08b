/** `token_format`: a Token rendered as one flat string of `x:value` items
    separated by the reserved delimiter. */
module Format {
  import opened Strings
  import opened Tokens
  import opened Delimiters

  /** `[prefix + x for x in items]` */
  function Prefixed(prefix: string, items: seq<string>): seq<string>
  {
    seq(|items|, i requires 0 <= i < |items| => prefix + items[i])
  }

  /** The tag items: one `t:` item per morphological tag, then the synthetic `t:POS=<pos>`. */
  function TagItems(t: Token): seq<string>
  {
    Prefixed("t:", t.morphologicalTags + ["POS=" + t.pos])
  }

  function MorphemeItems(t: Token): seq<string>
  {
    Prefixed("m:", t.morphemes)
  }

  function NgramItems(t: Token): seq<string>
  {
    Prefixed("n:", t.ngrams)
  }

  /** The five groups the serialiser joins, in order; an empty group is "". */
  function Groups(t: Token): seq<string>
  {
    ["w:" + t.word, "l:" + t.lemmaForm,
     Join(Delimiter, TagItems(t)), Join(Delimiter, MorphemeItems(t)), Join(Delimiter, NgramItems(t))]
  }

  /** Every item of the flat format, in the order the serialiser emits them. */
  function Items(t: Token): seq<string>
  {
    ["w:" + t.word, "l:" + t.lemmaForm] + TagItems(t) + MorphemeItems(t) + NgramItems(t)
  }

  /** The groups that are left once an empty morpheme or n-gram group is omitted. */
  function NonEmptyGroups(t: Token): seq<string>
  {
    var g := Groups(t);
    g[..3] + (if t.morphemes == [] then [] else [g[3]]) + (if t.ngrams == [] then [] else [g[4]])
  }

  /** The serialised token starts with the word item and holds neither a doubled
      nor a trailing delimiter. */
  function TokenFormat(t: Token): (r: string)
    ensures |r| >= 2 && r[..2] == "w:"
    ensures NoDoubledDelimiter(r) && !EndsWithDelimiter(r)
  {
    var g := Groups(t);
    var joined := Join(Delimiter, g);
    assert joined == g[0] + [Delimiter] + Join(Delimiter, g[1..]);
    assert joined[0] == 'w' && joined[1] == ':';
    CleanUp(joined)
  }

  /** Joining the first three groups spells out the word, lemma and tag groups. */
  lemma JoinFirstThree(t: Token)
    ensures Join(Delimiter, Groups(t)[..3])
         == "w:" + t.word + [Delimiter] + "l:" + t.lemmaForm + [Delimiter] + Join(Delimiter, TagItems(t))
  {
    var g := Groups(t);
    assert g[..3][1..] == [g[1], g[2]];
    assert [g[1], g[2]][1..] == [g[2]];
    assert Join(Delimiter, [g[1], g[2]]) == g[1] + [Delimiter] + g[2];
    assert Join(Delimiter, g[..3]) == g[0] + [Delimiter] + (g[1] + [Delimiter] + g[2]);
  }

  /** The joined groups, with the morpheme and n-gram groups made explicit. */
  lemma JoinGroups(t: Token)
    ensures Join(Delimiter, Groups(t))
         == Join(Delimiter, Groups(t)[..3]) + [Delimiter] + Groups(t)[3] + [Delimiter] + Groups(t)[4]
  {
    var g := Groups(t);
    JoinAppend(Delimiter, g[..3], g[3..]);
    assert g[..3] + g[3..] == g;
    assert g[3..] == [g[3], g[4]];
    assert [g[3], g[4]][1..] == [g[4]];
  }

  /** An empty morpheme or n-gram group leaves no trace: the output is that of
      joining only the non-empty groups. Holds for every token, including ones
      whose fields contain the delimiter. */
  lemma EmptyGroupsVanish(t: Token)
    ensures TokenFormat(t) == CleanUp(Join(Delimiter, NonEmptyGroups(t)))
  {
    var g := Groups(t);
    var a := Join(Delimiter, g[..3]);
    JoinGroups(t);
    JoinFirstThree(t);
    assert |a| > 0;
    var ng := NonEmptyGroups(t);
    if t.morphemes == [] && t.ngrams == [] {
      assert g[3] == "" && g[4] == "";
      assert ng == g[..3];
      assert Join(Delimiter, g) == a + [Delimiter, Delimiter] + "";
      CleanUpDoubled(a, "");
      assert a + [Delimiter] + "" == a + [Delimiter];
      CleanUpTrailing(a);
    } else if t.morphemes == [] {
      assert g[3] == "";
      assert ng == g[..3] + [g[4]];
      JoinAppend(Delimiter, g[..3], [g[4]]);
      assert Join(Delimiter, g) == a + [Delimiter, Delimiter] + g[4];
      CleanUpDoubled(a, g[4]);
    } else if t.ngrams == [] {
      assert g[4] == "";
      assert ng == g[..3] + [g[3]];
      JoinAppend(Delimiter, g[..3], [g[3]]);
      assert Join(Delimiter, g) == (a + [Delimiter] + g[3]) + [Delimiter];
      CleanUpTrailing(a + [Delimiter] + g[3]);
    } else {
      assert ng == g[..3] + [g[3]] + [g[4]];
      assert g[..3] + [g[3]] + [g[4]] == g;
    }
  }

  /** Joining non-empty, delimiter-free items gives a string that is already clean. */
  lemma {:induction false} JoinIsClean(parts: seq<string>)
    requires |parts| > 0
    requires forall i :: 0 <= i < |parts| ==> |parts[i]| > 0 && Delimiter !in parts[i]
    ensures NoDoubledDelimiter(Join(Delimiter, parts)) && !EndsWithDelimiter(Join(Delimiter, parts))
  {
    if |parts| > 1 {
      JoinIsClean(parts[1..]);
      var p, rest := parts[0], Join(Delimiter, parts[1..]);
      assert |rest| > 0 && rest[0] == parts[1][0] by {
        if |parts| > 2 {
          assert rest == parts[1] + [Delimiter] + Join(Delimiter, parts[2..]);
        }
      }
      var s := p + [Delimiter] + rest;
      forall i | 0 <= i < |s| - 1
        ensures !(s[i] == Delimiter && s[i + 1] == Delimiter)
      {
        if i < |p| {
          assert s[i] == p[i];
        } else if i == |p| {
          assert s[i + 1] == rest[0];
          assert rest[0] in parts[1];
        } else {
          assert s[i] == rest[i - |p| - 1] && s[i + 1] == rest[i - |p|];
        }
      }
    } else {
      assert parts[0][|parts[0]| - 1] in parts[0];
    }
  }

  /** A character in no field of the token and not in `POS=` is in none of the
      tags, the synthetic POS tag included. */
  lemma TagsAvoid(t: Token, c: char)
    requires Avoids(t, c)
    requires c !in "POS="
    ensures var tags := t.morphologicalTags + ["POS=" + t.pos];
      forall i :: 0 <= i < |tags| ==> c !in tags[i]
  {
    var tags := t.morphologicalTags + ["POS=" + t.pos];
    forall i | 0 <= i < |tags| ensures c !in tags[i] {
      if i == |t.morphologicalTags| {
        assert tags[i] == "POS=" + t.pos;
      } else {
        assert tags[i] == t.morphologicalTags[i];
      }
    }
  }

  /** Every item of a token whose fields avoid the delimiter is non-empty and
      delimiter-free. */
  lemma ItemsAreClean(t: Token)
    requires Avoids(t, Delimiter)
    ensures forall i :: 0 <= i < |Items(t)| ==> |Items(t)[i]| > 0 && Delimiter !in Items(t)[i]
  {
    TagsAvoid(t, Delimiter);
  }

  /** The joined items, group by group. */
  lemma JoinItems(t: Token)
    ensures Join(Delimiter, Items(t)) == Join(Delimiter, NonEmptyGroups(t))
  {
    var g := Groups(t);
    var head := ["w:" + t.word, "l:" + t.lemmaForm];
    var ti, mi, ni := TagItems(t), MorphemeItems(t), NgramItems(t);
    JoinAppend(Delimiter, head, ti);
    assert Join(Delimiter, head) == "w:" + t.word + [Delimiter] + "l:" + t.lemmaForm;
    JoinFirstThree(t);
    assert Join(Delimiter, head + ti) == Join(Delimiter, g[..3]);
    assert Items(t) == head + ti + mi + ni;
    if mi == [] && ni == [] {
      assert t.morphemes == [] && t.ngrams == [];
      assert Items(t) == head + ti;
      assert NonEmptyGroups(t) == g[..3];
    } else if mi == [] {
      assert t.morphemes == [] && t.ngrams != [];
      assert NonEmptyGroups(t) == g[..3] + [g[4]];
      assert Items(t) == (head + ti) + ni;
      JoinAppend(Delimiter, head + ti, ni);
      JoinAppend(Delimiter, g[..3], [g[4]]);
    } else if ni == [] {
      assert t.ngrams == [] && t.morphemes != [];
      assert NonEmptyGroups(t) == g[..3] + [g[3]];
      assert Items(t) == (head + ti) + mi;
      JoinAppend(Delimiter, head + ti, mi);
      JoinAppend(Delimiter, g[..3], [g[3]]);
    } else {
      assert t.morphemes != [] && t.ngrams != [];
      assert NonEmptyGroups(t) == g[..3] + [g[3]] + [g[4]];
      assert Items(t) == ((head + ti) + mi) + ni;
      JoinAppend(Delimiter, head + ti, mi);
      JoinAppend(Delimiter, (head + ti) + mi, ni);
      JoinAppend(Delimiter, g[..3], [g[3]]);
      JoinAppend(Delimiter, g[..3] + [g[3]], [g[4]]);
    }
  }

  /** For a token whose fields avoid the delimiter the output is exactly its items,
      in order, one delimiter apart: the clean-up only removes what empty groups
      left behind. */
  lemma FormatIsJoinOfItems(t: Token)
    requires Avoids(t, Delimiter)
    ensures TokenFormat(t) == Join(Delimiter, Items(t))
  {
    EmptyGroupsVanish(t);
    JoinItems(t);
    ItemsAreClean(t);
    JoinIsClean(Items(t));
    CleanUpIdentity(Join(Delimiter, Items(t)));
  }

  /** Round trip: splitting the output at the delimiter recovers the items. */
  lemma FormatSplitsIntoItems(t: Token)
    requires Avoids(t, Delimiter)
    ensures Split(TokenFormat(t), Delimiter) == Items(t)
  {
    FormatIsJoinOfItems(t);
    ItemsAreClean(t);
    SplitJoin(Items(t), Delimiter);
  }

  /** Where each field of a token sits among its items. */
  lemma ItemsLayout(t: Token)
    ensures var f, nt, nm := Items(t), |t.morphologicalTags|, |t.morphemes|;
      && |f| == 3 + nt + nm + |t.ngrams|
      && f[0] == "w:" + t.word
      && f[1] == "l:" + t.lemmaForm
      && (forall i :: 0 <= i < nt ==> f[2 + i] == "t:" + t.morphologicalTags[i])
      && f[2 + nt] == "t:POS=" + t.pos
      && (forall i :: 0 <= i < nm ==> f[3 + nt + i] == "m:" + t.morphemes[i])
      && (forall i :: 0 <= i < |t.ngrams| ==> f[3 + nt + nm + i] == "n:" + t.ngrams[i])
  {
    var nt, nm := |t.morphologicalTags|, |t.morphemes|;
    var tags := t.morphologicalTags + ["POS=" + t.pos];
    var ti, mi, ni := TagItems(t), MorphemeItems(t), NgramItems(t);
    var front := ["w:" + t.word, "l:" + t.lemmaForm] + ti;
    var f := Items(t);
    assert f == front + mi + ni;
    forall i | 0 <= i < nt ensures f[2 + i] == "t:" + t.morphologicalTags[i] {
      assert f[2 + i] == front[2 + i] == ti[i];
      assert tags[i] == t.morphologicalTags[i];
    }
    assert f[2 + nt] == front[2 + nt] == ti[nt];
    assert tags[nt] == "POS=" + t.pos;
    forall i | 0 <= i < nm ensures f[3 + nt + i] == "m:" + t.morphemes[i] {
      assert f[3 + nt + i] == (front + mi)[|front| + i] == mi[i];
    }
    forall i | 0 <= i < |t.ngrams| ensures f[3 + nt + nm + i] == "n:" + t.ngrams[i] {
      assert f[3 + nt + nm + i] == ni[i];
    }
  }

  /** The fields of the output, read back by splitting at the delimiter: the word,
      the lemma, the tags in input order, the POS tag as the last tag, then the
      morphemes and the n-grams in input order. */
  lemma FormatFields(t: Token)
    requires Avoids(t, Delimiter)
    ensures var f, nt, nm := Split(TokenFormat(t), Delimiter), |t.morphologicalTags|, |t.morphemes|;
      && |f| == 3 + nt + nm + |t.ngrams|
      && f[0] == "w:" + t.word
      && f[1] == "l:" + t.lemmaForm
      && (forall i :: 0 <= i < nt ==> f[2 + i] == "t:" + t.morphologicalTags[i])
      && f[2 + nt] == "t:POS=" + t.pos
      && (forall i :: 0 <= i < nm ==> f[3 + nt + i] == "m:" + t.morphemes[i])
      && (forall i :: 0 <= i < |t.ngrams| ==> f[3 + nt + nm + i] == "n:" + t.ngrams[i])
  {
    FormatSplitsIntoItems(t);
    ItemsLayout(t);
  }

  /** An item whose marker is not `t:`, or a tag item whose tag does not start
      with `POS=`, is not a POS item. */
  lemma NotPosItem(marker: char, s: string)
    requires marker != 't' || !("POS=" <= s)
    ensures !("t:POS=" <= [marker, ':'] + s)
  {
    var x := [marker, ':'] + s;
    if |x| >= 6 {
      assert x[..6][0] == marker && x[..6][2..] == s[..4];
      assert "t:POS="[2..] == "POS=";
    }
  }

  /** Exactly one item is a POS item, the last tag item, provided no morphological
      tag itself starts with `POS=`; this holds even when there are no tags. */
  lemma ItemsHaveOnePos(t: Token)
    requires forall i :: 0 <= i < |t.morphologicalTags| ==> !("POS=" <= t.morphologicalTags[i])
    ensures var f := Items(t);
      forall i :: 0 <= i < |f| ==> ("t:POS=" <= f[i] <==> i == 2 + |t.morphologicalTags|)
  {
    ItemsLayout(t);
    var f := Items(t);
    var nt, nm := |t.morphologicalTags|, |t.morphemes|;
    forall i | 0 <= i < |f| ensures "t:POS=" <= f[i] <==> i == 2 + nt {
      if i == 2 + nt {
        assert f[i] == "t:POS=" + t.pos;
      } else if 2 <= i < 2 + nt {
        NotPosItem('t', t.morphologicalTags[i - 2]);
      } else if i == 0 {
        NotPosItem('w', t.word);
      } else if i == 1 {
        NotPosItem('l', t.lemmaForm);
      } else if i < 3 + nt + nm {
        NotPosItem('m', t.morphemes[i - 3 - nt]);
      } else {
        NotPosItem('n', t.ngrams[i - 3 - nt - nm]);
      }
    }
  }

  /** Read back by splitting at the delimiter, the output holds exactly one POS
      item, the last tag item. */
  lemma SinglePosItem(t: Token)
    requires Avoids(t, Delimiter)
    requires forall i :: 0 <= i < |t.morphologicalTags| ==> !("POS=" <= t.morphologicalTags[i])
    ensures var f := Split(TokenFormat(t), Delimiter);
      forall i :: 0 <= i < |f| ==> ("t:POS=" <= f[i] <==> i == 2 + |t.morphologicalTags|)
  {
    FormatSplitsIntoItems(t);
    ItemsHaveOnePos(t);
  }

  /** A character that is in no field of the token and is not part of the item
      markup does not occur in its serialised form. */
  lemma FormatAvoids(t: Token, c: char)
    requires Avoids(t, c)
    requires c !in "~wltmnPOS=:"
    ensures c !in TokenFormat(t)
  {
    TagsAvoid(t, c);
    JoinAvoids(Delimiter, TagItems(t), c);
    JoinAvoids(Delimiter, MorphemeItems(t), c);
    JoinAvoids(Delimiter, NgramItems(t), c);
    JoinAvoids(Delimiter, Groups(t), c);
  }
}
