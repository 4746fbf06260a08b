/** The analysed word occurrence that the serialiser renders. Tokens are built by
    a factory whose code is not part of this model; callers pass its two
    constructors in as functions. */
module Tokens {

  datatype Token = Token(
    word: string,
    lemmaForm: string,  // the source's `lemma` field (a Dafny keyword)
    pos: string,
    morphologicalTags: seq<string>,
    morphemes: seq<string>,
    ngrams: seq<string>)

  /** `TokenFactory.from_conll_line` and `TokenFactory.from_word`, with the factory's
      configuration (n-gram bounds, analysers) fixed. */
  type TokenSource = string -> Token

  /** No field of the token contains the character c. */
  predicate Avoids(t: Token, c: char)
  {
    c !in t.word && c !in t.lemmaForm && c !in t.pos
    && (forall i :: 0 <= i < |t.morphologicalTags| ==> c !in t.morphologicalTags[i])
    && (forall i :: 0 <= i < |t.morphemes| ==> c !in t.morphemes[i])
    && (forall i :: 0 <= i < |t.ngrams| ==> c !in t.ngrams[i])
  }
}
