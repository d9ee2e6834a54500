/** `get_summary`: count, normalise, score, select, join. */
module Summariser {
  import opened Text
  import opened Document
  import opened Frequency
  import opened Normalise
  import opened SentenceScore
  import opened Selection

  /** The normalised weights `get_summary` scores with, or the failure of
      `max` when no token survived the exclusion. */
  function Weights(cfg: Config, doc: seq<Sentence>): (r: Result<map<string, real>>)
    ensures r.Failure? <==> AllExcluded(cfg, Tokens(doc))
    ensures r.Failure? ==> r.error == NoScorableContent
  {
    var freq := Frequencies(cfg, Tokens(doc));
    FrequenciesEmpty(cfg, Tokens(doc));
    if freq == map[] then Failure(NoScorableContent)
    else
      FrequenciesPositive(cfg, Tokens(doc));
      Success(Normalised(freq))
  }

  /** The positions of the sentences `nlargest` picks from the score map
      built with the weights `w`, in the order it returns them. */
  function SelectFrom(doc: seq<Sentence>, w: map<string, real>, ratio: real): (chosen: seq<nat>)
    ensures forall k :: 0 <= k < |chosen| ==> chosen[k] < |doc|
  {
    var scores := ScoreMap(doc, w);
    NLargest(scores, ScoredIds(scores, |doc|), SelectLength(|doc|, ratio))
  }

  /** The positions of the sentences `get_summary` selects, in the order
      `nlargest` returns them. */
  function Selected(cfg: Config, doc: seq<Sentence>, ratio: real): (r: Result<seq<nat>>)
    ensures r.Success? ==> forall k :: 0 <= k < |r.value| ==> r.value[k] < |doc|
  {
    match Weights(cfg, doc)
    case Failure(e) => Failure(e)
    case Success(w) => Success(SelectFrom(doc, w, ratio))
  }

  /** The surface texts of the chosen sentences, in the order chosen. */
  function Texts(doc: seq<Sentence>, chosen: seq<nat>): (texts: seq<string>)
    requires forall k :: 0 <= k < |chosen| ==> chosen[k] < |doc|
    ensures |texts| == |chosen|
    ensures forall k :: 0 <= k < |chosen| ==> texts[k] == doc[chosen[k]].text
  {
    seq(|chosen|, k requires 0 <= k < |chosen| => doc[chosen[k]].text)
  }

  /** The summary `get_summary(text, ratio)` returns for a document. */
  function Summary(cfg: Config, doc: seq<Sentence>, ratio: real): Result<string> {
    var selected := Selected(cfg, doc, ratio);
    if selected.Failure? then Failure(selected.error)
    else Success(JoinWithSpace(Texts(doc, selected.value)))
  }

  /** The ratio `get_summary` uses when its caller gives none. */
  const DefaultRatio: real := 0.10

  /** `get_summary`, step by step as the helper runs it: count the tokens,
      normalise the counts in place, score the sentences, take the top
      `int(N * ratio)` of them and join their texts. */
  method GetSummary(cfg: Config, doc: seq<Sentence>, ratio: real := DefaultRatio) returns (r: Result<string>)
    ensures r == Summary(cfg, doc, ratio)
  {
    var wordFrequencies := WordFrequency(cfg, doc);
    FrequenciesPositive(cfg, Tokens(doc));
    var normalised := NormaliseFrequencies(wordFrequencies);
    if normalised.Failure? {
      return Failure(normalised.error);
    }
    var sentenceScores;
    ghost var insertionOrder;
    sentenceScores, insertionOrder := SentenceScores(doc, normalised.value);
    var selectLength := SelectLength(|doc|, ratio);
    // nlargest iterates the score map in insertion order, ascending position
    var summarySentences := NLargest(sentenceScores, ScoredIds(sentenceScores, |doc|), selectLength);
    assert Selected(cfg, doc, ratio) == Success(summarySentences);
    r := Success(JoinWithSpace(Texts(doc, summarySentences)));
  }

  /** The summariser fails exactly when every token of the document is
      excluded (in particular for a document with no tokens or no
      sentences); it never fails otherwise. */
  lemma SummaryFails(cfg: Config, doc: seq<Sentence>, ratio: real)
    ensures Summary(cfg, doc, ratio).Failure? <==> AllExcluded(cfg, Tokens(doc))
    ensures Summary(cfg, doc, ratio).Failure? ==> Summary(cfg, doc, ratio).error == NoScorableContent
  {
  }

  /** A weight is found for a token exactly when its lower-case text is
      itself the exact text of some token of the document and that text is
      not excluded: a capitalised token contributes only if its lower-case
      form was counted on its own. */
  lemma TokenContributes(cfg: Config, doc: seq<Sentence>, w: map<string, real>, t: Token)
    requires Weights(cfg, doc) == Success(w)
    ensures Lower(t.text) in w <==>
      (exists u :: u in Tokens(doc) && u.text == Lower(t.text)) && !Excluded(cfg, t.text)
    ensures Weight(w, t) > 0.0 <==> Lower(t.text) in w
  {
    var toks := Tokens(doc);
    var freq := Frequencies(cfg, toks);
    FrequenciesPositive(cfg, toks);
    NormalisedRange(freq);
    FrequenciesMeaning(cfg, toks, Lower(t.text));
    ExcludedCases(cfg, t.text, 0);
    if exists u :: u in toks && u.text == Lower(t.text) {
      var u :| u in toks && u.text == Lower(t.text);
      var i :| 0 <= i < |toks| && toks[i] == u;
    }
  }

  /** What `nlargest` picks: exactly `min(max(int(N * ratio), 0), S)`
      sentences where S is the number of scored sentences, hence never more
      than N; each picked sentence is a scored one and appears once; they come
      in descending score, ties in document order; and every scored sentence
      left out ranks below every picked one: it scores lower, or it scores
      the same and comes later in the document. */
  lemma SelectFromMeaning(doc: seq<Sentence>, w: map<string, real>, ratio: real)
    ensures var chosen := SelectFrom(doc, w, ratio);
      var scores := ScoreMap(doc, w);
      var k := SelectLength(|doc|, ratio);
      && |chosen| == (if k <= 0 then 0 else if k < |scores| then k else |scores|)
      && |chosen| <= |doc|
      && (forall a :: 0 <= a < |chosen| ==> chosen[a] in scores)
      && (forall a, b :: 0 <= a < b < |chosen| ==>
            scores[chosen[a]] > scores[chosen[b]] ||
            (scores[chosen[a]] == scores[chosen[b]] && chosen[a] < chosen[b]))
      && (forall x, a :: x in scores && x !in chosen && 0 <= a < |chosen| ==>
            Before(scores, chosen[a], x))
  {
    var scores := ScoreMap(doc, w);
    var ids := ScoredIds(scores, |doc|);
    var chosen := SelectFrom(doc, w, ratio);
    NLargestMeaning(scores, ids, SelectLength(|doc|, ratio));
    AscendingSize(ids, scores.Keys);
    forall x, a | x in scores && x !in chosen && 0 <= a < |chosen|
      ensures Before(scores, chosen[a], x)
    {
      assert x in ids;
    }
  }

  /** A larger ratio picks the same sentences and possibly more after them;
      a ratio of 1 or more picks every scored sentence. */
  lemma SelectFromGrows(doc: seq<Sentence>, w: map<string, real>, ratio: real, larger: real)
    requires ratio <= larger
    ensures SelectFrom(doc, w, ratio) <= SelectFrom(doc, w, larger)
    ensures 1.0 <= ratio ==> forall i :: i in SelectFrom(doc, w, ratio) <==> i in ScoreMap(doc, w)
  {
    var scores := ScoreMap(doc, w);
    var ids := ScoredIds(scores, |doc|);
    SelectLengthMonotone(|doc|, ratio, larger);
    NLargestPrefix(scores, ids, SelectLength(|doc|, ratio), SelectLength(|doc|, larger));
    if 1.0 <= ratio {
      SelectLengthAtLeast(|doc|, ratio);
      NLargestMeaning(scores, ids, SelectLength(|doc|, ratio));
      var chosen := SelectFrom(doc, w, ratio);
      forall i ensures i in chosen <==> i in scores {
        assert i in chosen <==> i in multiset(chosen);
        assert i in ids <==> i in multiset(ids);
      }
    }
  }

  /** When the summariser does not fail, it selects what `nlargest` picks
      from the scores built with the normalised weights; so a larger ratio
      selects the same sentences and possibly more after them. */
  lemma SelectedGrows(cfg: Config, doc: seq<Sentence>, ratio: real, larger: real)
    requires ratio <= larger
    ensures Selected(cfg, doc, ratio).Success? <==> Selected(cfg, doc, larger).Success?
    ensures Selected(cfg, doc, ratio).Success? ==>
      Selected(cfg, doc, ratio).value <= Selected(cfg, doc, larger).value
  {
    if Weights(cfg, doc).Success? {
      SelectFromGrows(doc, Weights(cfg, doc).value, ratio, larger);
    }
  }

  /** The summary is the selected sentences' texts, in selection order
      (descending score, not document order), laid out with single spaces:
      each text at its offset, a space after every text but the last, the
      whole as long as the texts plus the separating spaces, and the empty
      string when nothing is selected. */
  lemma SummaryIsJoin(cfg: Config, doc: seq<Sentence>, ratio: real, chosen: seq<nat>)
    requires Selected(cfg, doc, ratio) == Success(chosen)
    ensures Summary(cfg, doc, ratio).Success?
    ensures LaidOut(Summary(cfg, doc, ratio).value, Texts(doc, chosen))
    ensures forall k :: 0 <= k < |chosen| ==> Texts(doc, chosen)[k] == doc[chosen[k]].text
  {
    assert Summary(cfg, doc, ratio) == Success(JoinWithSpace(Texts(doc, chosen)));
    JoinLayout(Texts(doc, chosen));
  }

  /** A ratio too small for the document (`int(N * ratio) <= 0`) gives the
      empty summary, e.g. three sentences at ratio 0.33. */
  lemma SummaryTooShort(cfg: Config, doc: seq<Sentence>, ratio: real)
    requires Selected(cfg, doc, ratio).Success?
    requires |doc| == 3 && ratio == 0.33
    ensures Summary(cfg, doc, ratio) == Success("")
  {
    assert SelectLength(|doc|, ratio) == 0;
  }

  /** At the default ratio a document of fewer than ten sentences selects
      nothing, since `int(N * 0.1)` is 0, and its summary is empty (when the
      summariser does not fail). */
  lemma DefaultRatioShortDocument(cfg: Config, doc: seq<Sentence>)
    requires Selected(cfg, doc, DefaultRatio).Success? && |doc| < 10
    ensures Summary(cfg, doc, DefaultRatio) == Success("")
  {
    assert |doc| as real * DefaultRatio < 1.0;
    assert SelectLength(|doc|, DefaultRatio) == 0;
  }

  /** The one-sentence document "India votes." and its tokens. */
  const IndiaTokens: seq<Token> := [Token("India"), Token("votes"), Token(".")]
  const IndiaDoc: seq<Sentence> := [Sentence("India votes.", IndiaTokens)]

  /** The example document's tokens are its one sentence's tokens. */
  lemma IndiaTokensOfDoc()
    ensures Tokens(IndiaDoc) == IndiaTokens
  {
    assert IndiaDoc[..0] == [];
  }

  /** A word whose first letter is a lower-case ASCII letter, and which
      is its own lower-case form, is not excluded without stopwords. */
  lemma WordKept(word: string)
    requires |word| > 0 && 'a' <= word[0] <= 'z' && Lower(word) == word
    ensures !Excluded(HelperConfig([]), word)
  {
    assert forall j :: 0 <= j < |PunctuationWithNewline| ==> !('a' <= PunctuationWithNewline[j] <= 'z');
    FirstCharAbsent(PunctuationWithNewline, word);
  }

  /** "India" is counted: its lower-case form is neither a stopword nor
      inside the punctuation string. */
  lemma IndiaKept()
    ensures !Excluded(HelperConfig([]), "India")
  {
    assert Lower("India") == "india" && Lower("india") == "india";
    WordKept("india");
    ExcludedCases(HelperConfig([]), "India", 0);
  }

  lemma VotesKept()
    ensures !Excluded(HelperConfig([]), "votes")
  {
    assert Lower("votes") == "votes";
    WordKept("votes");
  }

  /** The full stop is a punctuation mark, so it is not counted. */
  lemma FullStopExcluded()
    ensures Excluded(HelperConfig([]), ".")
  {
    var cfg := HelperConfig([]);
    assert Lower(".") == ".";
    assert cfg.punctuation[13] == '.';
    assert cfg.punctuation[13..14] == ".";
    ExcludedCases(cfg, ".", 13);
  }

  lemma IndiaOccurrences()
    ensures Occurrences(IndiaTokens, "India") == 1 && Occurrences(IndiaTokens, "votes") == 1
  {
    var toks := IndiaTokens;
    assert toks[..2] == [Token("India"), Token("votes")];
    assert toks[..2][..1] == [Token("India")];
    assert [Token("India")][..0] == [];
  }

  lemma IndiaTexts()
    ensures TextsOf(IndiaTokens) == {"India", "votes", "."}
  {
    var toks := IndiaTokens;
    assert toks[0].text == "India" && toks[1].text == "votes" && toks[2].text == ".";
  }

  /** Counting the example: "India" and "votes" once each, the full stop
      not at all, and no key "india". */
  lemma IndiaCounts(cfg: Config, toks: seq<Token>)
    requires cfg == HelperConfig([]) && toks == IndiaTokens
    ensures Frequencies(cfg, toks) == map["India" := 1, "votes" := 1]
  {
    IndiaTexts();
    IndiaKept();
    VotesKept();
    FullStopExcluded();
    IndiaOccurrences();
    CountsOfTwo(cfg, toks, "India", "votes", ".");
  }

  /** Frequencies of a token list with three distinct texts, the last one
      excluded and the other two occurring once each. */
  lemma CountsOfTwo(cfg: Config, toks: seq<Token>, a: string, b: string, c: string)
    requires TextsOf(toks) == {a, b, c} && a != b
    requires !Excluded(cfg, a) && !Excluded(cfg, b) && Excluded(cfg, c)
    requires Occurrences(toks, a) == 1 && Occurrences(toks, b) == 1
    ensures Frequencies(cfg, toks) == map[a := 1, b := 1]
  {
    assert Frequencies(cfg, toks).Keys == {a, b};
  }

  /** Weighting succeeds with the normalised counts whenever some token
      was counted. */
  lemma WeightsOfCounts(cfg: Config, doc: seq<Sentence>, freq: map<string, nat>)
    requires Frequencies(cfg, Tokens(doc)) == freq && freq != map[]
    ensures PositiveCounts(freq)
    ensures Weights(cfg, doc) == Success(Normalised(freq))
  {
    FrequenciesPositive(cfg, Tokens(doc));
  }

  /** Two texts counted once each both weigh 1. */
  lemma NormalisedOnes(a: string, b: string)
    requires a != b
    ensures var freq := map[a := 1, b := 1];
      a in freq && freq != map[] && PositiveCounts(freq) &&
      Normalised(freq) == map[a := 1.0, b := 1.0]
  {
    var freq := map[a := 1, b := 1];
    assert freq.Keys == {a, b};
    NormalisedRange(freq);
    assert Normalised(freq).Keys == {a, b};
  }

  /** Both counted words of the example weigh 1. */
  lemma IndiaWeights(cfg: Config, doc: seq<Sentence>, w: map<string, real>)
    requires cfg == HelperConfig([]) && doc == IndiaDoc
    requires Weights(cfg, doc) == Success(w)
    ensures w == map["India" := 1.0, "votes" := 1.0]
  {
    IndiaTokensOfDoc();
    IndiaCounts(cfg, Tokens(doc));
    NormalisedOnes("India", "votes");
    WeightsOfCounts(cfg, doc, map["India" := 1, "votes" := 1]);
  }

  /** The score of three tokens is the sum of their weights. */
  lemma ScoreOfThree(t0: Token, t1: Token, t2: Token, w: map<string, real>)
    ensures Score([t0, t1, t2], w) == Weight(w, t0) + Weight(w, t1) + Weight(w, t2)
  {
    var toks := [t0, t1, t2];
    assert toks[..2] == [t0, t1] && [t0, t1][..1] == [t0] && [t0][..0] == [];
    assert Score([t0], w) == Weight(w, t0);
    assert Score([t0, t1], w) == Weight(w, t0) + Weight(w, t1);
  }

  /** Scoring the example: "India" finds no weight (its lower-case form
      is not a key), "votes" finds 1, the full stop nothing. */
  lemma IndiaScores(doc: seq<Sentence>, w: map<string, real>)
    requires doc == IndiaDoc && w == map["India" := 1.0, "votes" := 1.0]
    ensures Weight(w, Token("India")) == 0.0
    ensures ScoreMap(doc, w) == map[0 := 1.0]
  {
    assert Lower("India") == "india" && Lower("votes") == "votes" && Lower(".") == ".";
    var toks := doc[0].tokens;
    ScoreOfThree(toks[0], toks[1], toks[2], w);
    assert Scored(toks, w) by {
      assert Lower(toks[1].text) in w;
    }
    assert ScoreMap(doc, w).Keys == {0};
  }

  /** The case asymmetry on the one-sentence document "India votes.": both
      words are counted and weigh 1, but the scorer looks up "india", which
      is not a key, so only "votes" adds to the sentence's score, 1 rather
      than 2. */
  lemma CapitalisedWordIgnored(cfg: Config, doc: seq<Sentence>, w: map<string, real>)
    requires cfg == HelperConfig([]) && doc == IndiaDoc
    requires Weights(cfg, doc) == Success(w)
    ensures w == map["India" := 1.0, "votes" := 1.0]
    ensures Weight(w, Token("India")) == 0.0
    ensures ScoreMap(doc, w) == map[0 := 1.0]
  {
    IndiaWeights(cfg, doc, w);
    IndiaScores(doc, w);
  }
}
