/** Scoring: `sentence_score` walks every token of every sentence, looks up
    the token's LOWER-case text among the (original-case) keys of the weight
    map, and adds the weight found to the sentence's score. */
module SentenceScore {
  import opened Text
  import opened Document
  import opened Selection

  /** What one token adds to its sentence's score: the weight of its
      lower-case text, or nothing when that text is not a key. */
  function Weight(weights: map<string, real>, t: Token): real {
    if Lower(t.text) in weights then weights[Lower(t.text)] else 0.0
  }

  /** The sum of the weights of the tokens of a sentence. */
  function Score(toks: seq<Token>, weights: map<string, real>): real {
    if toks == [] then 0.0
    else Score(toks[..|toks| - 1], weights) + Weight(weights, toks[|toks| - 1])
  }

  /** Some token's lower-case text is a key of the weight map. */
  predicate Scored(toks: seq<Token>, weights: map<string, real>) {
    exists j :: 0 <= j < |toks| && Lower(toks[j].text) in weights
  }

  /** The map `sentence_score` is meant to build: keyed by sentence
      position, present only for sentences with at least one matching
      token, holding the sum of the matching tokens' weights. */
  function ScoreMap(sents: seq<Sentence>, weights: map<string, real>): map<nat, real> {
    map i: nat | i < |sents| && Scored(sents[i].tokens, weights) :: Score(sents[i].tokens, weights)
  }

  predicate PositiveWeights(weights: map<string, real>) {
    forall k :: k in weights ==> weights[k] > 0.0
  }

  /** A sentence none of whose tokens matches sums to zero. */
  lemma {:induction false} ScoreUnscored(toks: seq<Token>, weights: map<string, real>)
    requires !Scored(toks, weights)
    ensures Score(toks, weights) == 0.0
  {
    if toks != [] {
      var init := toks[..|toks| - 1];
      assert !Scored(init, weights) by {
        forall j | 0 <= j < |init| ensures Lower(init[j].text) !in weights {
          assert init[j] == toks[j];
        }
      }
      ScoreUnscored(init, weights);
      assert Lower(toks[|toks| - 1].text) !in weights;
    }
  }

  /** With positive weights, a sentence scores above zero exactly when one of
      its tokens matches; an unmatched sentence sums to zero. */
  lemma {:induction false} ScorePositive(toks: seq<Token>, weights: map<string, real>)
    requires PositiveWeights(weights)
    ensures Scored(toks, weights) <==> Score(toks, weights) > 0.0
    ensures !Scored(toks, weights) ==> Score(toks, weights) == 0.0
  {
    if toks != [] {
      var init := toks[..|toks| - 1];
      ScorePositive(init, weights);
      ScoredStep(toks, weights, |toks| - 1);
      assert toks[..|toks|] == toks;
    }
  }

  /** A sentence's score is the sum of its parts: splitting its tokens splits
      the score, whatever the order of the tokens within each part. */
  lemma {:induction false} ScoreAppend(a: seq<Token>, b: seq<Token>, weights: map<string, real>)
    ensures Score(a + b, weights) == Score(a, weights) + Score(b, weights)
    decreases |b|
  {
    if b != [] {
      var b' := b[..|b| - 1];
      ScoreAppend(a, b', weights);
      assert (a + b)[..|a + b| - 1] == a + b';
      assert (a + b)[|a + b| - 1] == b[|b| - 1];
      assert Score(a + b, weights) == Score(a + b', weights) + Weight(weights, b[|b| - 1]);
      assert Score(b, weights) == Score(b', weights) + Weight(weights, b[|b| - 1]);
    } else {
      assert a + b == a;
    }
  }

  /** A sentence has a score exactly when one of its tokens matches, and the
      score is the sum of the weights of its matching tokens; sentences with
      no matching token are absent, not zero. */
  lemma ScoreMapMeaning(sents: seq<Sentence>, weights: map<string, real>, i: nat)
    requires PositiveWeights(weights)
    ensures i in ScoreMap(sents, weights) <==>
      i < |sents| && exists j :: 0 <= j < |sents[i].tokens| && Lower(sents[i].tokens[j].text) in weights
    ensures i in ScoreMap(sents, weights) ==>
      ScoreMap(sents, weights)[i] == Score(sents[i].tokens, weights) > 0.0
  {
    if i < |sents| {
      ScorePositive(sents[i].tokens, weights);
    }
  }

  /** The scores built from the first `i` sentences. */
  lemma ScoreMapStep(sents: seq<Sentence>, weights: map<string, real>, i: nat)
    requires i < |sents|
    ensures var toks := sents[i].tokens; var before := ScoreMap(sents[..i], weights);
      ScoreMap(sents[..i + 1], weights) ==
        if Scored(toks, weights) then before[i := Score(toks, weights)] else before
  {
    var toks := sents[i].tokens;
    var before, after := ScoreMap(sents[..i], weights), ScoreMap(sents[..i + 1], weights);
    if Scored(toks, weights) {
      assert after.Keys == before.Keys + {i};
    } else {
      assert after.Keys == before.Keys;
    }
  }

  /** One token more in the current sentence: the sentence is scored once
      any of its tokens so far matched. */
  lemma ScoredStep(toks: seq<Token>, weights: map<string, real>, j: nat)
    requires j < |toks|
    ensures Scored(toks[..j + 1], weights) <==> Scored(toks[..j], weights) || Lower(toks[j].text) in weights
  {
    var pre, post := toks[..j], toks[..j + 1];
    if Scored(post, weights) && !(Lower(toks[j].text) in weights) {
      var m :| 0 <= m < |post| && Lower(post[m].text) in weights;
      assert pre[m] == post[m];
    }
    if Scored(pre, weights) {
      var m :| 0 <= m < |pre| && Lower(pre[m].text) in weights;
      assert post[m] == pre[m];
    }
  }

  /** One more token of a sentence, everything the scoring loop needs in
      one step: ScoredStep's fact, the score growing by the token's weight,
      and a prefix that is not yet scored summing to zero. */
  lemma TokenStep(toks: seq<Token>, weights: map<string, real>, j: nat)
    requires j < |toks|
    ensures Scored(toks[..j + 1], weights) <==> Scored(toks[..j], weights) || Lower(toks[j].text) in weights
    ensures Score(toks[..j + 1], weights) == Score(toks[..j], weights) + Weight(weights, toks[j])
    ensures !Scored(toks[..j], weights) ==> Score(toks[..j], weights) == 0.0
  {
    ScoredStep(toks, weights, j);
    assert toks[..j + 1][..j] == toks[..j];
    if !Scored(toks[..j], weights) {
      ScoreUnscored(toks[..j], weights);
    }
  }

  /** Once sentence `i` has been walked, the scores hold the first `i + 1`
      sentences. */
  lemma SentenceDone(sents: seq<Sentence>, weights: map<string, real>, i: nat,
                     before: map<nat, real>, after: map<nat, real>)
    requires i < |sents| && before == ScoreMap(sents[..i], weights)
    requires after - {i} == before && i !in before
    requires i in after <==> Scored(sents[i].tokens, weights)
    requires i in after ==> after[i] == Score(sents[i].tokens, weights)
    ensures after == ScoreMap(sents[..i + 1], weights)
    ensures forall k :: k in after ==> k < i + 1
  {
    ScoreMapStep(sents, weights, i);
    if i in after {
      assert after == before[i := Score(sents[i].tokens, weights)];
    } else {
      assert after == before;
    }
  }

  /** Appending `i` at the sentence's first match keeps the recorded order
      equal to the ascending list of keys. */
  lemma OrderDone(before: map<nat, real>, after: map<nat, real>, i: nat,
                  orderBefore: seq<nat>, order: seq<nat>)
    requires forall k :: k in before ==> k < i
    requires after - {i} == before
    requires orderBefore == ScoredIds(before, i)
    requires order == if i in after then orderBefore + [i] else orderBefore
    ensures order == ScoredIds(after, i + 1)
  {
    ScoredIdsStep(before, after, i);
  }

  /** `sentence_score(sentence_tokens, word_frequencies)`: nested loops over
      sentences and their tokens, adding each matching token's weight to its
      sentence's entry (created at the first match). The ghost `order`
      records the keys in the order the loop inserts them, which is the
      order a dictionary iterates them in: ascending position. */
  method SentenceScores(sents: seq<Sentence>, weights: map<string, real>)
    returns (scores: map<nat, real>, ghost order: seq<nat>)
    ensures scores == ScoreMap(sents, weights)
    ensures order == ScoredIds(scores, |sents|)
  {
    scores := map[];
    order := [];
    var i := 0;
    while i < |sents|
      invariant 0 <= i <= |sents|
      invariant scores == ScoreMap(sents[..i], weights)
      invariant order == ScoredIds(scores, i)
      invariant forall k :: k in scores ==> k < i
    {
      var toks := sents[i].tokens;
      ghost var before := scores;
      ghost var orderBefore := order;
      var j := 0;
      while j < |toks|
        invariant 0 <= j <= |toks|
        invariant i in scores <==> Scored(toks[..j], weights)
        invariant i in scores ==> scores[i] == Score(toks[..j], weights)
        invariant scores - {i} == before && i !in before
        invariant i !in scores ==> order == orderBefore
        invariant i in scores ==> order == orderBefore + [i]
      {
        var word := Lower(toks[j].text);
        TokenStep(toks, weights, j);
        if word in weights {
          if i !in scores {
            order := order + [i];
          }
          scores := scores[i := (if i in scores then scores[i] else 0.0) + weights[word]];
        }
        j := j + 1;
      }
      assert toks[..j] == toks;
      SentenceDone(sents, weights, i, before, scores);
      OrderDone(before, scores, i, orderBefore, order);
      i := i + 1;
    }
    assert sents[..i] == sents;
  }
}
