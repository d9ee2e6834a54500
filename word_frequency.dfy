/** Counting: `word_frequency` walks the document's tokens and counts every
    token that is not excluded, keyed by its ORIGINAL-case text (while the
    exclusion test looks at the lower-case form). */
module Frequency {
  import opened Text
  import opened Document

  /** Number of tokens in `toks` whose text is exactly `k`. */
  function Occurrences(toks: seq<Token>, k: string): nat {
    if toks == [] then 0
    else Occurrences(toks[..|toks| - 1], k) + (if toks[|toks| - 1].text == k then 1 else 0)
  }

  /** The distinct texts of `toks`. */
  function TextsOf(toks: seq<Token>): set<string> {
    set i | 0 <= i < |toks| :: toks[i].text
  }

  /** The map `word_frequency` is meant to build: one key per distinct token
      text that is not excluded, mapped to its number of occurrences. */
  function Frequencies(cfg: Config, toks: seq<Token>): map<string, nat> {
    map k | k in TextsOf(toks) && !Excluded(cfg, k) :: Occurrences(toks, k)
  }

  /** A text occurs at least once exactly when some token carries it. */
  lemma {:induction false} OccurrencesPositive(toks: seq<Token>, k: string)
    ensures Occurrences(toks, k) > 0 <==> k in TextsOf(toks)
  {
    if toks != [] {
      var init := toks[..|toks| - 1];
      OccurrencesPositive(init, k);
      assert TextsOf(toks) == TextsOf(init) + {toks[|toks| - 1].text} by {
        forall t | t in TextsOf(toks) ensures t in TextsOf(init) + {toks[|toks| - 1].text} {
          var i :| 0 <= i < |toks| && toks[i].text == t;
          if i < |toks| - 1 {
            assert init[i] == toks[i];
          }
        }
        forall t | t in TextsOf(init) ensures t in TextsOf(toks) {
          var i :| 0 <= i < |init| && init[i].text == t;
          assert toks[i] == init[i];
        }
      }
    }
  }

  /** The frequency map's keys are exactly the texts of tokens that are not
      excluded (no excluded token ever gets a key), and each key counts the
      tokens whose text is exactly that key, so it is at least 1. Tokens
      differing only in case are counted under different keys. */
  lemma FrequenciesMeaning(cfg: Config, toks: seq<Token>, k: string)
    ensures k in Frequencies(cfg, toks) <==>
      (exists i :: 0 <= i < |toks| && toks[i].text == k) && !Excluded(cfg, k)
    ensures k in Frequencies(cfg, toks) ==>
      Frequencies(cfg, toks)[k] == Occurrences(toks, k) >= 1
  {
    OccurrencesPositive(toks, k);
  }

  /** Every count in a frequency map is positive. */
  lemma FrequenciesPositive(cfg: Config, toks: seq<Token>)
    ensures forall k :: k in Frequencies(cfg, toks) ==> Frequencies(cfg, toks)[k] >= 1
  {
    forall k | k in Frequencies(cfg, toks) ensures Frequencies(cfg, toks)[k] >= 1 {
      FrequenciesMeaning(cfg, toks, k);
    }
  }

  /** Every token is excluded from the counts. */
  predicate AllExcluded(cfg: Config, toks: seq<Token>) {
    forall i :: 0 <= i < |toks| ==> Excluded(cfg, toks[i].text)
  }

  /** The frequency map is empty exactly when every token is excluded. */
  lemma FrequenciesEmpty(cfg: Config, toks: seq<Token>)
    ensures Frequencies(cfg, toks) == map[] <==> AllExcluded(cfg, toks)
  {
    if Frequencies(cfg, toks) == map[] {
      forall i | 0 <= i < |toks| ensures Excluded(cfg, toks[i].text) {
        FrequenciesMeaning(cfg, toks, toks[i].text);
      }
    } else {
      var k :| k in Frequencies(cfg, toks);
      FrequenciesMeaning(cfg, toks, k);
    }
  }

  /** One more token: an excluded one changes nothing, any other adds one to
      the count under its own text (starting from 0 for a new key). */
  lemma FrequenciesStep(cfg: Config, toks: seq<Token>, i: nat)
    requires i < |toks|
    ensures var t := toks[i].text; var before := Frequencies(cfg, toks[..i]);
      Frequencies(cfg, toks[..i + 1]) ==
        if Excluded(cfg, t) then before
        else before[t := (if t in before then before[t] else 0) + 1]
  {
    var t := toks[i].text;
    var pre, post := toks[..i], toks[..i + 1];
    assert post[..i] == pre;
    var before, after := Frequencies(cfg, pre), Frequencies(cfg, post);
    assert TextsOf(post) == TextsOf(pre) + {t} by {
      forall u | u in TextsOf(post) ensures u in TextsOf(pre) + {t} {
        var j :| 0 <= j < |post| && post[j].text == u;
        if j < i {
          assert pre[j] == post[j];
        }
      }
      forall u | u in TextsOf(pre) ensures u in TextsOf(post) {
        var j :| 0 <= j < |pre| && pre[j].text == u;
        assert post[j] == pre[j];
      }
    }
    if !Excluded(cfg, t) && t !in before {
      OccurrencesPositive(pre, t);
    }
  }

  /** `word_frequency(doc)`: a single pass over the document's tokens,
      adding one to the count of each token that survives the exclusion. */
  method WordFrequency(cfg: Config, doc: seq<Sentence>) returns (freq: map<string, nat>)
    ensures freq == Frequencies(cfg, Tokens(doc))
  {
    var toks := Tokens(doc);
    freq := map[];
    var i := 0;
    while i < |toks|
      invariant 0 <= i <= |toks|
      invariant freq == Frequencies(cfg, toks[..i])
    {
      var t := toks[i].text;
      if Lower(t) !in cfg.stopwords && !Contains(cfg.punctuation, Lower(t)) {
        freq := freq[t := (if t in freq then freq[t] else 0) + 1];
      }
      FrequenciesStep(cfg, toks, i);
      i := i + 1;
    }
    assert toks[..i] == toks;
  }
}
