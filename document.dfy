/** What the summariser receives from the language pipeline, and its
    configuration. The pipeline itself (tokenisation, sentence splitting) is
    not modelled: a document arrives already split into sentences, each with
    its surface text and its tokens. */
module Document {
  import opened Text

  /** A token; only its surface text matters to the summariser. */
  datatype Token = Token(text: string)

  /** A sentence: its surface text (used to build the summary) and its
      tokens. A sentence is identified by its position in the document. */
  datatype Sentence = Sentence(text: string, tokens: seq<Token>)

  /** The word lists consulted while counting: a list of stopwords (tested
      by list membership) and a punctuation string (tested as a substring). */
  datatype Config = Config(stopwords: seq<string>, punctuation: string)

  /** Python's `string.punctuation` with a newline appended. */
  const PunctuationWithNewline: string := "!\"#$%&'()*+,-./:;<=>?@[\\]^_`{|}~\n"

  /** The configuration the helper module builds at import time: the given
      stopword list and `PunctuationWithNewline`. */
  function HelperConfig(stopwords: seq<string>): (cfg: Config)
    ensures cfg.stopwords == stopwords && |cfg.punctuation| == 33
    ensures cfg.punctuation[|cfg.punctuation| - 1] == '\n'
  {
    Config(stopwords, PunctuationWithNewline)
  }

  /** The error the summariser can raise: nothing survived the exclusion,
      so the maximum count of an empty frequency map is undefined. */
  datatype Error = NoScorableContent

  datatype Result<T> = Success(value: T) | Failure(error: Error)

  /** A token text is left out of the counts when its lower-case form is a
      stopword or occurs anywhere inside the punctuation string. */
  predicate Excluded(cfg: Config, text: string) {
    Lower(text) in cfg.stopwords || Contains(cfg.punctuation, Lower(text))
  }

  /** Exclusion only looks at the lower-case form, so a text and its
      lower-case form are excluded together; every single punctuation mark,
      every run of neighbouring marks and the empty token are excluded. */
  lemma {:induction false} ExcludedCases(cfg: Config, text: string, i: int)
    ensures Excluded(cfg, text) <==> Excluded(cfg, Lower(text))
    ensures OccursAt(cfg.punctuation, Lower(text), i) ==> Excluded(cfg, text)
    ensures text == "" ==> Excluded(cfg, text)
  {
    LowerIdempotent(text);
    ContainsIff(cfg.punctuation, Lower(text));
    if text == "" {
      assert OccursAt(cfg.punctuation, Lower(text), 0);
    }
  }

  /** The default punctuation string excludes, among others, the newline
      token and the two-character token "()". */
  lemma DefaultPunctuation(stopwords: seq<string>)
    ensures Excluded(HelperConfig(stopwords), "\n")
    ensures Excluded(HelperConfig(stopwords), "()")
  {
    NewlineExcluded(HelperConfig(stopwords));
    ParenthesesExcluded(HelperConfig(stopwords));
  }

  lemma NewlineExcluded(cfg: Config)
    requires cfg.punctuation == PunctuationWithNewline
    ensures Excluded(cfg, "\n")
  {
    assert Lower("\n") == "\n";
    assert OccursAt(cfg.punctuation, "\n", 32);
    ExcludedCases(cfg, "\n", 32);
  }

  lemma ParenthesesExcluded(cfg: Config)
    requires cfg.punctuation == PunctuationWithNewline
    ensures Excluded(cfg, "()")
  {
    assert Lower("()") == "()";
    assert cfg.punctuation[7] == '(' && cfg.punctuation[8] == ')';
    assert cfg.punctuation[7..9] == "()";
    ExcludedCases(cfg, "()", 7);
  }

  /** The tokens of the whole document, in order: the sentences partition
      the document's tokens. */
  function Tokens(doc: seq<Sentence>): seq<Token> {
    if doc == [] then [] else Tokens(doc[..|doc| - 1]) + doc[|doc| - 1].tokens
  }

  /** Every token of every sentence is a token of the document. */
  lemma {:induction false} TokenOfSentence(doc: seq<Sentence>, i: nat, j: nat)
    requires i < |doc| && j < |doc[i].tokens|
    ensures doc[i].tokens[j] in Tokens(doc)
  {
    var last := |doc| - 1;
    if i < last {
      TokenOfSentence(doc[..last], i, j);
    } else {
      assert Tokens(doc)[|Tokens(doc[..last])| + j] == doc[i].tokens[j];
    }
  }
}
