/** The text that `generate_word_cloud` accumulates before normalizing and
    reshaping it: for every message whose text is a plain string, a space
    followed by its non-stopword tokens joined with spaces. */
module WordCloud {
  import opened Wrappers
  import opened Messages

  /** `list(filter(lambda item: item not in stop_words, tokens))`. */
  function KeepTokens(tokens: seq<string>, stopWords: set<string>): seq<string> {
    if tokens == [] then []
    else
      var last := tokens[|tokens| - 1];
      KeepTokens(tokens[..|tokens| - 1], stopWords) + (if last !in stopWords then [last] else [])
  }

  /** `sep.join(parts)`. */
  function Join(sep: string, parts: seq<string>): string {
    if |parts| == 0 then ""
    else if |parts| == 1 then parts[0]
    else Join(sep, parts[..|parts| - 1]) + sep + parts[|parts| - 1]
  }

  /** What one message adds to the text: `f" {' '.join(tokens)}"` for a
      plain-string text, nothing for a segmented one. */
  function Contribution(m: Message, wordTokenize: string -> seq<string>, stopWords: set<string>): string {
    if m.text.Plain? then " " + Join(" ", KeepTokens(wordTokenize(m.text.s), stopWords)) else ""
  }

  /** The accumulated `text_content` after the loop over `msgs`. */
  function CloudText(msgs: seq<Message>, wordTokenize: string -> seq<string>, stopWords: set<string>): string {
    if msgs == [] then ""
    else CloudText(msgs[..|msgs| - 1], wordTokenize, stopWords) + Contribution(msgs[|msgs| - 1], wordTokenize, stopWords)
  }

  /** The surviving tokens are exactly the tokens that are not stopwords. */
  lemma {:induction false} KeepTokensMembers(tokens: seq<string>, stopWords: set<string>)
    ensures forall t :: t in KeepTokens(tokens, stopWords) <==> t in tokens && t !in stopWords
  {
    if tokens != [] {
      var p := tokens[..|tokens| - 1];
      KeepTokensMembers(p, stopWords);
      assert tokens == p + [tokens[|tokens| - 1]];
    }
  }

  /** A token list made only of stopwords leaves nothing. */
  lemma {:induction false} KeepTokensAllStopwords(tokens: seq<string>, stopWords: set<string>)
    requires forall t :: t in tokens ==> t in stopWords
    ensures KeepTokens(tokens, stopWords) == []
  {
    if tokens != [] {
      var p := tokens[..|tokens| - 1];
      assert forall t :: t in p ==> t in tokens;
      KeepTokensAllStopwords(p, stopWords);
    }
  }

  /** Filtering keeps the order of the tokens. */
  lemma {:induction false} KeepTokensConcat(a: seq<string>, b: seq<string>, stopWords: set<string>)
    ensures KeepTokens(a + b, stopWords) == KeepTokens(a, stopWords) + KeepTokens(b, stopWords)
  {
    if b == [] {
      assert a + b == a;
    } else {
      assert (a + b)[..|a + b| - 1] == a + b[..|b| - 1];
      KeepTokensConcat(a, b[..|b| - 1], stopWords);
    }
  }

  /** Joining puts one separator between neighbouring parts. */
  lemma JoinCons(sep: string, x: string, rest: seq<string>)
    requires rest != []
    ensures Join(sep, [x] + rest) == x + sep + Join(sep, rest)
  {
    if |rest| > 1 {
      var p := rest[..|rest| - 1];
      assert ([x] + rest)[..|rest|] == [x] + p;
      JoinCons(sep, x, p);
    } else {
      assert ([x] + rest)[..1] == [x];
    }
  }

  lemma AppendAssoc(x: string, y: string, z: string)
    ensures (x + y) + z == x + (y + z)
  {
  }

  /** Appending a message appends its contribution. */
  lemma CloudTextSnoc(msgs: seq<Message>, m: Message, wordTokenize: string -> seq<string>, stopWords: set<string>)
    ensures CloudText(msgs + [m], wordTokenize, stopWords) == CloudText(msgs, wordTokenize, stopWords) + Contribution(m, wordTokenize, stopWords)
  {
    assert (msgs + [m])[..|msgs|] == msgs;
  }

  /** The text grows message by message, in order. */
  lemma {:induction false} CloudTextConcat(a: seq<Message>, b: seq<Message>, wordTokenize: string -> seq<string>, stopWords: set<string>)
    ensures CloudText(a + b, wordTokenize, stopWords) == CloudText(a, wordTokenize, stopWords) + CloudText(b, wordTokenize, stopWords)
  {
    if b == [] {
      assert a + b == a;
    } else {
      var p, last := b[..|b| - 1], b[|b| - 1];
      assert a + b == (a + p) + [last];
      assert b == p + [last];
      CloudTextSnoc(a + p, last, wordTokenize, stopWords);
      CloudTextSnoc(p, last, wordTokenize, stopWords);
      CloudTextConcat(a, p, wordTokenize, stopWords);
      AppendAssoc(CloudText(a, wordTokenize, stopWords), CloudText(p, wordTokenize, stopWords),
                  Contribution(last, wordTokenize, stopWords));
    }
  }

  /** A message with segmented text adds nothing, wherever it stands. */
  lemma CloudTextSkipsSegmented(a: seq<Message>, m: Message, b: seq<Message>, wordTokenize: string -> seq<string>, stopWords: set<string>)
    requires m.text.Segmented?
    ensures CloudText(a + [m] + b, wordTokenize, stopWords) == CloudText(a + b, wordTokenize, stopWords)
  {
    CloudTextConcat(a + [m], b, wordTokenize, stopWords);
    CloudTextSnoc(a, m, wordTokenize, stopWords);
    assert CloudText(a + [m], wordTokenize, stopWords) == CloudText(a, wordTokenize, stopWords);
    CloudTextConcat(a, b, wordTokenize, stopWords);
  }

  /** A plain message adds one leading space and then only non-stopwords of
      its own tokens; if every token is a stopword it adds just the space. */
  lemma PlainContribution(m: Message, wordTokenize: string -> seq<string>, stopWords: set<string>)
    requires m.text.Plain?
    ensures var c := Contribution(m, wordTokenize, stopWords); |c| >= 1 && c[0] == ' '
    ensures forall t :: t in KeepTokens(wordTokenize(m.text.s), stopWords) ==> t !in stopWords && t in wordTokenize(m.text.s)
    ensures (forall t :: t in wordTokenize(m.text.s) ==> t in stopWords) ==> Contribution(m, wordTokenize, stopWords) == " "
  {
    var tokens := wordTokenize(m.text.s);
    KeepTokensMembers(tokens, stopWords);
    if forall t :: t in tokens ==> t in stopWords {
      KeepTokensAllStopwords(tokens, stopWords);
    }
  }

  /** Once every text has been rebuilt in place, no message is skipped: each
      one adds a space and its rebuilt text's non-stopword tokens. */
  lemma CloudTextAfterRebuild(msgs: seq<Message>, m: Message, wordTokenize: string -> seq<string>, stopWords: set<string>)
    ensures CloudText(NormalizeAll(msgs + [m]), wordTokenize, stopWords) ==
            CloudText(NormalizeAll(msgs), wordTokenize, stopWords) + " " + Join(" ", KeepTokens(wordTokenize(TextOf(m.text)), stopWords))
  {
    var n := NormalizeAll(msgs + [m]);
    assert n[..|msgs|] == NormalizeAll(msgs);
    assert n[|msgs|] == Normalize(m);
  }

  /** The segmented message `[{"text": "weather?"}]` is absent from the text
      until its text has been rebuilt in place. */
  lemma SegmentedScenario(id: int, sender: string, wordTokenize: string -> seq<string>, stopWords: set<string>)
    ensures var m := Message(id, sender, None, Segmented([Rec(Some("weather?"))]));
      CloudText([m], wordTokenize, stopWords) == "" &&
      CloudText(NormalizeAll([m]), wordTokenize, stopWords) == " " + Join(" ", KeepTokens(wordTokenize("weather?"), stopWords))
  {
    var m := Message(id, sender, None, Segmented([Rec(Some("weather?"))]));
    assert [Rec(Some("weather?"))][..0] == [];
    assert [m][..0] == [];
    assert TextOf(m.text) == "weather?";
    CloudTextAfterRebuild([], m, wordTokenize, stopWords);
    assert [] + [m] == [m];
    assert NormalizeAll([]) == [];
  }
}
