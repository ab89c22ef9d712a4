/** Question detection: a sentence is a question when it holds an ASCII or an
    Arabic question mark, and the question index of `get_top_users` flags
    every message id whose text has such a sentence. */
module Questions {
  import opened Wrappers
  import opened Messages

  /** The Arabic question mark U+061F. */
  const ArabicQuestionMark: char := '\U{061F}'

  predicate SentenceHasMark(sentence: string) {
    '?' in sentence || ArabicQuestionMark in sentence
  }

  /** Some sentence of the list holds a question mark. */
  predicate HasQuestion(sentences: seq<string>) {
    exists i :: 0 <= i < |sentences| && SentenceHasMark(sentences[i])
  }

  /** A message is a question when some sentence of its (rebuilt) text, as
      split by the sentence tokenizer, holds a question mark. */
  predicate IsQuestionMsg(m: Message, sentTokenize: string -> seq<string>) {
    HasQuestion(sentTokenize(TextOf(m.text)))
  }

  /** The inner scan of the question index: skip sentences without a mark,
      stop at the first one that has one. */
  method ScanSentences(sentences: seq<string>) returns (found: bool)
    ensures found <==> HasQuestion(sentences)
  {
    found := false;
    var i := 0;
    while i < |sentences|
      invariant 0 <= i <= |sentences|
      invariant forall k :: 0 <= k < i ==> !SentenceHasMark(sentences[k])
    {
      var sentence := sentences[i];
      if ('?' !in sentence) && (ArabicQuestionMark !in sentence) {
        i := i + 1;
        continue;
      }
      found := true;
      break;
    }
  }

  /** The ids the question index maps to true after scanning `msgs` in order. */
  function Flagged(msgs: seq<Message>, sentTokenize: string -> seq<string>): set<int> {
    if msgs == [] then {}
    else
      var last := msgs[|msgs| - 1];
      Flagged(msgs[..|msgs| - 1], sentTokenize) + (if IsQuestionMsg(last, sentTokenize) then {last.id} else {})
  }

  /** An id is flagged exactly when some message with that id is a question;
      ids never seen, or seen only on messages without a question mark, are
      not flagged. */
  lemma {:induction false} FlaggedIff(msgs: seq<Message>, sentTokenize: string -> seq<string>, k: int)
    ensures k in Flagged(msgs, sentTokenize) <==>
            exists j :: 0 <= j < |msgs| && msgs[j].id == k && IsQuestionMsg(msgs[j], sentTokenize)
  {
    if msgs != [] {
      var p := msgs[..|msgs| - 1];
      FlaggedIff(p, sentTokenize, k);
      if k in Flagged(p, sentTokenize) {
        var j :| 0 <= j < |p| && p[j].id == k && IsQuestionMsg(p[j], sentTokenize);
        assert msgs[j] == p[j];
      }
      forall j | 0 <= j < |msgs| && msgs[j].id == k && IsQuestionMsg(msgs[j], sentTokenize)
        ensures k in Flagged(msgs, sentTokenize)
      {
        if j < |p| {
          assert p[j] == msgs[j];
        }
      }
    }
  }

  /** Flagging only looks at the text after rebuilding, so replacing
      segmented texts by their rebuilt strings flags the same ids. */
  lemma {:induction false} FlaggedNormalized(msgs: seq<Message>, sentTokenize: string -> seq<string>)
    ensures Flagged(NormalizeAll(msgs), sentTokenize) == Flagged(msgs, sentTokenize)
  {
    if msgs != [] {
      assert NormalizeAll(msgs)[..|msgs| - 1] == NormalizeAll(msgs[..|msgs| - 1]);
      FlaggedNormalized(msgs[..|msgs| - 1], sentTokenize);
    }
  }

  /** A segmented message is flagged through its rebuilt text: the record
      `{"text": "weather?"}` makes the message a question. */
  lemma SegmentedQuestionFlagged(id: int, sender: string, sentTokenize: string -> seq<string>)
    requires sentTokenize("weather?") == ["weather?"]
    ensures id in Flagged([Message(id, sender, None, Segmented([Rec(Some("weather?"))]))], sentTokenize)
  {
    var m := Message(id, sender, None, Segmented([Rec(Some("weather?"))]));
    assert [Rec(Some("weather?"))][..0] == [];
    assert TextOf(m.text) == "weather?";
    assert SentenceHasMark(sentTokenize(TextOf(m.text))[0]);
    assert [m][..0] == [];
  }

  /** A message whose only sentence is "yes" is not a question, although the
      standalone detector `msg_has_question` reports true for it. */
  lemma DetectorCounterexample(sentTokenize: string -> seq<string>)
    requires sentTokenize("yes") == ["yes"]
    ensures !IsQuestionMsg(Message(1, "B", None, Plain("yes")), sentTokenize)
  {
    assert !SentenceHasMark("yes");
  }
}
