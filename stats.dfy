/** The `ChatStatistics` object: the loaded messages (which `get_top_users`
    and `msg_has_question` update in place), the stopword set and the two
    tokenizers of the external NLP library, taken as given functions. */
module Stats {
  import opened Wrappers
  import opened Messages
  import opened Questions
  import opened MostCommon
  import opened Replies
  import opened WordCloud

  /** The ids an index maps to true; absent ids read as false. */
  function TrueKeys(index: map<int, bool>): set<int> {
    set k | k in index && index[k]
  }

  class ChatStatistics {
    /** `chat_data['messages']`. */
    var messages: seq<Message>
    /** The normalized stopwords read at construction. */
    const stopWords: set<string>
    /** The library's `sent_tokenize`. */
    const sentTokenize: string -> seq<string>
    /** The library's `word_tokenize`. */
    const wordTokenize: string -> seq<string>

    /** The object after loading: the messages and stopwords as read. */
    constructor (messages: seq<Message>, stopWords: set<string>,
                 sentTokenize: string -> seq<string>, wordTokenize: string -> seq<string>)
      ensures this.messages == messages && this.stopWords == stopWords
      ensures this.sentTokenize == sentTokenize && this.wordTokenize == wordTokenize
    {
      this.messages := messages;
      this.stopWords := stopWords;
      this.sentTokenize := sentTokenize;
      this.wordTokenize := wordTokenize;
    }

    /** `rebuild_msg`: concatenate the segments left to right. */
    static method RebuildMsg(subMessages: seq<Segment>) returns (msgText: string)
      ensures msgText == Rebuild(subMessages)
    {
      msgText := "";
      for i := 0 to |subMessages|
        invariant msgText == Rebuild(subMessages[..i])
      {
        assert subMessages[..i + 1][..i] == subMessages[..i];
        match subMessages[i]
        case Str(s) =>
          msgText := msgText + s;
        case Rec(t) =>
          if t.Some? {
            msgText := msgText + t.value;
          }
      }
      assert subMessages[..|subMessages|] == subMessages;
    }

    /** `msg_has_question` on the message at position `i`: rebuilds its text
        in place, scans its sentences without acting on a match, and answers
        true whatever the text. */
    method MsgHasQuestion(i: nat) returns (r: bool)
      requires i < |messages|
      modifies this
      ensures r
      ensures messages == old(messages)[i := Normalize(old(messages)[i])]
    {
      if !messages[i].text.Plain? {
        var rebuilt := RebuildMsg(messages[i].text.items);
        messages := messages[i := messages[i].(text := Plain(rebuilt))];
      }
      var sentences := sentTokenize(messages[i].text.s);
      for k := 0 to |sentences| {
        if ('?' !in sentences[k]) && (ArabicQuestionMark !in sentences[k]) {
          continue;
        }
      }
      return true;
    }

    /** `get_top_users(top_n)`: build the question index (rebuilding every
        segmented text in place), collect one vote per reply to a flagged
        id, and return the `top_n` most common voters. */
    method GetTopUsers(topN: int := 10) returns (top: seq<Entry>)
      modifies this
      ensures messages == NormalizeAll(old(messages))
      ensures top == TopUsers(old(messages), sentTokenize, topN)
    {
      ghost var msgs0 := messages;
      var isQuestion := BuildQuestionIndex();
      assert forall k :: k in TrueKeys(isQuestion) <==> k in isQuestion.Keys;
      assert TrueKeys(isQuestion) == Flagged(msgs0, sentTokenize);
      var users := CollectVotes(isQuestion);
      VotesNormalized(msgs0, Flagged(msgs0, sentTokenize));
      top := MostCommonOf(users, topN);
    }

    /** The first loop of `get_top_users`: every segmented text is replaced
        by its rebuilt string, and the index maps to true exactly the ids of
        messages that have a sentence with a question mark. */
    method BuildQuestionIndex() returns (isQuestion: map<int, bool>)
      modifies this
      ensures messages == NormalizeAll(old(messages))
      ensures isQuestion.Keys == Flagged(old(messages), sentTokenize)
      ensures forall k :: k in isQuestion ==> isQuestion[k]
    {
      ghost var msgs0 := messages;
      isQuestion := map[];
      for i := 0 to |messages|
        invariant |messages| == |msgs0|
        invariant forall j :: 0 <= j < i ==> messages[j] == Normalize(msgs0[j])
        invariant forall j :: i <= j < |messages| ==> messages[j] == msgs0[j]
        invariant isQuestion.Keys == Flagged(msgs0[..i], sentTokenize)
        invariant forall k :: k in isQuestion ==> isQuestion[k]
      {
        assert msgs0[..i + 1][..i] == msgs0[..i];
        if !messages[i].text.Plain? {
          var rebuilt := RebuildMsg(messages[i].text.items);
          messages := messages[i := messages[i].(text := Plain(rebuilt))];
        }
        var sentences := sentTokenize(messages[i].text.s);
        var found := ScanSentences(sentences);
        if found {
          isQuestion := isQuestion[messages[i].id := true];
        }
      }
      assert msgs0[..|msgs0|] == msgs0;
      assert messages == NormalizeAll(msgs0);
    }

    /** The second loop of `get_top_users`: one vote for `from` per message
        whose truthy `reply_to_message_id` reads true in the index. A lookup
        of an absent id inserts false, as `defaultdict(bool)` does. */
    method CollectVotes(isQuestion: map<int, bool>) returns (users: seq<string>)
      ensures users == Votes(messages, TrueKeys(isQuestion))
    {
      ghost var flagged := TrueKeys(isQuestion);
      var index := isQuestion;
      users := [];
      for i := 0 to |messages|
        invariant TrueKeys(index) == flagged
        invariant users == Votes(messages[..i], flagged)
      {
        assert messages[..i + 1][..i] == messages[..i];
        var msg := messages[i];
        if msg.replyTo.None? || msg.replyTo.value == 0 {
          continue;
        }
        var replyId := msg.replyTo.value;
        if replyId !in index {
          index := index[replyId := false];
        }
        if !index[replyId] {
          continue;
        }
        users := users + [msg.sender];
      }
      assert messages[..|messages|] == messages;
    }

    /** The accumulation loop of `generate_word_cloud`: the text handed to
        normalization, reshaping and rendering. */
    method WordCloudText() returns (textContent: string)
      ensures textContent == CloudText(messages, wordTokenize, stopWords)
    {
      textContent := "";
      for i := 0 to |messages|
        invariant textContent == CloudText(messages[..i], wordTokenize, stopWords)
      {
        assert messages[..i + 1][..i] == messages[..i];
        var msg := messages[i];
        if msg.text.Plain? {
          var tokens := wordTokenize(msg.text.s);
          tokens := KeepTokens(tokens, stopWords);
          textContent := textContent + " " + Join(" ", tokens);
        }
      }
      assert messages[..|messages|] == messages;
    }
  }

  /** The standalone detector on a chat holding one message "yes", whose only
      sentence is "yes": it answers true, although that message is not a
      question. */
  method MsgHasQuestionCounterexample(sentTokenize: string -> seq<string>) returns (reported: bool)
    requires sentTokenize("yes") == ["yes"]
    ensures reported && !IsQuestionMsg(Message(1, "B", None, Plain("yes")), sentTokenize)
  {
    var stats := new ChatStatistics([Message(1, "B", None, Plain("yes"))], {}, sentTokenize, sentTokenize);
    reported := stats.MsgHasQuestion(0);
    DetectorCounterexample(sentTokenize);
  }
}
