/** Top repliers: every reply to a flagged question is one vote for its
    sender, and the result is `most_common(top_n)` of those votes. */
module Replies {
  import opened Wrappers
  import opened Messages
  import opened Questions
  import opened MostCommon

  /** `msg.get('reply_to_message_id')` is truthy (present and non-zero) and
      names a flagged id. */
  predicate CastsVote(m: Message, flagged: set<int>) {
    m.replyTo.Some? && m.replyTo.value != 0 && m.replyTo.value in flagged
  }

  /** The `users` list: the senders of the voting messages, in order. */
  function Votes(msgs: seq<Message>, flagged: set<int>): seq<string> {
    if msgs == [] then []
    else
      var last := msgs[|msgs| - 1];
      Votes(msgs[..|msgs| - 1], flagged) + (if CastsVote(last, flagged) then [last.sender] else [])
  }

  /** The result of `get_top_users(top_n)` on a message list. */
  function TopUsers(msgs: seq<Message>, sentTokenize: string -> seq<string>, topN: int): seq<Entry> {
    MostCommonOf(Votes(msgs, Flagged(msgs, sentTokenize)), topN)
  }

  /** Votes are collected message by message, in order. */
  lemma {:induction false} VotesConcat(a: seq<Message>, b: seq<Message>, flagged: set<int>)
    ensures Votes(a + b, flagged) == Votes(a, flagged) + Votes(b, flagged)
  {
    if b == [] {
      assert a + b == a;
    } else {
      assert (a + b)[..|a + b| - 1] == a + b[..|b| - 1];
      VotesConcat(a, b[..|b| - 1], flagged);
    }
  }

  /** A sender has a vote exactly when one of its messages casts one. */
  lemma {:induction false} VotesMembers(msgs: seq<Message>, flagged: set<int>, x: string)
    ensures x in Votes(msgs, flagged) <==>
            exists j :: 0 <= j < |msgs| && msgs[j].sender == x && CastsVote(msgs[j], flagged)
  {
    if msgs != [] {
      var p := msgs[..|msgs| - 1];
      VotesMembers(p, flagged, x);
      if x in Votes(p, flagged) {
        var j :| 0 <= j < |p| && p[j].sender == x && CastsVote(p[j], flagged);
        assert msgs[j] == p[j];
      }
      forall j | 0 <= j < |msgs| && msgs[j].sender == x && CastsVote(msgs[j], flagged)
        ensures x in Votes(msgs, flagged)
      {
        if j < |p| {
          assert p[j] == msgs[j];
        }
      }
    }
  }

  /** Votes read only ids, senders and reply targets, so rebuilding texts in
      place does not change them. */
  lemma {:induction false} VotesNormalized(msgs: seq<Message>, flagged: set<int>)
    ensures Votes(NormalizeAll(msgs), flagged) == Votes(msgs, flagged)
  {
    if msgs != [] {
      assert NormalizeAll(msgs)[..|msgs| - 1] == NormalizeAll(msgs[..|msgs| - 1]);
      VotesNormalized(msgs[..|msgs| - 1], flagged);
    }
  }

  /** A reply whose target id no message carries casts no vote. */
  lemma DanglingReplyNoVote(msgs: seq<Message>, sentTokenize: string -> seq<string>, m: Message)
    requires m.replyTo.Some?
    requires forall j :: 0 <= j < |msgs| ==> msgs[j].id != m.replyTo.value
    ensures !CastsVote(m, Flagged(msgs, sentTokenize))
  {
    FlaggedIff(msgs, sentTokenize, m.replyTo.value);
  }

  /** A reply to message id 0 never votes, even when id 0 is a question. */
  lemma ReplyToZeroNoVote(m: Message, flagged: set<int>)
    requires m.replyTo == Some(0)
    ensures !CastsVote(m, flagged)
  {
  }

  /** An empty chat has no top users. */
  lemma TopUsersEmpty(sentTokenize: string -> seq<string>, topN: int)
    ensures TopUsers([], sentTokenize, topN) == []
  {
  }

  /** A question by A answered once by B gives `{"B": 1}`. */
  lemma TopUsersScenario(sentTokenize: string -> seq<string>)
    requires HasQuestion(sentTokenize("Is this true?"))
    ensures TopUsers([Message(1, "A", None, Plain("Is this true?")),
                      Message(2, "B", Some(1), Plain("yes"))], sentTokenize, 10) == [("B", 1)]
  {
    var q := Message(1, "A", None, Plain("Is this true?"));
    var a := Message(2, "B", Some(1), Plain("yes"));
    ScenarioVotes(q, a, sentTokenize);
    SingleVoter("B", 10);
  }

  lemma ScenarioVotes(q: Message, a: Message, sentTokenize: string -> seq<string>)
    requires q == Message(1, "A", None, Plain("Is this true?"))
    requires a == Message(2, "B", Some(1), Plain("yes"))
    requires HasQuestion(sentTokenize("Is this true?"))
    ensures Votes([q, a], Flagged([q, a], sentTokenize)) == ["B"]
  {
    var msgs := [q, a];
    assert msgs[..1] == [q] && [q][..0] == [];
    var f := Flagged(msgs, sentTokenize);
    assert IsQuestionMsg(q, sentTokenize);
    assert 1 in Flagged([q], sentTokenize);
    assert 1 in f;
    assert Votes([q], f) == [];
  }

  /** One vote by one sender, with room for it: that sender with count 1. */
  lemma SingleVoter(x: string, n: int)
    requires n >= 1
    ensures MostCommonOf([x], n) == [(x, 1)]
  {
    var users := [x];
    assert users[..0] == [];
    assert Distinct(users) == [x];
    assert Count(users, x) == 1;
    assert Tally(users) == [(x, 1)];
    assert SortByCount([(x, 1)]) == [(x, 1)] by {
      assert [(x, 1)][..0] == [];
    }
  }
}
