# Telegram chat statistics, modelled in Dafny

This project models the message-processing core of `ChatStatistics`, the class that computes statistics over a Telegram chat export. It covers four steps:

- `rebuild_msg` flattens a segmented `text` field into one string.
- The question index flags every message id that has a sentence with `?` or `؟`. The standalone `msg_has_question` check answers true for every message.
- `get_top_users` counts replies to flagged questions per sender and returns `Counter(...).most_common(top_n)`.
- `generate_word_cloud` builds its text by stopword filtering and accumulation before the text is normalized and rendered.

Modules, one per component:

- `Wrappers` (`wrappers.dfy`): `Option`.
- `Messages` (`messages.dfy`): the message record.
  - A `text` field is `Plain(string)` or `Segmented(seq<Segment>)`.
  - A `Segment` is `Str(string)` or `Rec(text: Option<string>)`.
  - Also holds the flattening function `Rebuild` and the in-place normalization `Normalize`.
- `Questions` (`questions.dfy`): the question-mark test, the sentence scan, and `Flagged`, the ids the question index maps to true.
- `MostCommon` (`most_common.dfy`): `Counter.most_common(n)`.
  - The tally holds the distinct senders in first-occurrence order with their counts.
  - The tally is stably insertion-sorted by descending count and cut to `n`.
  - `most_common(n)` calls `heapq.nlargest`. For `n >= 0` that returns the same list as `sorted(..., reverse=True)[:n]`.
  - For `n < 0`, `heapq.nlargest` returns the empty list, so every non-positive `n` gives the empty list.
- `Replies` (`replies.dfy`): which messages cast a vote, the vote list, and `TopUsers`, the result of `get_top_users`.
- `WordCloud` (`word_cloud.dfy`): the stopword filter, `' '.join`, and the accumulated text.
- `Stats` (`stats.dfy`): class `ChatStatistics`.
  - `messages` is a `seq<Message>` field that the methods reassign where the source writes `msg['text']`.
  - The stopword set and the tokenizers `sent_tokenize` and `word_tokenize` are `const` fields. The tokenizers are fields of function type and are otherwise unconstrained.
  - The methods are imperative, with the source's loops, `continue`s and `break`. Each is proved against the specification functions of the modules above.

`get_top_users` is modelled as `GetTopUsers`. It calls `BuildQuestionIndex` (the first loop, lines 66-77), then `CollectVotes` (the second loop, lines 81-88), then `MostCommonOf` (line 89). The inner sentence scan with its `break` is `ScanSentences`. In the vote loop, looking up an absent id in the `defaultdict(bool)` inserts `False`; `CollectVotes` does the same to its own copy of the index.

Two places where the code decides what the design leaves open, and the model follows the code:

- Each plain-string message adds a leading space, including the first message and a message whose tokens were all filtered out. There is no separator between contributions besides each contribution's own leading space.
- Segmented texts are skipped by the word-cloud loop only until `get_top_users` or `msg_has_question` has rebuilt them in place. After that call they are plain strings and are included (`WordCloud.CloudTextAfterRebuild`).

## Model

| member | source | states |
|---|---|---|
| `Messages.RebuildConcat` | src/chat_statistics/stats.py:37-43 | rebuilding the concatenation of two segment lists gives the concatenation of their rebuilt strings |
| `Messages.RebuildKeepsStringVerbatim` | src/chat_statistics/stats.py:39-40 | a string segment appears verbatim, in its place, between what the segments before and after it contribute |
| `Messages.RebuildRecord` | src/chat_statistics/stats.py:41-42 | a record contributes its `text` value in place; a record without `text` contributes nothing |
| `Messages.RebuildExample` | src/chat_statistics/stats.py:36-43 | `[{"text": "a"}, "b", {"other": 1}, "c"]` rebuilds to `"abc"` |
| `Messages.Normalize` | src/chat_statistics/stats.py:48-49 | after the in-place update the text is a plain string with the same content as before; id, sender and reply target are unchanged; an already-plain message is unchanged |
| `Messages.NormalizeAllFacts` | src/chat_statistics/stats.py:67-69 | after the loop every text is plain, every text's content is preserved, plain messages are untouched, and a second pass changes nothing |
| `Questions.ScanSentences` | src/chat_statistics/stats.py:72-77 | the scan reports a match exactly when some sentence contains `?` or `؟` |
| `Questions.FlaggedIff` | src/chat_statistics/stats.py:66-77 | an id is flagged iff some message with that id has a sentence with a question mark in its rebuilt text; unseen ids read as false |
| `Questions.FlaggedNormalized` | src/chat_statistics/stats.py:67-71 | rebuilding texts in place does not change which ids are flagged |
| `Questions.SegmentedQuestionFlagged` | src/chat_statistics/stats.py:68-77 | a message whose text is `[{"text": "weather?"}]` is flagged through its rebuilt text |
| `Questions.DetectorCounterexample` | src/chat_statistics/stats.py:51-56 | a message whose only sentence is "yes" is not a question, yet `msg_has_question` answers true for it |
| `MostCommon.FirstIndexSpec` | src/chat_statistics/stats.py:89 | the tie-break index is the position of a sender's first vote, or the list length if the sender never votes |
| `MostCommon.SortRanked` | src/chat_statistics/stats.py:89 | stably sorting a first-occurrence-ordered tally by descending count orders it by count, with ties in first-occurrence order |
| `MostCommon.SortedTally` | src/chat_statistics/stats.py:89 | the sorted tally has one entry per distinct sender, each with its exact count, and every voter appears in it |
| `MostCommon.MostCommonSize` | src/chat_statistics/stats.py:89 | `most_common(n)` has `min(n, number of senders)` entries, none when `n <= 0`, so never more than `n` |
| `MostCommon.MostCommonCounts` | src/chat_statistics/stats.py:89 | every entry is a sender that voted, paired with its exact number of votes |
| `MostCommon.MostCommonOrder` | src/chat_statistics/stats.py:89 | counts are non-increasing; entries with equal counts are ordered by first vote; no sender appears twice |
| `MostCommon.MostCommonOmitted` | src/chat_statistics/stats.py:89 | a sender left out is outranked by every listed sender: a lower count, or an equal count with a later first vote |
| `MostCommon.MostCommonEmpty` | src/chat_statistics/stats.py:89 | no votes give an empty result |
| `Replies.VotesConcat` | src/chat_statistics/stats.py:81-88 | votes are collected message by message in list order |
| `Replies.VotesMembers` | src/chat_statistics/stats.py:82-88 | a sender has a vote iff one of its messages has a truthy reply id that names a flagged id |
| `Replies.VotesNormalized` | src/chat_statistics/stats.py:82-88 | rebuilding texts in place does not change the votes |
| `Replies.DanglingReplyNoVote` | src/chat_statistics/stats.py:83-86 | a reply to an id that no message carries casts no vote |
| `Replies.ReplyToZeroNoVote` | src/chat_statistics/stats.py:83-84 | a `reply_to_message_id` of 0 is falsy and casts no vote |
| `Replies.TopUsersEmpty` | src/chat_statistics/stats.py:81-89 | an empty chat has no top users |
| `Replies.SingleVoter` | src/chat_statistics/stats.py:89 | a single vote gives its sender with count 1 |
| `Replies.TopUsersScenario` | src/chat_statistics/stats.py:66-89 | a question `"Is this true?"` by A answered by B gives `{"B": 1}` for `top_n=10` |
| `WordCloud.KeepTokensMembers` | src/chat_statistics/stats.py:108 | the surviving tokens are exactly the message's tokens that are not stopwords |
| `WordCloud.KeepTokensAllStopwords` | src/chat_statistics/stats.py:108 | a token list made only of stopwords leaves nothing |
| `WordCloud.KeepTokensConcat` | src/chat_statistics/stats.py:108 | the filter keeps token order |
| `WordCloud.JoinCons` | src/chat_statistics/stats.py:109 | `' '.join` puts exactly one separator between neighbouring tokens |
| `WordCloud.CloudTextSnoc` | src/chat_statistics/stats.py:105-109 | each message appends its own contribution to the text |
| `WordCloud.CloudTextConcat` | src/chat_statistics/stats.py:105-109 | the text of a concatenated message list is the concatenation of the texts |
| `WordCloud.CloudTextSkipsSegmented` | src/chat_statistics/stats.py:106 | a message with segmented text adds nothing, wherever it stands |
| `WordCloud.PlainContribution` | src/chat_statistics/stats.py:106-109 | a plain message adds a leading space and then only its own non-stopword tokens; if all its tokens are stopwords it adds exactly `" "` |
| `WordCloud.CloudTextAfterRebuild` | src/chat_statistics/stats.py:105-109 | once texts have been rebuilt in place, every message adds a space and its rebuilt text's non-stopword tokens |
| `WordCloud.SegmentedScenario` | src/chat_statistics/stats.py:105-109 | `[{"text": "weather?"}]` is absent from the text before the in-place rebuild and present after it |
| `Stats.ChatStatistics.constructor` | src/chat_statistics/stats.py:17-33 | the object holds the loaded messages, the stopword set and the tokenizers |
| `Stats.ChatStatistics.RebuildMsg` | src/chat_statistics/stats.py:36-43 | the `+=` loop returns `Rebuild` of the segments |
| `Stats.ChatStatistics.MsgHasQuestion` | src/chat_statistics/stats.py:45-56 | answers true for every message; only that message's text is replaced by its rebuilt string |
| `Stats.ChatStatistics.BuildQuestionIndex` | src/chat_statistics/stats.py:66-77 | every text is rebuilt in place; the index maps exactly the flagged ids to true |
| `Stats.ChatStatistics.CollectVotes` | src/chat_statistics/stats.py:81-88 | the `users` list is the in-order list of votes for the ids the index maps to true |
| `Stats.ChatStatistics.GetTopUsers` | src/chat_statistics/stats.py:58-89 | `top_n` defaults to 10; the result is `TopUsers` of the messages as they were; afterwards every message is normalized and nothing else changed |
| `Stats.MsgHasQuestionCounterexample` | src/chat_statistics/stats.py:51-56 | on a chat holding one message "yes", whose only sentence is "yes", `msg_has_question` answers true although the message is not a question |
| `Stats.ChatStatistics.WordCloudText` | src/chat_statistics/stats.py:103-109 | the accumulated text is `CloudText` of the current messages, tokenizer and stopwords |

## Findings

| source | as written | input that shows it | evidently intended | confidence | as-written member | corrected member |
|---|---|---|---|---|---|---|
| src/chat_statistics/stats.py:51-56 | the sentence loop only `continue`s and the method then returns `True` | a message with text `"yes"` whose only sentence is `"yes"`: the answer is true | true iff some sentence contains `?` or `؟`, as the inline index of `get_top_users` computes | high; not executed | `Stats.ChatStatistics.MsgHasQuestion` (discrepancy in `Stats.MsgHasQuestionCounterexample`) | `Questions.ScanSentences` |

## Left out

- File and JSON loading, and reading, stripping and normalizing the stopword file (src/chat_statistics/stats.py:24-25, 31-33): I/O plus an external normalizer. The constructor takes the loaded messages and stopword set as values.
- The internals of `sent_tokenize` and `word_tokenize`: external library code. They are `const` fields of function type and are otherwise unconstrained.
- The final normalization, `arabic_reshaper.reshape` and `get_display` (src/chat_statistics/stats.py:112-114): foreign library calls. `WordCloudText` stops at the text they receive.
- Rendering with `WordCloud` and `to_file` (src/chat_statistics/stats.py:118-126): external renderer and file output. The `width`, `height` and `max_font_size` parameters that are never forwarded to the renderer are not modelled.
- Logging and the `__main__` block (src/chat_statistics/stats.py:129-135): output only.
- The source raises `KeyError` for a missing `text` on any message (src/chat_statistics/stats.py:68, 106), a missing `id` on a message with a question sentence (line 76), and a missing `from` on a voting message (line 88). The model's message type always carries these keys, so those error paths are not modelled.
- A record with no `from` that casts no vote, such as a service message, goes through the source without error. The model represents it with any placeholder `sender`; `sender` is read only for voting messages, so the placeholder never reaches the result.
- A record segment whose `text` value is not a string makes `+=` raise `TypeError` in the source. The model's segment text is always a string when present.
- Stats.ChatStatistics.MsgHasQuestion: the message is identified by its position in the loaded list. A message dictionary outside the chat data, and the aliasing of shared dictionaries, are not modelled.
- Messages are values. Writing `msg['text']` is modelled as replacing that list element by its updated record.
- The heap-based selection inside `Counter.most_common` is not modelled. `MostCommonOf` is the equivalent stable sort followed by a cut.
