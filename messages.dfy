/** The records of a Telegram chat export that the statistics read, and the
    flattening of a segmented text field into one string (`rebuild_msg`). */
module Messages {
  import opened Wrappers

  /** One item of a segmented text field: a bare string, or an entity record
      (link, mention, bold run, ...) that may or may not carry a `text` key. */
  datatype Segment = Str(s: string) | Rec(text: Option<string>)

  /** A message's `text` field: either a plain string or a list of segments. */
  datatype TextField = Plain(s: string) | Segmented(items: seq<Segment>)

  /** A message record: its `id`, its `from`, its optional
      `reply_to_message_id` and its `text`. */
  datatype Message = Message(id: int, sender: string, replyTo: Option<int>, text: TextField)

  /** What one segment adds to the rebuilt string: a string verbatim, a
      record its `text` value, a record without `text` nothing. */
  function Piece(seg: Segment): string {
    match seg
    case Str(s) => s
    case Rec(t) => if t.Some? then t.value else ""
  }

  /** The flattened text of a segment list, built left to right. */
  function Rebuild(items: seq<Segment>): string {
    if items == [] then "" else Rebuild(items[..|items| - 1]) + Piece(items[|items| - 1])
  }

  /** Rebuilding distributes over concatenation of segment lists. */
  lemma {:induction false} RebuildConcat(a: seq<Segment>, b: seq<Segment>)
    ensures Rebuild(a + b) == Rebuild(a) + Rebuild(b)
  {
    if b == [] {
      assert a + b == a;
    } else {
      assert (a + b)[..|a + b| - 1] == a + b[..|b| - 1];
      RebuildConcat(a, b[..|b| - 1]);
    }
  }

  /** A string segment appears verbatim, in place, between what its
      neighbours contribute. */
  lemma RebuildKeepsStringVerbatim(a: seq<Segment>, s: string, b: seq<Segment>)
    ensures Rebuild(a + [Str(s)] + b) == Rebuild(a) + s + Rebuild(b)
  {
    RebuildConcat(a + [Str(s)], b);
    RebuildConcat(a, [Str(s)]);
    assert [Str(s)][..0] == [];
  }

  /** A record's `text` value appears in place; a record without one
      contributes nothing. */
  lemma RebuildRecord(a: seq<Segment>, t: Option<string>, b: seq<Segment>)
    ensures Rebuild(a + [Rec(t)] + b) == Rebuild(a) + (if t.Some? then t.value else "") + Rebuild(b)
  {
    RebuildConcat(a + [Rec(t)], b);
    RebuildConcat(a, [Rec(t)]);
    assert [Rec(t)][..0] == [];
  }

  /** The flattening example `[{"text": "a"}, "b", {"other": 1}, "c"]`. */
  lemma RebuildExample()
    ensures Rebuild([Rec(Some("a")), Str("b"), Rec(None), Str("c")]) == "abc"
  {
    var items := [Rec(Some("a")), Str("b"), Rec(None), Str("c")];
    assert items[..3] == [Rec(Some("a")), Str("b"), Rec(None)];
    assert items[..3][..2] == [Rec(Some("a")), Str("b")];
    assert items[..3][..2][..1] == [Rec(Some("a"))];
    assert [Rec(Some("a"))][..0] == [];
    assert Rebuild([Rec(Some("a"))]) == "a";
    assert Rebuild(items[..3][..2]) == "ab";
    assert Rebuild(items[..3]) == "ab";
  }

  /** The message's text as a string: plain text as is, segments rebuilt. */
  function TextOf(t: TextField): string {
    match t
    case Plain(s) => s
    case Segmented(items) => Rebuild(items)
  }

  /** The in-place update `msg['text'] = rebuild_msg(msg['text'])` applied
      when the text is not already a string. */
  function Normalize(m: Message): (r: Message)
    ensures r.text.Plain? && TextOf(r.text) == TextOf(m.text)
    ensures r.id == m.id && r.sender == m.sender && r.replyTo == m.replyTo
    ensures m.text.Plain? ==> r == m
  {
    if m.text.Plain? then m else m.(text := Plain(Rebuild(m.text.items)))
  }

  /** Every message of the list normalized, in place and in order. */
  function NormalizeAll(msgs: seq<Message>): seq<Message> {
    seq(|msgs|, i requires 0 <= i < |msgs| => Normalize(msgs[i]))
  }

  /** After normalization every text is a plain string, all other fields are
      as before, and normalizing again changes nothing. */
  lemma NormalizeAllFacts(msgs: seq<Message>)
    ensures |NormalizeAll(msgs)| == |msgs|
    ensures forall i :: 0 <= i < |msgs| ==> NormalizeAll(msgs)[i].text.Plain?
    ensures forall i :: 0 <= i < |msgs| ==> TextOf(NormalizeAll(msgs)[i].text) == TextOf(msgs[i].text)
    ensures forall i :: 0 <= i < |msgs| && msgs[i].text.Plain? ==> NormalizeAll(msgs)[i] == msgs[i]
    ensures NormalizeAll(NormalizeAll(msgs)) == NormalizeAll(msgs)
  {
  }
}
