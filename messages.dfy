/** The message queue of src/components/pages/message-context.tsx, through
    which modules send each other text messages, and the file format a
    message names. */
module Messages {
  import opened Wrappers
  import opened Strs

  /** `IMessage`. */
  datatype Message = Message(id: string, source: string, target: string, text: string)

  /** `ISendMessage`: the id may be left out. */
  datatype SendMessage = SendMessage(id: Option<string>, source: string, target: string, text: string)

  /** The `id` of a `remove` action: one string or a list of them. */
  datatype Ids = OneId(id: string) | IdList(ids: seq<string>)

  /** `MessageAction`; `Unknown` stands for any other action type. */
  datatype MessageAction = AddMessage(message: SendMessage) | SetMessage(message: SendMessage)
                         | RemoveMessages(ids: Ids) | ClearMessages | Unknown

  /** `new Set(action.id)`: a string is iterated character by character,
      so a single id becomes the set of its one-character strings. */
  function IdSet(ids: Ids): (r: set<string>)
    ensures ids.IdList? ==> forall id :: id in r <==> id in ids.ids
    ensures ids.OneId? ==> forall id :: id in r <==> |id| == 1 && id[0] in ids.id
  {
    match ids
    case OneId(s) =>
      assert forall id | |id| == 1 && id[0] in s :: id == [s[IndexOf(s, id[0])]];
      set i | 0 <= i < |s| :: [s[i]]
    case IdList(l) => set id | id in l
  }

  /** `{ ...message, id: message.id ?? nanoid() }`. */
  function Stamp(m: SendMessage, freshId: string): Message {
    Message(m.id.GetOr(freshId), m.source, m.target, m.text)
  }

  /** `queue.filter(message => ids.has(message.id))`. */
  function Kept(queue: seq<Message>, ids: set<string>): (r: seq<Message>)
    ensures |r| <= |queue|
  {
    if queue == [] then []
    else Kept(queue[..|queue| - 1], ids) + (if queue[|queue| - 1].id in ids then [queue[|queue| - 1]] else [])
  }

  /** A message stays exactly when its id is among the ids of the
      action, and the kept messages are in queue order. */
  lemma {:induction false} KeptSpec(queue: seq<Message>, ids: set<string>)
    ensures var r := Kept(queue, ids);
            (forall m :: m in r <==> m in queue && m.id in ids) &&
            (forall i | 0 <= i < |r| :: r[i].id in ids)
  {
    if queue != [] {
      var init, last := queue[..|queue| - 1], queue[|queue| - 1];
      KeptSpec(init, ids);
      assert queue == init + [last];
    }
  }

  /** Keeping works message by message: the kept part of a concatenation
      is the kept part of each piece, in order. */
  lemma {:induction false} KeptAppend(a: seq<Message>, b: seq<Message>, ids: set<string>)
    ensures Kept(a + b, ids) == Kept(a, ids) + Kept(b, ids)
    decreases |b|
  {
    if b != [] {
      var init, last := b[..|b| - 1], b[|b| - 1];
      KeptAppend(a, init, ids);
      assert (a + b)[..|a + b| - 1] == a + init;
      assert (a + b)[|a + b| - 1] == last;
    } else {
      assert a + b == a;
    }
  }

  /** `messagesReducer`; `freshId` is the id `nanoid()` would draw. A
      `remove` keeps the messages whose id is named and drops the rest. */
  function MessagesReducer(queue: seq<Message>, action: MessageAction, freshId: string): (r: seq<Message>)
    ensures action.AddMessage? ==>
              |r| == |queue| + 1 && r[..|queue|] == queue &&
              r[|queue|].id == action.message.id.GetOr(freshId) && r[|queue|].text == action.message.text
    ensures action.SetMessage? ==> |r| == 1 && r[0].id == action.message.id.GetOr(freshId)
    ensures action.RemoveMessages? ==> forall m :: m in r <==> m in queue && m.id in IdSet(action.ids)
    ensures action.ClearMessages? ==> r == []
    ensures action.Unknown? ==> r == queue
  {
    match action
    case AddMessage(m) => queue + [Stamp(m, freshId)]
    case SetMessage(m) => [Stamp(m, freshId)]
    case RemoveMessages(ids) =>
      KeptSpec(queue, IdSet(ids));
      Kept(queue, IdSet(ids))
    case ClearMessages => []
    case Unknown => queue
  }

  /** `messageFileFormat`: the text between the first ':' and the next one
      (or the end), when the text holds a ':'; the default otherwise. */
  function MessageFileFormat(text: string, format: string): (r: string)
    ensures ':' !in text ==> r == format
  {
    if ':' in text then Split(text, ':')[1] else format
  }

  /** The format named is the piece right after the first ':': it holds no
      ':', starts right after that ':', and is followed by a ':' or the end. */
  lemma MessageFileFormatSpec(text: string, format: string)
    requires ':' in text
    ensures var i, r := IndexOf(text, ':'), MessageFileFormat(text, format);
            ':' !in r && i + 1 + |r| <= |text| && text[i + 1..i + 1 + |r|] == r &&
            (|text| == i + 1 + |r| || text[i + 1 + |r|] == ':')
  {
    var i := IndexOf(text, ':');
    SplitSecond(text, ':');
    PieceAfter(text, i, text[i + 1..], Split(text[i + 1..], ':')[0]);
  }

  /** The first piece r of t = text[i + 1..]. */
  lemma PieceAfter(text: string, i: nat, t: string, r: string)
    requires i < |text| && t == text[i + 1..] && r == Split(t, ':')[0]
    ensures ':' !in r && i + 1 + |r| <= |text| && text[i + 1..i + 1 + |r|] == r &&
            (|text| == i + 1 + |r| || text[i + 1 + |r|] == ':')
  {
    SplitFirst(t, ':');
    var j := IndexOf(t, ':');
    if j >= 0 {
      assert r == t[..j];
      assert text[i + 1 + j] == t[j];
    } else {
      assert r == t;
    }
  }
}
