/** The chat-log bookkeeping of `src/pages/index.tsx`: what one call of the
    send handler does to the transcript, given how the reply stream behaves,
    and the edit handler used by the settings screen. */
module Chat {
  import opened Common
  import opened Messages
  import Segmenter

  /** How the reply stream turned out. `Streamed` lists the chunks the reader
      delivered; `readFails` says whether the next read threw instead of
      reporting the end of the stream. */
  datatype StreamOutcome = StreamUnavailable | Streamed(chunks: seq<string>, readFails: bool)

  /** The effect of one send: the messages sent to the language model (none
      when the input was rejected), the transcript afterwards, the utterances
      handed to the speaker in order, and the processing flag afterwards. */
  datatype Turn = Turn(request: Option<seq<Message>>, log: seq<Message>, spoken: seq<string>, processing: bool)

  /** The send handler. `text` is `None` for a null input. */
  function SendChat(systemPrompt: string, chatLog: seq<Message>, text: Option<string>,
                    stream: StreamOutcome, processing: bool): (r: Turn)
    // a null input changes nothing
    ensures text.None? ==> r == Turn(None, chatLog, [], processing)
    // otherwise the request is the system prompt, the old log and the new user message
    ensures text.Some? ==>
      r.request == Some([Message(System, systemPrompt)] + chatLog + [Message(User, text.value)])
    // the user message is kept even when no stream can be obtained, and no reply is added
    ensures text.Some? && stream.StreamUnavailable? ==>
      r.log == chatLog + [Message(User, text.value)] && r.spoken == []
    // with a stream, exactly one assistant entry is appended, holding the spoken
    // utterances in order, whether or not a read threw
    ensures text.Some? && stream.Streamed? ==>
      r.log == chatLog + [Message(User, text.value), Message(Assistant, Concat(r.spoken))]
    // processing is cleared at the end of every accepted send
    ensures text.Some? ==> !r.processing
  {
    match text
    case None => Turn(None, chatLog, [], processing)
    case Some(t) =>
      var messageLog := chatLog + [Message(User, t)];
      RequestShape(systemPrompt, chatLog, Message(User, t));
      match stream
      case StreamUnavailable => Turn(Some([Message(System, systemPrompt)] + messageLog), messageLog, [], false)
      case Streamed(chunks, _) =>
        var run := Segmenter.Run(Segmenter.Initial, chunks);
        ReplyIsSpokenText(chunks);
        var reply := Message(Assistant, run.state.log);
        LogShape(chatLog, Message(User, t), reply);
        Turn(Some([Message(System, systemPrompt)] + messageLog), messageLog + [reply], run.spoken, false)
  }

  lemma RequestShape(systemPrompt: string, chatLog: seq<Message>, m: Message)
    ensures [Message(System, systemPrompt)] + (chatLog + [m]) == [Message(System, systemPrompt)] + chatLog + [m]
  {
  }

  lemma LogShape(chatLog: seq<Message>, m: Message, reply: Message)
    ensures chatLog + [m] + [reply] == chatLog + [m, reply]
  {
  }

  /** The reply text accumulated by the segmenter is its spoken utterances, concatenated. */
  lemma ReplyIsSpokenText(chunks: seq<string>)
    ensures Segmenter.Run(Segmenter.Initial, chunks).state.log == Concat(Segmenter.Run(Segmenter.Initial, chunks).spoken)
  {
    var run := Segmenter.Run(Segmenter.Initial, chunks);
    Segmenter.RunLogIsSpokenText(Segmenter.Initial, chunks);
    assert run.state.log == "" + Concat(run.spoken);
  }

  /** The spoken utterances of a send are those of the segmenter run over the
      delivered chunks, so whatever the segmenter still buffers when the stream
      ends is neither spoken nor logged. */
  lemma SendChatSpeaksSegmenterOutput(systemPrompt: string, chatLog: seq<Message>, t: string,
                                      chunks: seq<string>, readFails: bool, processing: bool)
    ensures var r := SendChat(systemPrompt, chatLog, Some(t), Streamed(chunks, readFails), processing);
      var run := Segmenter.Run(Segmenter.Initial, chunks);
      && r.spoken == run.spoken
      && r.log[|r.log| - 1].content == run.state.log
  {
    Segmenter.RunLogIsSpokenText(Segmenter.Initial, chunks);
  }

  /** The edit handler: entry `target` gets `text` as its content and keeps its
      role; every other entry, and the length, stay as they were. */
  function ChangeChatLog(chatLog: seq<Message>, target: int, text: string): (r: seq<Message>)
    ensures |r| == |chatLog|
    ensures forall i :: 0 <= i < |r| ==> r[i].role == chatLog[i].role
    ensures forall i :: 0 <= i < |r| && i != target ==> r[i] == chatLog[i]
    ensures 0 <= target < |r| ==> r[target].content == text
    ensures !(0 <= target < |chatLog|) ==> r == chatLog
  {
    seq(|chatLog|, i requires 0 <= i < |chatLog| =>
      if i == target then Message(chatLog[i].role, text) else chatLog[i])
  }
}
