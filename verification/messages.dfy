/** The records that flow between the chat handler, the segmenter and the
    speech scheduler. */
module Messages {

  /** The author of a chat entry. */
  datatype Role = System | User | Assistant

  /** One chat transcript entry. */
  datatype Message = Message(role: Role, content: string)

  /** A synthesis request unit. The voice coordinates are passed through
      untouched; their float arithmetic plays no part in the model. */
  datatype Talk = Talk(message: string, speakerX: real, speakerY: real, style: string)

  /** One sentence together with its delivery metadata. */
  datatype Screenplay = Screenplay(expression: string, talk: Talk)
}
