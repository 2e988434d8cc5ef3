/**
 * The diagnostics channel: message kinds with positional arguments, collected
 * in order by a logger object. Message texts (localisation) are not modelled;
 * a message is its kind and its arguments.
 */
module Diagnostics {

  datatype MsgKind =
    | WarnUnknownParam
    | WarnWrongParam
    | WarnNoResults
    | WarnCatOutputButWrongParams
    | WarnHeadingButSimpleOrderMethod
    | FatalTooManyCats
    | FatalTooFewCats
    | FatalNoSelection
    | FatalCatDateButNoIncludedCats
    | FatalMoreThan1TypeOfDate
    | FatalDominantSectionRange
    | FatalWrongOrderMethod
    | FatalOpenReferences

  datatype Message = Message(kind: MsgKind, args: seq<string>)

  /** The logger: an ordered list of messages that only ever grows. */
  class Logger {
    var messages: seq<Message>

    constructor ()
      ensures messages == []
    {
      messages := [];
    }

    method AddMessage(kind: MsgKind, args: seq<string>)
      modifies this
      ensures messages == old(messages) + [Message(kind, args)]
    {
      messages := messages + [Message(kind, args)];
    }
  }
}
