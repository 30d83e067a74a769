/**
 * The chat messages the services see. The relay library that delivers them
 * is not part of this model; only the fields the services read are kept.
 */
module Irc {
  import opened Strings

  /**
   * An incoming message: the channel it was said in (None for a private
   * message), who said it, the bot's own nick and the text.
   */
  datatype Message = Message(channel: Option<string>, sender: string, nick: string, text: string)

  /** An outgoing message: where it goes, the bot's nick and the text. */
  datatype Outbound = Outbound(target: string, nick: string, text: string)
}
