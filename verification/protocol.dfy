/** The routed envelope, `protocol.Message`. */
module Protocol {
  import opened Bytes

  /**
   * One routed message: the recipient and sender usernames travel in the
   * clear, the content is opaque bytes (end-to-end encrypted by the clients).
   * On the wire the fields are the JSON keys `recipient`, `sender` and
   * `content`, the same keys the session's inbound frame uses.
   */
  datatype Message = Message(recipient: string, sender: string, content: seq<byte>)
}
