/** A command as it comes off a stream: what routing, relaying and dispatch look at. */
module Commands {
  import opened Wrappers

  datatype Command = Command(
    messageType: string, name: string, batchId: Option<string>,
    groupHint: Option<string>, relayTarget: Option<string>, relayReplyTo: Option<string>)
}
