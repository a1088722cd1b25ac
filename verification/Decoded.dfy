/** Messages after decoding, as the client keeps and shows them. */
module Decoded {
  import opened Common
  import opened MessageStore

  datatype Body = Body(text: string, senderName: string, sentAt: string)

  datatype Status = Sending | Sent | ReadByAll | Failed

  /** A decoded message as it is shown. */
  datatype Shown = Shown(
    id: string, roomId: string, senderId: string, body: Option<Body>,
    createdAt: int, editedAt: Option<int>, deletedAt: Option<int>,
    readBy: seq<string>, receipts: seq<Receipt>, read: bool, reactions: seq<Reaction>,
    status: Option<Status>, failed: bool)

  /** The decoder for one room secret; nothing comes back when it throws. */
  type Decoder = Payload -> Option<Body>
}
