/** Discourse event types: the built-in ones, and the custom types a room defines. */
module RoomEvents {
  datatype EventType =
    | RoomCreate | RoomUpdate | RoomClose | RoomCancel | TypeDefine
    | RoomJoin | RoomJoinRequest | RoomJoinReview | RoomLeave | RoomMemberRoleUpdate | RoomMemberRemove
    | MessageCreate
    | Custom(name: string)
  {
    predicate Builtin() {
      !Custom?
    }

    /** Only messages and custom records may be redacted. */
    predicate Redactable() {
      !Builtin() || MessageCreate?
    }
  }
}
