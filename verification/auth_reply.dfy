/** What the authentication context's `login` and `signup` resolve to. The request
    itself (HTTP, token storage) is not part of this model; its outcome is a parameter. */
module AuthReply {
  datatype Reply = Reply(success: bool, message: string)
}
