/** Vocabulary shared by the client pipeline and the relay endpoint. */
module Chat {

  /** `"user" | "assistant"` */
  datatype Role = User | Assistant

  /** One `{ role, content }` entry of the history posted to the relay and forwarded to the provider. */
  datatype ChatEntry = ChatEntry(role: Role, content: string)
}
