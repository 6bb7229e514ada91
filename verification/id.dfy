/**
 * Identifiers handed out by the UUID generator (`uuid.New`, wrapped by
 * `NewID` in pkg/entity/id.go). Their text is what the `id` columns store.
 */
module EntityId {

  /** What the UUID generator hands out: never the empty text. */
  type FreshId = s: string | s != "" witness "0"
}
