/** The two record shapes the client exchanges: the pairing endpoint's JSON
    reply and one entry of the discoveries storage file. */
module Types {
  import opened PyText

  /** The body of a pairing reply, `{"result": ..., "emoji": ..., "isNew": ...}`. */
  datatype ResultDict = ResultDict(result: string, emoji: string, isNew: bool)

  /** One entry of the discoveries JSON file. */
  datatype RawDiscovery = RawDiscovery(name: Option<string>, emoji: Option<string>, isFirstDiscovery: Option<bool>)
}
