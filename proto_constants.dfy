/** What the prototype's `reset` writes: the discoveries file (records without
    emoji) and the separate name-to-emoji cache file. */
module ProtoConstants {

  /** One entry of the prototype's discoveries file. */
  datatype Record = Record(name: string, isFirstDiscovery: bool)

  const StartingDiscoveries: seq<Record> := [
    Record("Water", false),
    Record("Fire", false),
    Record("Wind", false),
    Record("Earth", false)
  ]

  const StartingEmojiCache: map<string, string> := map[
    "Water" := "\U{1F4A7}",
    "Fire" := "\U{1F525}",
    "Wind" := "\U{1F32C}\U{FE0F}",
    "Earth" := "\U{1F30D}"
  ]

  lemma SeedShape()
    ensures |StartingDiscoveries| == 4
    ensures StartingDiscoveries[0].name == "Water" && StartingDiscoveries[1].name == "Fire"
    ensures StartingDiscoveries[2].name == "Wind" && StartingDiscoveries[3].name == "Earth"
    ensures forall i :: 0 <= i < 4 ==> !StartingDiscoveries[i].isFirstDiscovery
  {
  }

  lemma SeedNamesDistinct()
    ensures forall i, j :: 0 <= i < j < |StartingDiscoveries| ==> StartingDiscoveries[i].name != StartingDiscoveries[j].name
  {
  }

  /** The emoji cache has an entry for exactly the seeded names. */
  lemma EmojiCacheCoversSeed()
    ensures StartingEmojiCache.Keys == set i | 0 <= i < |StartingDiscoveries| :: StartingDiscoveries[i].name
  {
    var names := set i | 0 <= i < |StartingDiscoveries| :: StartingDiscoveries[i].name;
    assert StartingDiscoveries[0].name in names && StartingDiscoveries[1].name in names;
    assert StartingDiscoveries[2].name in names && StartingDiscoveries[3].name in names;
  }
}
