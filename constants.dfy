/** The records a reset writes into the discoveries storage file. */
module Constants {
  import opened PyText
  import opened Types

  /** Water, Fire, Wind and Earth with their emoji, none a first discovery. */
  const StartingDiscoveries: seq<RawDiscovery> := [
    RawDiscovery(Some("Water"), Some("\U{1F4A7}"), Some(false)),
    RawDiscovery(Some("Fire"), Some("\U{1F525}"), Some(false)),
    RawDiscovery(Some("Wind"), Some("\U{1F32C}\U{FE0F}"), Some(false)),
    RawDiscovery(Some("Earth"), Some("\U{1F30D}"), Some(false))
  ]

  lemma SeedShape()
    ensures |StartingDiscoveries| == 4
    ensures StartingDiscoveries[0].name == Some("Water") && StartingDiscoveries[1].name == Some("Fire")
    ensures StartingDiscoveries[2].name == Some("Wind") && StartingDiscoveries[3].name == Some("Earth")
    ensures forall i :: 0 <= i < 4 ==> StartingDiscoveries[i].isFirstDiscovery == Some(false)
    ensures forall i :: 0 <= i < 4 ==> StartingDiscoveries[i].emoji.Some?
  {
  }

  lemma SeedNamesDistinct()
    ensures forall i, j :: 0 <= i < j < |StartingDiscoveries| ==> StartingDiscoveries[i].name != StartingDiscoveries[j].name
  {
    SeedShape();
  }
}
