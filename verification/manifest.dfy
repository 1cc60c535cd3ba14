/** The manifest (`Info.json`) in each of its schema generations, and the
    migrations that carry an older generation to the latest one. */
module Manifest {
  import opened Wrappers
  import opened Basics

  /** `MCMapManifestPin.Color`, stored as its raw string. */
  datatype Color = Red | Orange | Yellow | Green | Blue | Indigo | Brown | Gray | Pink

  function ColorRawValue(c: Color): string {
    match c
    case Red => "red"
    case Orange => "orange"
    case Yellow => "yellow"
    case Green => "green"
    case Blue => "blue"
    case Indigo => "indigo"
    case Brown => "brown"
    case Gray => "gray"
    case Pink => "pink"
  }

  /** A pin stored inline in the manifest (`MCMapManifestPin`). */
  datatype Pin = Pin(
    position: Point,
    name: string,
    color: Option<Color>,
    images: Option<seq<string>>,
    aboutDescription: Option<string>,
    tags: Option<set<string>>)

  /** `MCMapManifestWorldSettings`. */
  datatype WorldSettings = WorldSettings(version: string, seed: Int64, largeBiomes: bool)

  /** `MCMapManifest_PreVersioning`: the manifest before the version key existed. */
  datatype ManifestPreVersioning = ManifestPreVersioning(
    manifestVersion: Option<int>,
    seed: Int64,
    mcVersion: string,
    name: string,
    pins: seq<Pin>,
    recentLocations: Option<seq<Point>>)

  /** `MCMapManifest_v1`: the same flat fields, with a version key. */
  datatype ManifestV1 = ManifestV1(
    manifestVersion: Option<int>,
    seed: Int64,
    mcVersion: string,
    name: string,
    pins: seq<Pin>,
    recentLocations: Option<seq<Point>>)

  /** `MCMapManifest_v2`, the latest generation (`MCMapManifest`): the world
      settings are grouped under one nested value. */
  datatype ManifestV2 = ManifestV2(
    manifestVersion: Option<int>,
    name: string,
    worldSettings: WorldSettings,
    pins: seq<Pin>,
    recentLocations: Option<seq<Point>>)

  /** The manifest every other part of the document works with. */
  type Manifest = ManifestV2

  /** The static version tag of the latest generation. */
  const LatestVersion: int := 2

  /** A decoded manifest, tagged with the generation it was decoded as. */
  datatype VersionedManifest =
    | PreVersioning(pre: ManifestPreVersioning)
    | V1(v1: ManifestV1)
    | V2(v2: ManifestV2)

  /** Position of a generation in the chain. */
  function Generation(m: VersionedManifest): nat {
    match m
    case PreVersioning(_) => 0
    case V1(_) => 1
    case V2(_) => 2
  }

  /** The world settings a v1 manifest exposes for forward compatibility
      (its `worldSettings` getter); large biomes did not exist yet. */
  function V1WorldSettings(m: ManifestV1): WorldSettings {
    WorldSettings(m.mcVersion, m.seed, false)
  }

  /** `MCMapManifest_v1.init(from:)`: stamps version 1, copies the rest. */
  function V1FromPreVersioning(prior: ManifestPreVersioning): (m: ManifestV1)
    ensures m.manifestVersion == Some(1)
    ensures m.seed == prior.seed && m.mcVersion == prior.mcVersion
    ensures m.name == prior.name && m.pins == prior.pins && m.recentLocations == prior.recentLocations
  {
    ManifestV1(Some(1), prior.seed, prior.mcVersion, prior.name, prior.pins, prior.recentLocations)
  }

  /** `MCMapManifest_v2.init(from:)`: moves the flat version and seed into
      the world settings and copies the rest, the version key included. */
  function V2FromV1(prior: ManifestV1): (m: ManifestV2)
    ensures m.manifestVersion == prior.manifestVersion
    ensures m.worldSettings == V1WorldSettings(prior)
    ensures m.name == prior.name && m.pins == prior.pins && m.recentLocations == prior.recentLocations
  {
    ManifestV2(prior.manifestVersion, prior.name, WorldSettings(prior.mcVersion, prior.seed, false), prior.pins, prior.recentLocations)
  }

  /** One migration step to the immediate successor generation. */
  function Step(m: VersionedManifest): (n: VersionedManifest)
    requires !m.V2?
    ensures Generation(n) == Generation(m) + 1
  {
    match m
    case PreVersioning(pre) => V1(V1FromPreVersioning(pre))
    case V1(v1) => V2(V2FromV1(v1))
  }

  // Field accessors common to every generation.

  function NameOf(m: VersionedManifest): string {
    match m
    case PreVersioning(pre) => pre.name
    case V1(v1) => v1.name
    case V2(v2) => v2.name
  }

  function PinsOf(m: VersionedManifest): seq<Pin> {
    match m
    case PreVersioning(pre) => pre.pins
    case V1(v1) => v1.pins
    case V2(v2) => v2.pins
  }

  function RecentLocationsOf(m: VersionedManifest): Option<seq<Point>> {
    match m
    case PreVersioning(pre) => pre.recentLocations
    case V1(v1) => v1.recentLocations
    case V2(v2) => v2.recentLocations
  }

  function WorldSettingsOf(m: VersionedManifest): WorldSettings {
    match m
    case PreVersioning(pre) => WorldSettings(pre.mcVersion, pre.seed, false)
    case V1(v1) => V1WorldSettings(v1)
    case V2(v2) => v2.worldSettings
  }

  /** The version key the fully migrated manifest carries in memory: a
      pre-versioning manifest is stamped 1, later ones keep their own key. */
  function MigratedVersionOf(m: VersionedManifest): Option<int> {
    match m
    case PreVersioning(_) => Some(1)
    case V1(v1) => v1.manifestVersion
    case V2(v2) => v2.manifestVersion
  }

  /** The version key a generation's decoder dispatches on: none for the
      pre-versioning manifest, then 1 and 2. */
  function StaticVersion(m: VersionedManifest): Option<int> {
    match m
    case PreVersioning(_) => None
    case V1(_) => Some(1)
    case V2(_) => Some(LatestVersion)
  }

  /** The version key a decoded manifest holds in memory. */
  function KeyOf(m: VersionedManifest): Option<int> {
    match m
    case PreVersioning(pre) => pre.manifestVersion
    case V1(v1) => v1.manifestVersion
    case V2(v2) => v2.manifestVersion
  }

  /** Versioned decoding reads the key first and decodes the generation that
      declares it, so a decoded manifest holds its generation's own key. */
  predicate DeclaresOwnGeneration(m: VersionedManifest) {
    KeyOf(m) == StaticVersion(m)
  }

  /** Decoding migrates one generation at a time until the latest is reached.
      No migration loses or alters the name, pins, recent locations or world
      data; only the version key and the nesting of the world settings change. */
  function Upgrade(m: VersionedManifest): (r: ManifestV2)
    decreases 2 - Generation(m)
    ensures r.name == NameOf(m)
    ensures r.pins == PinsOf(m)
    ensures r.recentLocations == RecentLocationsOf(m)
    ensures r.worldSettings == WorldSettingsOf(m)
    ensures r.manifestVersion == MigratedVersionOf(m)
  {
    if m.V2? then m.v2 else Upgrade(Step(m))
  }

  /** The latest generation is a fixed point of decoding's migration. */
  lemma UpgradeOfLatestIsIdentity(m: ManifestV2)
    ensures Upgrade(V2(m)) == m
  {
  }

  /** A decoded manifest comes out of migration at version 1 when it was
      decoded as an older generation, and at the latest version otherwise. */
  lemma MigratedVersionByGeneration(m: VersionedManifest)
    requires DeclaresOwnGeneration(m)
    ensures Upgrade(m).manifestVersion == (if m.V2? then Some(LatestVersion) else Some(1))
  {
  }

  /** The deprecated flat accessors of a v2 manifest (`mcVersion`, `seed`)
      read back exactly what the v1 manifest it was migrated from held. */
  lemma MigratedFlatAccessorsReadBack(prior: ManifestV1)
    ensures V2FromV1(prior).worldSettings.version == prior.mcVersion
    ensures V2FromV1(prior).worldSettings.seed == prior.seed
    ensures !V2FromV1(prior).worldSettings.largeBiomes
  {
  }

  // ---------------------------------------------------------------------------
  // The `Pack.mcmeta` fixtures of the document tests.

  const SpawnPin: Pin := Pin(Point(PosZero, PosZero), "Spawn", None, None, None, None)
  const ScreenshotPin: Pin := Pin(Point(F116, FMinus31), "Screenshot", Some(Brown), None, None, None)

  /** The v1 fixture. */
  const PackV1: ManifestV1 := ManifestV1(
    Some(1), 3257840388504953787, "1.2", "Pack.mcmeta",
    [SpawnPin, ScreenshotPin], Some([Point(F116, FMinus31)]))

  /** The v2 fixture. */
  const PackV2: ManifestV2 := ManifestV2(
    Some(2), "Pack.mcmeta", WorldSettings("1.2", 3257840388504953787, false),
    [SpawnPin, ScreenshotPin], Some([Point(F116, FMinus31)]))

  /** Decoding the v1 fixture yields the v2 fixture in everything but the
      version key, which stays 1 in memory; the latest-version tag is only
      written back when the manifest is encoded. */
  lemma V1FixtureMigratesToV2Fixture()
    ensures Upgrade(V1(PackV1)) == PackV2.(manifestVersion := Some(1))
  {
  }
}
