/** The JSON encoders and decoders the document delegates to. Their byte
    format is not modelled: a codec is a record of total functions, and the
    round-trip laws the document relies on are stated by `Lawful`. */
module Json {
  import opened Wrappers
  import opened Basics
  import opened Manifest
  import Library

  /** Why reading a document fails. */
  datatype DecodeError =
    | CorruptFile            // `Info.json` missing or not a regular file
    | MalformedManifest      // `Info.json` does not decode as any manifest generation
    | MalformedPin           // a file under `Library/Pins` does not decode
    | MalformedDrawing       // a file under `Library/Drawings` does not decode
    | MalformedTabs          // `AppState/Tabs.json` does not decode
    | MalformedIntegration   // `Integrations/Bluemap.json` does not decode

  /** The encoders (total: encoding failures are not modelled) and decoders
      (partial: `None` is a thrown decoding error). That decoding a manifest
      picks the generation named by its version key is part of `Lawful`. */
  datatype JsonCodec = JsonCodec(
    encodeManifest: Manifest -> Bytes,
    decodeManifest: Bytes -> Option<VersionedManifest>,
    encodePin: Library.Pin -> Bytes,
    decodePin: Bytes -> Option<Library.Pin>,
    encodeDrawing: Library.Drawing -> Bytes,
    decodeDrawing: Bytes -> Option<Library.Drawing>,
    encodeTabs: TabCustomization -> Bytes,
    decodeTabs: Bytes -> Option<TabCustomization>,
    encodeBluemap: BluemapIntegration -> Bytes,
    decodeBluemap: Bytes -> Option<BluemapIntegration>)

  /** Decoding what was encoded gives the value back. A manifest is written
      with the latest generation's version tag whatever its in-memory key
      says, so it reads back as a v2 manifest carrying that tag. Any manifest
      that decodes at all holds the key of the generation it decoded as. */
  ghost predicate Lawful(c: JsonCodec) {
    && (forall data :: c.decodeManifest(data).Some? ==> DeclaresOwnGeneration(c.decodeManifest(data).value))
    && (forall m :: c.decodeManifest(c.encodeManifest(m)) == Some(V2(m.(manifestVersion := Some(LatestVersion)))))
    && (forall p :: c.decodePin(c.encodePin(p)) == Some(p))
    && (forall d :: c.decodeDrawing(c.encodeDrawing(d)) == Some(d))
    && (forall t :: c.decodeTabs(c.encodeTabs(t)) == Some(t))
    && (forall b :: c.decodeBluemap(c.encodeBluemap(b)) == Some(b))
  }

  /** `decoder.decode(versioned: MCMapManifest.self, from:)`: decode the
      generation the bytes declare, then migrate it to the latest. */
  function ReadManifest(c: JsonCodec, data: Bytes): (r: Result<Manifest, DecodeError>)
    ensures c.decodeManifest(data).None? <==> r == Failure(MalformedManifest)
    ensures c.decodeManifest(data).Some? ==>
      var vm := c.decodeManifest(data).value;
      && r.Success?
      && r.value.name == NameOf(vm)
      && r.value.pins == PinsOf(vm)
      && r.value.worldSettings == WorldSettingsOf(vm)
      && r.value.recentLocations == RecentLocationsOf(vm)
      && r.value.manifestVersion == MigratedVersionOf(vm)
  {
    match c.decodeManifest(data)
    case None => Failure(MalformedManifest)
    case Some(vm) => Success(Upgrade(vm))
  }
}
