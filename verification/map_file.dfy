/** `CartographyMapFile`: the in-memory document, its derived tag set, its
    constructors, the version repair done before export, and pin removal,
    which keeps the image map in step with the pins. */
module MapFile {
  import opened Wrappers
  import opened Basics
  import Features
  import Manifest
  import opened Library
  import opened Sequences
  import Json

  /** `AppState`: per-document interface state. */
  datatype AppState = AppState(tabCustomization: TabCustomization)

  const DefaultAppState: AppState := AppState(DefaultTabCustomization)

  /** `Integrations`: settings for other services. */
  datatype Integrations = Integrations(bluemap: BluemapIntegration)

  const DefaultIntegrations: Integrations := Integrations(DefaultBluemap)

  /** Image file names mapped to their bytes. */
  type ImageMap = map<string, Bytes>

  /** The document. `pins` is the player library; `manifest.pins` holds the
      inline pins of older generations. */
  datatype Document = Document(
    manifest: Manifest.Manifest,
    images: ImageMap,
    appState: AppState,
    integrations: Integrations,
    pins: seq<Pin>,
    drawings: seq<Drawing>)

  /** `supportedFeatures`: resolved from the manifest's version key alone. */
  function SupportedFeatures(d: Document): (fs: Features.FeatureSet)
    ensures fs.IsSupersetOf(Features.MinimumDefault)
    ensures forall f :: fs.Contains(f) <==> Features.IsBaseline(f) || Features.GrantsAll(d.manifest.manifestVersion)
  {
    Features.Resolve(d.manifest.manifestVersion)
  }

  predicate HasSeparateLibrary(d: Document) {
    SupportedFeatures(d).Contains(Features.SeparateLibrary)
  }

  // ---------------------------------------------------------------------------
  // Tags

  /** The union of the non-nil tag sets of `pins`. */
  function PinTags(pins: seq<Pin>): (r: set<string>)
    ensures forall t :: t in r <==> exists i :: 0 <= i < |pins| && pins[i].tags.Some? && t in pins[i].tags.value
  {
    if |pins| == 0 then {}
    else
      var init := pins[..|pins| - 1];
      assert forall i :: 0 <= i < |init| ==> init[i] == pins[i];
      PinTags(init) + pins[|pins| - 1].tags.GetOr({})
  }

  /** `tags`: empty unless pin tagging is supported, and then every tag some
      library pin carries, and nothing else. */
  function Tags(d: Document): (r: set<string>)
    ensures !SupportedFeatures(d).Contains(Features.PinTagging) ==> r == {}
    ensures forall t :: t in r <==>
      SupportedFeatures(d).Contains(Features.PinTagging) &&
      exists i :: 0 <= i < |d.pins| && d.pins[i].tags.Some? && t in d.pins[i].tags.value
  {
    if SupportedFeatures(d).Contains(Features.PinTagging) then PinTags(d.pins) else {}
  }

  // ---------------------------------------------------------------------------
  // Constructors

  /** `init(withManifest:pins:images:)`. Under the separate library the `pins`
      argument is replaced by the migrated inline pins, the `i`-th receiving
      `newId(i)`; the inline pins stay in the manifest either way. */
  function NewDocument(manifest: Manifest.Manifest, newId: IdSource,
                       pins: seq<Pin> := [], images: ImageMap := map[]): (d: Document)
    ensures d.manifest == manifest && d.images == images
    ensures d.appState == DefaultAppState && d.integrations == DefaultIntegrations && d.drawings == []
    ensures Features.GrantsAll(manifest.manifestVersion) ==>
      |d.pins| == |manifest.pins| &&
      forall i :: 0 <= i < |manifest.pins| ==> d.pins[i] == MigratePin(manifest.pins[i], newId(i))
    ensures !Features.GrantsAll(manifest.manifestVersion) ==> d.pins == pins
  {
    var d := Document(manifest, images, DefaultAppState, DefaultIntegrations, pins, []);
    if HasSeparateLibrary(d) then d.(pins := LiftPins(manifest.pins, newId)) else d
  }

  /** `init(decoding:)`: the manifest alone, read from bytes and migrated;
      every other part takes its default. The inline pins are lifted into the
      library under the separate library but are not removed from the manifest. */
  function DocumentFromData(c: Json.JsonCodec, data: Bytes, newId: IdSource): (r: Result<Document, Json.DecodeError>)
    ensures Json.ReadManifest(c, data).Failure? ==> r == Failure(Json.ReadManifest(c, data).error)
    ensures Json.ReadManifest(c, data).Success? ==>
      r.Success? && r.value == NewDocument(Json.ReadManifest(c, data).value, newId)
  {
    var m :- Json.ReadManifest(c, data);
    var d := Document(m, map[], DefaultAppState, DefaultIntegrations, [], []);
    Success(if HasSeparateLibrary(d) then d.(pins := LiftPins(m.pins, newId)) else d)
  }

  /** `MCMapManifest_v2.sampleFile`. */
  const SampleManifest: Manifest.Manifest := Manifest.ManifestV2(
    Some(2), "My World", Manifest.WorldSettings("1.21.3", 123, false),
    [Manifest.Pin(Point(PosZero, PosZero), "Spawn", None, None, None, None)], None)

  /** The tag tests: a manifest migrated from an unversioned v1 value has no
      tags, since its version key stays absent. */
  lemma NoTagsBeforeVersionTwo(newId: IdSource, v1: Manifest.ManifestV1)
    requires v1.manifestVersion.None?
    ensures Tags(NewDocument(Manifest.V2FromV1(v1), newId)) == {}
  {
  }

  /** A version-2 manifest offers the union of its pins' tags. */
  lemma AllAvailableTags(newId: IdSource)
    ensures var m := Manifest.ManifestV2(Some(2), "My World", Manifest.WorldSettings("1.21", 123, false),
                       [Manifest.Pin(Point(PosZero, PosZero), "Spawn", None, None, None, Some({"Autocreated"})),
                        Manifest.Pin(Point(F1847, F1847), "Augenwaldburg", None, None, None, Some({"Forest", "Base"}))],
                       Some([]));
            Tags(NewDocument(m, newId)) == {"Autocreated", "Forest", "Base"}
  {
    var a := Manifest.Pin(Point(PosZero, PosZero), "Spawn", None, None, None, Some({"Autocreated"}));
    var b := Manifest.Pin(Point(F1847, F1847), "Augenwaldburg", None, None, None, Some({"Forest", "Base"}));
    var m := Manifest.ManifestV2(Some(2), "My World", Manifest.WorldSettings("1.21", 123, false), [a, b], Some([]));
    var d := NewDocument(m, newId);
    assert Features.GrantsAll(m.manifestVersion);
    assert d.pins[0].tags == a.tags;
    assert d.pins[1].tags == b.tags;
    assert |d.pins| == 2;
    assert d.pins[..1] == [d.pins[0]];
    assert d.pins[..1][..0] == [];
    assert PinTags(d.pins) == PinTags(d.pins[..1]) + {"Forest", "Base"};
    assert PinTags(d.pins[..1]) == {"Autocreated"};
  }

  // ---------------------------------------------------------------------------
  // Export

  /** `Constants.minimumManifestVersion`. */
  const MinimumManifestVersion: int := 1

  /** The repair `prepareMetadataForExport` makes: a missing version key
      becomes the minimum version; nothing else changes. */
  function RepairVersion(m: Manifest.Manifest): (r: Manifest.Manifest)
    ensures m.manifestVersion.None? ==> r.manifestVersion == Some(MinimumManifestVersion)
    ensures m.manifestVersion.Some? ==> r == m
    ensures r.(manifestVersion := m.manifestVersion) == m
  {
    if m.manifestVersion.None? then m.(manifestVersion := Some(MinimumManifestVersion)) else m
  }

  /** `prepareMetadataForExport`: the repaired manifest, encoded. */
  function ExportMetadata(c: Json.JsonCodec, d: Document): Bytes {
    c.encodeManifest(RepairVersion(d.manifest))
  }

  /** Reading exported metadata gives the document's manifest back, tagged
      with the latest version. */
  lemma ExportedMetadataReadsBack(c: Json.JsonCodec, d: Document)
    requires Json.Lawful(c)
    ensures Json.ReadManifest(c, ExportMetadata(c, d)) == Success(d.manifest.(manifestVersion := Some(Manifest.LatestVersion)))
  {
    var m := RepairVersion(d.manifest);
    assert c.decodeManifest(c.encodeManifest(m)) == Some(Manifest.V2(m.(manifestVersion := Some(Manifest.LatestVersion))));
  }

  /** Exporting a document decoded from a version-2 manifest reproduces that
      manifest; exporting one decoded from the v1 fixture yields the v2 fixture. */
  lemma ExportOfDecodedManifests(c: Json.JsonCodec, data: Bytes, newId: IdSource, m: Manifest.Manifest)
    requires Json.Lawful(c)
    ensures c.decodeManifest(data) == Some(Manifest.V2(m)) && m.manifestVersion == Some(Manifest.LatestVersion) ==>
      Json.ReadManifest(c, ExportMetadata(c, DocumentFromData(c, data, newId).value)) == Success(m)
    ensures c.decodeManifest(data) == Some(Manifest.V1(Manifest.PackV1)) ==>
      Json.ReadManifest(c, ExportMetadata(c, DocumentFromData(c, data, newId).value)) == Success(Manifest.PackV2)
  {
    if c.decodeManifest(data) == Some(Manifest.V2(m)) && m.manifestVersion == Some(Manifest.LatestVersion) {
      ExportedMetadataReadsBack(c, DocumentFromData(c, data, newId).value);
    }
    if c.decodeManifest(data) == Some(Manifest.V1(Manifest.PackV1)) {
      Manifest.V1FixtureMigratesToV2Fixture();
      ExportedMetadataReadsBack(c, DocumentFromData(c, data, newId).value);
    }
  }

  // ---------------------------------------------------------------------------
  // Pin removal

  /** The image keys a library pin names. */
  function LibraryImages(p: Pin): set<string> {
    p.images.GetOr({})
  }

  /** The image keys an inline manifest pin names. */
  function ClassicImages(p: Manifest.Pin): set<string> {
    ImageSet(p.images.GetOr([]))
  }

  /** `removePinFromLibrary(at:)`: an index outside the library changes
      nothing; otherwise exactly that pin is dropped, the survivors keep their
      order, and exactly the images it names are deleted. */
  function RemovePinFromLibrary(d: Document, index: int): (r: Document)
    ensures !(0 <= index < |d.pins|) ==> r == d
    ensures 0 <= index < |d.pins| ==>
      && |r.pins| == |d.pins| - 1
      && (forall j :: 0 <= j < index ==> r.pins[j] == d.pins[j])
      && (forall j :: index <= j < |r.pins| ==> r.pins[j] == d.pins[j + 1])
      && (forall k :: k in r.images <==> k in d.images && k !in LibraryImages(d.pins[index]))
      && (forall k :: k in r.images ==> r.images[k] == d.images[k])
      && r.(pins := d.pins, images := d.images) == d
  {
    if 0 <= index < |d.pins| then
      d.(pins := d.pins[..index] + d.pins[index + 1..], images := d.images - LibraryImages(d.pins[index]))
    else d
  }

  /** `removePin(at:)` (deprecated): the same on the inline manifest pins. */
  function RemovePin(d: Document, index: int): (r: Document)
    ensures !(0 <= index < |d.manifest.pins|) ==> r == d
    ensures 0 <= index < |d.manifest.pins| ==>
      && |r.manifest.pins| == |d.manifest.pins| - 1
      && (forall j :: 0 <= j < index ==> r.manifest.pins[j] == d.manifest.pins[j])
      && (forall j :: index <= j < |r.manifest.pins| ==> r.manifest.pins[j] == d.manifest.pins[j + 1])
      && (forall k :: k in r.images <==> k in d.images && k !in ClassicImages(d.manifest.pins[index]))
      && (forall k :: k in r.images ==> r.images[k] == d.images[k])
      && r.(manifest := d.manifest, images := d.images) == d
      && r.manifest.(pins := d.manifest.pins) == d.manifest
  {
    if 0 <= index < |d.manifest.pins| then
      var pins := d.manifest.pins;
      d.(manifest := d.manifest.(pins := pins[..index] + pins[index + 1..]),
         images := d.images - ClassicImages(pins[index]))
    else d
  }

  /** Every offset names an element of a list of length `n`; `remove(atOffsets:)`
      and the subscripts before it trap otherwise. */
  predicate OffsetsInRange(offsets: set<int>, n: int) {
    forall o :: o in offsets ==> 0 <= o < n
  }

  /** The images named by the pins at `offsets`. */
  function ImagesAt<T>(pins: seq<T>, offsets: set<int>, imagesOf: T -> set<string>): (r: set<string>)
    ensures forall k :: k in r <==> exists o :: o in offsets && 0 <= o < |pins| && k in imagesOf(pins[o])
  {
    set o, k | o in offsets && 0 <= o < |pins| && k in imagesOf(pins[o]) :: k
  }

  /** `removeClassicPins(at:)`: drops the inline pins at `offsets` and every
      image any of them names. */
  function RemoveClassicPins(d: Document, offsets: set<int>): (r: Document)
    requires OffsetsInRange(offsets, |d.manifest.pins|)
    ensures r.manifest.pins == RemoveAt(d.manifest.pins, offsets)
    ensures r.manifest.(pins := d.manifest.pins) == d.manifest
    ensures forall k :: k in r.images <==>
      k in d.images && !exists o :: o in offsets && 0 <= o < |d.manifest.pins| && k in ClassicImages(d.manifest.pins[o])
    ensures forall k :: k in r.images ==> r.images[k] == d.images[k]
    ensures r.(manifest := d.manifest, images := d.images) == d
  {
    d.(manifest := d.manifest.(pins := RemoveAt(d.manifest.pins, offsets)),
       images := d.images - ImagesAt(d.manifest.pins, offsets, ClassicImages))
  }

  /** The length of the list `removePins(at:)` acts on. */
  function RemovableCount(d: Document): nat {
    if HasSeparateLibrary(d) then |d.pins| else |d.manifest.pins|
  }

  /** `removePins(at:)`: under the separate library, drops the library pins at
      `offsets` and every image any of them names; otherwise does the same to
      the inline pins. */
  function RemovePins(d: Document, offsets: set<int>): (r: Document)
    requires OffsetsInRange(offsets, RemovableCount(d))
    ensures HasSeparateLibrary(d) ==>
      && r.pins == RemoveAt(d.pins, offsets)
      && (forall k :: k in r.images <==>
            k in d.images && !exists o :: o in offsets && 0 <= o < |d.pins| && k in LibraryImages(d.pins[o]))
      && r.(pins := d.pins, images := d.images) == d
    ensures !HasSeparateLibrary(d) ==> r == RemoveClassicPins(d, offsets)
    ensures forall k :: k in r.images ==> r.images[k] == d.images[k]
  {
    if !HasSeparateLibrary(d) then RemoveClassicPins(d, offsets)
    else d.(pins := RemoveAt(d.pins, offsets), images := d.images - ImagesAt(d.pins, offsets, LibraryImages))
  }

  /** Removing one library pin by index is removing the one-element offset set. */
  lemma RemoveOneIsRemoveSet(d: Document, index: int)
    requires HasSeparateLibrary(d) && 0 <= index < |d.pins|
    ensures RemovePinFromLibrary(d, index) == RemovePins(d, {index})
  {
    RemoveAtSingle(d.pins, index);
  }

  /** `removePins(at:)` leaves the pins at the other indices, and only those:
      as many survive as there were pins minus the offsets. */
  lemma RemovePinsSurvivors(d: Document, offsets: set<int>)
    requires HasSeparateLibrary(d) && OffsetsInRange(offsets, |d.pins|)
    ensures |RemovePins(d, offsets).pins| == |d.pins| - |offsets|
    ensures forall p :: p in RemovePins(d, offsets).pins <==>
      exists i :: 0 <= i < |d.pins| && i !in offsets && d.pins[i] == p
  {
    RemoveAtLength(d.pins, offsets);
    assert InRange(offsets, |d.pins|) == offsets;
    forall p {
      RemoveAtMembership(d.pins, offsets, p);
    }
  }

  // ---------------------------------------------------------------------------
  // Image consistency

  /** Every image a library pin names is stored in the document. */
  predicate ImagesResolve(d: Document) {
    forall i, k :: 0 <= i < |d.pins| && k in LibraryImages(d.pins[i]) ==> k in d.images
  }

  /** No image is named by two different library pins. */
  predicate ExclusiveImages(pins: seq<Pin>) {
    forall i, j, k :: 0 <= i < |pins| && 0 <= j < |pins| && i != j && k in LibraryImages(pins[i]) ==> k !in LibraryImages(pins[j])
  }

  /** When no two pins share an image, removing pins never leaves a surviving
      pin naming a deleted image. */
  lemma RemovalKeepsImagesResolvable(d: Document, offsets: set<int>)
    requires HasSeparateLibrary(d) && OffsetsInRange(offsets, |d.pins|)
    requires ImagesResolve(d) && ExclusiveImages(d.pins)
    ensures ImagesResolve(RemovePins(d, offsets))
  {
    var r := RemovePins(d, offsets);
    var kept := KeptIndices(|d.pins|, offsets);
    RemoveAtKeepsOrder(d.pins, offsets);
    forall j, k | 0 <= j < |r.pins| && k in LibraryImages(r.pins[j])
      ensures k in r.images
    {
      var i := kept[j];
      assert r.pins[j] == d.pins[i] && i !in offsets;
      assert k in d.images;
      forall o | o in offsets && 0 <= o < |d.pins|
        ensures k !in LibraryImages(d.pins[o])
      {
        assert o != i;
      }
    }
  }

  /** Without exclusivity the property fails: two pins share "foo.png", and
      removing the first leaves the second naming a deleted image. */
  lemma SharedImageDangles(m: Manifest.Manifest, a: Pin, b: Pin)
    requires Features.GrantsAll(m.manifestVersion)
    requires a.images == Some({"foo.png"}) && b.images == Some({"foo.png"})
    ensures var d := Document(m, map["foo.png" := []], DefaultAppState, DefaultIntegrations, [a, b], []);
            ImagesResolve(d) && !ImagesResolve(RemovePinFromLibrary(d, 0))
  {
    var d := Document(m, map["foo.png" := []], DefaultAppState, DefaultIntegrations, [a, b], []);
    var r := RemovePinFromLibrary(d, 0);
    assert r.pins[0] == b;
    assert "foo.png" in LibraryImages(r.pins[0]) && "foo.png" !in r.images;
  }

  /** The removal tests on the sample manifest: removing the only library pin
      by index deletes the image it names. */
  lemma RemoveOnlyPinExample(newId: IdSource)
    ensures var d := NewDocument(SampleManifest, newId, images := map["foo.png" := []]);
            var d' := d.(pins := [d.pins[0].(images := Some({"foo.png"}))]);
            var r := RemovePinFromLibrary(d', 0);
            r.images == map[] && r.pins == []
  {
    var d := NewDocument(SampleManifest, newId, images := map["foo.png" := []]);
    var d' := d.(pins := [d.pins[0].(images := Some({"foo.png"}))]);
    var r := RemovePinFromLibrary(d', 0);
    assert "foo.png" in LibraryImages(d'.pins[0]);
    assert r.images.Keys == {};
  }

  /** Removing offsets 0 and 2 of three library pins keeps only the middle
      one and deletes both named images. */
  lemma RemoveOffsetsExample(newId: IdSource, keep: Pin, alt: Pin)
    requires alt.images == Some({"bar.png"}) && LibraryImages(keep) == {}
    ensures var d := NewDocument(SampleManifest, newId, images := map["foo.png" := [], "bar.png" := []]);
            var d' := d.(pins := [d.pins[0].(images := Some({"foo.png"})), keep, alt]);
            var r := RemovePins(d', {0, 2});
            r.images == map[] && r.pins == [keep]
  {
    var d := NewDocument(SampleManifest, newId, images := map["foo.png" := [], "bar.png" := []]);
    var d' := d.(pins := [d.pins[0].(images := Some({"foo.png"})), keep, alt]);
    var s := d'.pins;
    assert HasSeparateLibrary(d');
    var r := RemovePins(d', {0, 2});
    assert "foo.png" !in r.images by {
      assert 0 in {0, 2} && "foo.png" in LibraryImages(s[0]);
    }
    assert "bar.png" !in r.images by {
      assert 2 in {0, 2} && "bar.png" in LibraryImages(s[2]);
    }
    assert r.images.Keys <= d'.images.Keys == {"foo.png", "bar.png"};
    assert r.images.Keys == {};
    RemoveOuterOfThree(s[0], keep, alt);
  }

  lemma RemoveOuterOfThree<T>(a: T, b: T, c: T)
    ensures RemoveAt([a, b, c], {0, 2}) == [b]
  {
    var s := [a, b, c];
    assert s[..2] == [a, b];
    assert s[..2][..1] == [a];
    assert s[..2][..1][..0] == [];
    assert RemoveAt(s[..2][..1], {0, 2}) == [];
    assert RemoveAt(s[..2], {0, 2}) == [b];
  }
}
