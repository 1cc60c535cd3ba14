/** The package codec of `CartographyMapFile`: reading a document from the
    tree of file wrappers (`init(fileWrappers:)`, `loadLibrary`) and writing
    it back (`wrapper()`). Which sub-trees are read or written is decided by
    the features the manifest's version grants. */
module Container {
  import opened Wrappers
  import opened Basics
  import opened AsciiText
  import opened Sequences
  import Features
  import Manifest
  import opened Library
  import opened Json
  import opened MapFile
  import opened FileTree

  // `Keys`: the names of the package's files and folders.
  const MetadataKey: string := "Info.json"
  const ImagesKey: string := "Images"
  const AppStateKey: string := "AppState"
  const TabsKey: string := "Tabs.json"
  const IntegrationsKey: string := "Integrations"
  const LibraryKey: string := "Library"
  const PinsKey: string := "Pins"
  /** Used by the codec but not declared among the keys; its value is the
      folder name the package layout uses. */
  const DrawingsKey: string := "Drawings"
  /** `MCMapBluemapIntegration.integrationKey`. */
  const BluemapKey: string := "Bluemap.json"

  // ---------------------------------------------------------------------------
  // Reading

  /** The package is a directory holding `Info.json` as a regular file. */
  predicate HasMetadata(root: Tree) {
    root.Dir? && RegularFile(root.entries, MetadataKey).Some?
  }

  function Metadata(root: Tree): Bytes
    requires HasMetadata(root)
  {
    root.entries[MetadataKey].contents
  }

  /** The children of `Library/<key>`, empty when either folder is missing. */
  function LibraryFiles(root: Tree, key: string): map<string, Tree> {
    if root.Dir? then DirFiles(DirFiles(root.entries, LibraryKey), key) else map[]
  }

  /** The contents of the regular file `<dir>/<file>`, if there is one. */
  function StoredFile(root: Tree, dir: string, file: string): Option<Bytes> {
    if root.Dir? && SubDir(root.entries, dir).Some? then RegularFile(SubDir(root.entries, dir).value, file) else None
  }

  /** The sort key of the library: the ASCII-lowercased name. */
  function NameKey(p: Pin): string {
    Lowercased(p.name)
  }

  /** `migratePinDataIfNecessary`: inline pins, if any, replace the library
      and leave the manifest. */
  function MigratePinDataIfNecessary(d: Document, newId: IdSource): (r: Document)
    ensures d.manifest.pins == [] ==> r == d
    ensures d.manifest.pins != [] ==>
      && r.pins == LiftPins(d.manifest.pins, newId)
      && r.manifest == d.manifest.(pins := [])
      && r.(pins := d.pins, manifest := d.manifest) == d
    ensures r.manifest.pins == []
  {
    if |d.manifest.pins| == 0 then d
    else d.(pins := LiftPins(d.manifest.pins, newId), manifest := d.manifest.(pins := []))
  }

  /** Migrating a second time changes nothing. */
  lemma MigrationIsIdempotent(d: Document, newId: IdSource, newId': IdSource)
    ensures MigratePinDataIfNecessary(MigratePinDataIfNecessary(d, newId), newId') == MigratePinDataIfNecessary(d, newId)
  {
  }

  /** `loadLibrary(wrapper:)`: appends the pins decoded from `Pins`, then,
      only under the drawings feature, the drawings decoded from `Drawings`.
      The first file that fails to decode aborts the load. */
  function LoadLibrary(c: JsonCodec, d: Document, library: map<string, Tree>,
                       pinOrder: seq<string>, drawingOrder: seq<string>): (r: Result<Document, DecodeError>)
    ensures DecodeFiles(DirFiles(library, PinsKey), pinOrder, c.decodePin).None? <==> r == Failure(MalformedPin)
    ensures r.Failure? ==> r.error == MalformedPin || r.error == MalformedDrawing
    ensures r == Failure(MalformedDrawing) <==>
      && DecodeFiles(DirFiles(library, PinsKey), pinOrder, c.decodePin).Some?
      && SupportedFeatures(d).Contains(Features.Drawings)
      && DecodeFiles(DirFiles(library, DrawingsKey), drawingOrder, c.decodeDrawing).None?
    ensures r.Success? ==>
      && r.value.pins == d.pins + DecodeFiles(DirFiles(library, PinsKey), pinOrder, c.decodePin).value
      && r.value.drawings == d.drawings +
           (if SupportedFeatures(d).Contains(Features.Drawings)
            then DecodeFiles(DirFiles(library, DrawingsKey), drawingOrder, c.decodeDrawing).value else [])
      && r.value.(pins := d.pins, drawings := d.drawings) == d
  {
    match DecodeFiles(DirFiles(library, PinsKey), pinOrder, c.decodePin)
    case None => Failure(MalformedPin)
    case Some(pins) =>
      var withPins := d.(pins := d.pins + pins);
      if !SupportedFeatures(d).Contains(Features.Drawings) then Success(withPins)
      else
        match DecodeFiles(DirFiles(library, DrawingsKey), drawingOrder, c.decodeDrawing)
        case None => Failure(MalformedDrawing)
        case Some(drawings) => Success(withPins.(drawings := d.drawings + drawings))
  }

  /** The images: every regular file of `Images` under its own name; nothing
      when the folder is missing. */
  function ReadImages(root: Tree): (images: ImageMap)
    ensures forall k :: k in images <==> root.Dir? && RegularFile(DirFiles(root.entries, ImagesKey), k).Some?
    ensures forall k :: k in images ==> Some(images[k]) == RegularFile(DirFiles(root.entries, ImagesKey), k)
  {
    if !root.Dir? then map[]
    else
      var files := DirFiles(root.entries, ImagesKey);
      map k | k in files && files[k].Blob? :: files[k].contents
  }

  /** `AppState/Tabs.json` when present, else the default customisation; a
      present file that does not decode is an error. */
  function ReadTabs(c: JsonCodec, root: Tree): (r: Result<TabCustomization, DecodeError>)
    ensures r.Failure? <==> StoredFile(root, AppStateKey, TabsKey).Some? && c.decodeTabs(StoredFile(root, AppStateKey, TabsKey).value).None?
    ensures r.Failure? ==> r.error == MalformedTabs
    ensures r.Success? && StoredFile(root, AppStateKey, TabsKey).Some? ==>
      c.decodeTabs(StoredFile(root, AppStateKey, TabsKey).value) == Some(r.value)
    ensures StoredFile(root, AppStateKey, TabsKey).None? ==> r == Success(DefaultTabCustomization)
  {
    match StoredFile(root, AppStateKey, TabsKey)
    case None => Success(DefaultTabCustomization)
    case Some(data) =>
      match c.decodeTabs(data)
      case None => Failure(MalformedTabs)
      case Some(t) => Success(t)
  }

  /** `Integrations/Bluemap.json` when present, else the default settings; a
      present file that does not decode is an error. */
  function ReadBluemap(c: JsonCodec, root: Tree): (r: Result<BluemapIntegration, DecodeError>)
    ensures r.Failure? <==> StoredFile(root, IntegrationsKey, BluemapKey).Some? && c.decodeBluemap(StoredFile(root, IntegrationsKey, BluemapKey).value).None?
    ensures r.Failure? ==> r.error == MalformedIntegration
    ensures r.Success? && StoredFile(root, IntegrationsKey, BluemapKey).Some? ==>
      c.decodeBluemap(StoredFile(root, IntegrationsKey, BluemapKey).value) == Some(r.value)
    ensures StoredFile(root, IntegrationsKey, BluemapKey).None? ==> r == Success(DefaultBluemap)
  {
    match StoredFile(root, IntegrationsKey, BluemapKey)
    case None => Success(DefaultBluemap)
    case Some(data) =>
      match c.decodeBluemap(data)
      case None => Failure(MalformedIntegration)
      case Some(b) => Success(b)
  }

  /** The document holding only manifest `m`, as `init(fileWrappers:)` sets
      it up before reading anything else. */
  function Bare(m: Manifest.Manifest): Document {
    Document(m, map[], DefaultAppState, DefaultIntegrations, [], [])
  }

  /** The library step of `init(fileWrappers:)`: only when the version grants
      the separate library are the inline pins lifted and the `Library`
      folder loaded; a missing folder contributes nothing. */
  function ReadLibrary(c: JsonCodec, root: Tree, m: Manifest.Manifest, newId: IdSource,
                       pinOrder: seq<string>, drawingOrder: seq<string>): (r: Result<Document, DecodeError>)
    requires root.Dir?
    ensures var full := Features.GrantsAll(m.manifestVersion);
      r.Success? <==>
        full ==> (&& DecodeFiles(LibraryFiles(root, PinsKey), pinOrder, c.decodePin).Some?
                  && DecodeFiles(LibraryFiles(root, DrawingsKey), drawingOrder, c.decodeDrawing).Some?)
    ensures r.Failure? ==> r.error == MalformedPin || r.error == MalformedDrawing
    ensures r.Success? ==>
      var full := Features.GrantsAll(m.manifestVersion);
      && r.value.manifest == (if full then m.(pins := []) else m)
      && r.value.pins == (if full then LiftPins(m.pins, newId) + DecodeFiles(LibraryFiles(root, PinsKey), pinOrder, c.decodePin).value else [])
      && r.value.drawings == (if full then DecodeFiles(LibraryFiles(root, DrawingsKey), drawingOrder, c.decodeDrawing).value else [])
      && r.value.(manifest := m, pins := [], drawings := []) == Bare(m)
  {
    var d := Bare(m);
    if HasSeparateLibrary(d) then
      var migrated := MigratePinDataIfNecessary(d, newId);
      assert SupportedFeatures(migrated).Contains(Features.Drawings);
      LoadLibraryIfPresent(c, root, migrated, pinOrder, drawingOrder)
    else Success(d)
  }

  /** `loadLibrary` runs only when `Library` is a folder; a missing folder
      has the same effect as an empty one. */
  function LoadLibraryIfPresent(c: JsonCodec, root: Tree, d: Document,
                                pinOrder: seq<string>, drawingOrder: seq<string>): (r: Result<Document, DecodeError>)
    requires root.Dir?
    ensures r == LoadLibrary(c, d, DirFiles(root.entries, LibraryKey), pinOrder, drawingOrder)
  {
    match SubDir(root.entries, LibraryKey)
    case None =>
      NothingToDecode(pinOrder, c.decodePin);
      NothingToDecode(drawingOrder, c.decodeDrawing);
      assert d.pins + [] == d.pins && d.drawings + [] == d.drawings;
      Success(d)
    case Some(library) => LoadLibrary(c, d, library, pinOrder, drawingOrder)
  }


  /** The manifest a package declares, migrated to the latest generation. */
  function DeclaredManifest(c: JsonCodec, root: Tree): Manifest.Manifest
    requires HasMetadata(root) && c.decodeManifest(Metadata(root)).Some?
  {
    Manifest.Upgrade(c.decodeManifest(Metadata(root)).value)
  }

  /** Every file that is read decodes: the manifest; from version 2 on every
      pin and drawing file; and the tab and Bluemap files whenever they exist. */
  predicate ReadsCleanly(c: JsonCodec, root: Tree, pinOrder: seq<string>, drawingOrder: seq<string>) {
    && HasMetadata(root)
    && c.decodeManifest(Metadata(root)).Some?
    && (Features.GrantsAll(DeclaredManifest(c, root).manifestVersion) ==>
          && DecodeFiles(LibraryFiles(root, PinsKey), pinOrder, c.decodePin).Some?
          && DecodeFiles(LibraryFiles(root, DrawingsKey), drawingOrder, c.decodeDrawing).Some?)
    && (StoredFile(root, AppStateKey, TabsKey).Some? ==> c.decodeTabs(StoredFile(root, AppStateKey, TabsKey).value).Some?)
    && (StoredFile(root, IntegrationsKey, BluemapKey).Some? ==>
          c.decodeBluemap(StoredFile(root, IntegrationsKey, BluemapKey).value).Some?)
  }

  /** `init(fileWrappers:)`, with the enumeration orders of the pin and
      drawing folders given. Errors are reported in reading order: a missing
      `Info.json`, the manifest, the library, the tabs, the integrations. */
  function DecodeDocument(c: JsonCodec, root: Tree, newId: IdSource,
                          pinOrder: seq<string>, drawingOrder: seq<string>): (r: Result<Document, DecodeError>)
    ensures r == Failure(CorruptFile) <==> !HasMetadata(root)
    ensures HasMetadata(root) ==> (r == Failure(MalformedManifest) <==> c.decodeManifest(Metadata(root)).None?)
    ensures r.Success? <==> ReadsCleanly(c, root, pinOrder, drawingOrder)
  {
    if !HasMetadata(root) then Failure(CorruptFile)
    else
      var m :- ReadManifest(c, Metadata(root));
      var loaded :- ReadLibrary(c, root, m, newId, pinOrder, drawingOrder);
      var tabs :- ReadTabs(c, root);
      var bluemap :- ReadBluemap(c, root);
      Success(loaded.(pins := SortBy(loaded.pins, NameKey), images := ReadImages(root),
                      appState := AppState(tabs), integrations := Integrations(bluemap)))
  }

  /** What a package that reads cleanly opens to. The manifest loses its
      inline pins from version 2 on; the pins, lifted from the manifest and
      loaded from the library, come back sorted by lowercased name; drawings
      are read from version 2 on; the tabs and integrations fall back to
      their defaults when their files are missing. */
  lemma DecodedDocument(c: JsonCodec, root: Tree, newId: IdSource, pinOrder: seq<string>, drawingOrder: seq<string>)
    requires ReadsCleanly(c, root, pinOrder, drawingOrder)
    ensures var r := DecodeDocument(c, root, newId, pinOrder, drawingOrder);
      var m := DeclaredManifest(c, root);
      var full := Features.GrantsAll(m.manifestVersion);
      && r.Success?
      && r.value.manifest == (if full then m.(pins := []) else m)
      && r.value.images == ReadImages(root)
      && SortedBy(r.value.pins, NameKey)
      && multiset(r.value.pins) ==
           (if full then multiset(LiftPins(m.pins, newId)) + Contributions(LibraryFiles(root, PinsKey), pinOrder, c.decodePin)
            else multiset{})
      && (full ==> Some(r.value.drawings) == DecodeFiles(LibraryFiles(root, DrawingsKey), drawingOrder, c.decodeDrawing))
      && (!full ==> r.value.drawings == [])
      && (StoredFile(root, AppStateKey, TabsKey).None? ==> r.value.appState == DefaultAppState)
      && (StoredFile(root, AppStateKey, TabsKey).Some? ==>
            c.decodeTabs(StoredFile(root, AppStateKey, TabsKey).value) == Some(r.value.appState.tabCustomization))
      && (StoredFile(root, IntegrationsKey, BluemapKey).None? ==> r.value.integrations == DefaultIntegrations)
      && (StoredFile(root, IntegrationsKey, BluemapKey).Some? ==>
            c.decodeBluemap(StoredFile(root, IntegrationsKey, BluemapKey).value) == Some(r.value.integrations.bluemap))
  {
    var m := DeclaredManifest(c, root);
    assert ReadManifest(c, Metadata(root)) == Success(m);
    var loaded := ReadLibrary(c, root, m, newId, pinOrder, drawingOrder).value;
    if Features.GrantsAll(m.manifestVersion) {
      var files := LibraryFiles(root, PinsKey);
      DecodeFilesYieldsContributions(files, pinOrder, c.decodePin);
      assert multiset(loaded.pins) ==
        multiset(LiftPins(m.pins, newId)) + multiset(DecodeFiles(files, pinOrder, c.decodePin).value);
    }
  }

  /** A package whose `Info.json` decodes as the pre-versioning or the v1
      generation opens at version 1, so `Library` is never looked at: the
      outcome depends on the manifest, tabs and Bluemap files alone, and the
      pins stay inline in the manifest. */
  lemma OlderGenerationsIgnoreLibrary(c: JsonCodec, root: Tree, newId: IdSource,
                                      pinOrder: seq<string>, drawingOrder: seq<string>)
    requires Lawful(c)
    requires HasMetadata(root) && c.decodeManifest(Metadata(root)).Some? && !c.decodeManifest(Metadata(root)).value.V2?
    ensures var r := DecodeDocument(c, root, newId, pinOrder, drawingOrder);
      && (r.Success? <==> ReadTabs(c, root).Success? && ReadBluemap(c, root).Success?)
      && (r.Success? ==>
            && r.value.manifest == DeclaredManifest(c, root)
            && r.value.manifest.manifestVersion == Some(1)
            && r.value.manifest.pins == Manifest.PinsOf(c.decodeManifest(Metadata(root)).value)
            && r.value.pins == []
            && r.value.drawings == [])
  {
    var vm := c.decodeManifest(Metadata(root)).value;
    Manifest.MigratedVersionByGeneration(vm);
    assert !Features.GrantsAll(DeclaredManifest(c, root).manifestVersion);
    if ReadsCleanly(c, root, pinOrder, drawingOrder) {
      DecodedDocument(c, root, newId, pinOrder, drawingOrder);
    }
  }

  /** Opening a package: the pin and drawing folders are enumerated in an
      unspecified order, each child exactly once, and the document is decoded. */
  method Open(c: JsonCodec, root: Tree, newId: IdSource)
    returns (r: Result<Document, DecodeError>, pinOrder: seq<string>, drawingOrder: seq<string>)
    ensures IsEnumeration(pinOrder, LibraryFiles(root, PinsKey))
    ensures IsEnumeration(drawingOrder, LibraryFiles(root, DrawingsKey))
    ensures r == DecodeDocument(c, root, newId, pinOrder, drawingOrder)
  {
    pinOrder := Enumerate(LibraryFiles(root, PinsKey));
    drawingOrder := Enumerate(LibraryFiles(root, DrawingsKey));
    r := DecodeDocument(c, root, newId, pinOrder, drawingOrder);
  }

  /** Whether a package opens, and what it opens to up to the order of pins
      of equal names and of drawings, does not depend on the enumeration. */
  lemma OpeningIsOrderFree(c: JsonCodec, root: Tree, newId: IdSource,
                           p1: seq<string>, d1: seq<string>, p2: seq<string>, d2: seq<string>)
    requires IsEnumeration(p1, LibraryFiles(root, PinsKey)) && IsEnumeration(p2, LibraryFiles(root, PinsKey))
    requires IsEnumeration(d1, LibraryFiles(root, DrawingsKey)) && IsEnumeration(d2, LibraryFiles(root, DrawingsKey))
    ensures DecodeDocument(c, root, newId, p1, d1).Success? <==> DecodeDocument(c, root, newId, p2, d2).Success?
    ensures DecodeDocument(c, root, newId, p1, d1).Success? ==>
      var a, b := DecodeDocument(c, root, newId, p1, d1).value, DecodeDocument(c, root, newId, p2, d2).value;
      && a.manifest == b.manifest && a.images == b.images
      && a.appState == b.appState && a.integrations == b.integrations
      && multiset(a.pins) == multiset(b.pins)
      && multiset(a.drawings) == multiset(b.drawings)
  {
    var pins, drawings := LibraryFiles(root, PinsKey), LibraryFiles(root, DrawingsKey);
    DecodeIsOrderFree(pins, p1, p2, c.decodePin);
    DecodeIsOrderFree(drawings, d1, d2, c.decodeDrawing);
    EnumerationsArePermutations(p1, p2, pins);
    ContributionsAreOrderFree(pins, p1, p2, c.decodePin);
    if ReadsCleanly(c, root, p1, d1) {
      DecodedDocument(c, root, newId, p1, d1);
      DecodedDocument(c, root, newId, p2, d2);
    }
  }

  // ---------------------------------------------------------------------------
  // Writing

  /** A pin's file is named after the pin. */
  function PinFileName(p: Pin): string {
    p.name + ".json"
  }

  /** A drawing's file is named after its identifier. */
  function DrawingFileName(d: Drawing): string {
    d.id.uuidString + ".json"
  }

  /** One regular file per image, under the image's own name. */
  function ImageFiles(images: ImageMap): (files: map<string, Tree>)
    ensures files.Keys == images.Keys
    ensures forall k :: k in files ==> files[k] == Blob(images[k])
  {
    map k | k in images :: Blob(images[k])
  }

  /** `wrapper()`. `Info.json` and `Images` are always written. Every other
      folder exists only when the features differ from `minimumDefault`; its
      files depend on single features: `Tabs.json` on tab customisation,
      `Bluemap.json` on integrations, pin files on the separate library, and
      drawing files on the separate library or drawings. */
  function Wrapper(c: JsonCodec, d: Document): (t: Tree)
    ensures t.Dir?
    ensures t.entries.Keys <= {MetadataKey, ImagesKey, AppStateKey, IntegrationsKey, LibraryKey}
    ensures MetadataKey in t.entries && t.entries[MetadataKey] == Blob(ExportMetadata(c, d))
    ensures ImagesKey in t.entries && t.entries[ImagesKey] == Dir(ImageFiles(d.images))
    ensures var extra := SupportedFeatures(d) != Features.MinimumDefault;
      && (AppStateKey in t.entries <==> extra)
      && (IntegrationsKey in t.entries <==> extra)
      && (LibraryKey in t.entries <==> extra)
    ensures AppStateKey in t.entries ==>
      && t.entries[AppStateKey].Dir?
      && t.entries[AppStateKey].entries.Keys <= {TabsKey}
      && (TabsKey in t.entries[AppStateKey].entries <==> SupportedFeatures(d).Contains(Features.TabCustomization))
      && (TabsKey in t.entries[AppStateKey].entries ==>
            t.entries[AppStateKey].entries[TabsKey] == Blob(c.encodeTabs(d.appState.tabCustomization)))
    ensures IntegrationsKey in t.entries ==>
      && t.entries[IntegrationsKey].Dir?
      && t.entries[IntegrationsKey].entries.Keys <= {BluemapKey}
      && (BluemapKey in t.entries[IntegrationsKey].entries <==> SupportedFeatures(d).Contains(Features.Integrations))
      && (BluemapKey in t.entries[IntegrationsKey].entries ==>
            t.entries[IntegrationsKey].entries[BluemapKey] == Blob(c.encodeBluemap(d.integrations.bluemap)))
    ensures LibraryKey in t.entries ==>
      && t.entries[LibraryKey].Dir?
      && t.entries[LibraryKey].entries.Keys == {PinsKey, DrawingsKey}
      && t.entries[LibraryKey].entries[PinsKey] ==
           Dir(if HasSeparateLibrary(d) then EntityFiles(d.pins, PinFileName, c.encodePin) else map[])
      && t.entries[LibraryKey].entries[DrawingsKey] ==
           Dir(if Features.WritesDrawings(SupportedFeatures(d)) then EntityFiles(d.drawings, DrawingFileName, c.encodeDrawing) else map[])
  {
    var fs := SupportedFeatures(d);
    var base := map[MetadataKey := Blob(ExportMetadata(c, d)), ImagesKey := Dir(ImageFiles(d.images))];
    if fs == Features.MinimumDefault then Dir(base)
    else
      var tabs := if fs.Contains(Features.TabCustomization)
                  then map[TabsKey := Blob(c.encodeTabs(d.appState.tabCustomization))] else map[];
      var integrations := if fs.Contains(Features.Integrations)
                          then map[BluemapKey := Blob(c.encodeBluemap(d.integrations.bluemap))] else map[];
      var pins := if fs.Contains(Features.SeparateLibrary) then EntityFiles(d.pins, PinFileName, c.encodePin) else map[];
      var drawings := if Features.WritesDrawings(fs) then EntityFiles(d.drawings, DrawingFileName, c.encodeDrawing) else map[];
      var library := map[PinsKey := Dir(pins), DrawingsKey := Dir(drawings)];
      Dir(base[AppStateKey := Dir(tabs)][IntegrationsKey := Dir(integrations)][LibraryKey := Dir(library)])
  }

  /** In terms of the manifest version: a version of 2 or more writes every
      folder and file, anything else only `Info.json` and `Images`. */
  lemma LayoutByVersion(c: JsonCodec, d: Document)
    ensures var t := Wrapper(c, d);
      var full := Features.GrantsAll(d.manifest.manifestVersion);
      && (AppStateKey in t.entries <==> full)
      && (full ==> TabsKey in t.entries[AppStateKey].entries)
      && (full ==> BluemapKey in t.entries[IntegrationsKey].entries)
      && (full ==> t.entries[LibraryKey].entries[PinsKey] == Dir(EntityFiles(d.pins, PinFileName, c.encodePin)))
      && (full ==> t.entries[LibraryKey].entries[DrawingsKey] ==
                   Dir(EntityFiles(d.drawings, DrawingFileName, c.encodeDrawing)))
  {
    Features.ResolveIsMinimumIffBelowTwo(d.manifest.manifestVersion);
  }

  // ---------------------------------------------------------------------------
  // Saving and reopening

  /** Appending the same suffix keeps two strings apart. */
  lemma SuffixKeepsDistinct(a: string, b: string, suffix: string)
    requires a != b
    ensures a + suffix != b + suffix
  {
    if |a| == |b| {
      assert a == (a + suffix)[..|a|] && b == (b + suffix)[..|b|];
    }
  }

  /** Pins with distinct names are written to distinct files. */
  lemma DistinctNamesDistinctFiles(pins: seq<Pin>)
    requires forall i, j :: 0 <= i < j < |pins| ==> pins[i].name != pins[j].name
    ensures NoDuplicates(Names(pins, PinFileName))
  {
    var names := Names(pins, PinFileName);
    forall i, j | 0 <= i < j < |pins|
      ensures names[i] != names[j]
    {
      SuffixKeepsDistinct(pins[i].name, pins[j].name, ".json");
    }
  }

  /** Drawings with distinct identifiers are written to distinct files. */
  lemma DistinctIdsDistinctFiles(drawings: seq<Drawing>)
    requires forall i, j :: 0 <= i < j < |drawings| ==> drawings[i].id != drawings[j].id
    ensures NoDuplicates(Names(drawings, DrawingFileName))
  {
    var names := Names(drawings, DrawingFileName);
    forall i, j | 0 <= i < j < |drawings|
      ensures names[i] != names[j]
    {
      SuffixKeepsDistinct(drawings[i].id.uuidString, drawings[j].id.uuidString, ".json");
    }
  }

  /** What `wrapper()` writes reads cleanly, and declares the exported
      manifest. */
  lemma WrapperReadsCleanly(c: JsonCodec, d: Document, pinOrder: seq<string>, drawingOrder: seq<string>)
    requires Lawful(c)
    ensures ReadsCleanly(c, Wrapper(c, d), pinOrder, drawingOrder)
    ensures DeclaredManifest(c, Wrapper(c, d)) == d.manifest.(manifestVersion := Some(Manifest.LatestVersion))
  {
    var t := Wrapper(c, d);
    ExportedMetadataReadsBack(c, d);
    assert c.decodeManifest(Metadata(t)) == Some(Manifest.V2(d.manifest.(manifestVersion := Some(Manifest.LatestVersion))));
    WrittenFilesDecode(c, d, pinOrder, drawingOrder);
  }

  /** Saving and reopening keeps the manifest, with its inline pins moved out
      and the latest version tag; keeps the images; and keeps the interface
      state and integrations exactly when version 2 or later wrote them. */
  lemma RoundTripKeepsContents(c: JsonCodec, d: Document, newId: IdSource, pinOrder: seq<string>, drawingOrder: seq<string>)
    requires Lawful(c)
    ensures var r := DecodeDocument(c, Wrapper(c, d), newId, pinOrder, drawingOrder);
      var full := Features.GrantsAll(d.manifest.manifestVersion);
      && r.Success?
      && r.value.manifest == d.manifest.(manifestVersion := Some(Manifest.LatestVersion), pins := [])
      && r.value.images == d.images
      && r.value.appState == (if full then d.appState else DefaultAppState)
      && r.value.integrations == (if full then d.integrations else DefaultIntegrations)
  {
    var t := Wrapper(c, d);
    WrapperReadsCleanly(c, d, pinOrder, drawingOrder);
    DecodedDocument(c, t, newId, pinOrder, drawingOrder);
    WrappedStateFiles(c, d);
    ImagesReadBack(t, d.images);
  }

  /** From version 2 on, `wrapper()` stores the tab customization and the
      Bluemap settings, encoded, under their folders; below it, neither. */
  lemma WrappedStateFiles(c: JsonCodec, d: Document)
    ensures var t := Wrapper(c, d);
      var full := Features.GrantsAll(d.manifest.manifestVersion);
      && StoredFile(t, AppStateKey, TabsKey) == (if full then Some(c.encodeTabs(d.appState.tabCustomization)) else None)
      && StoredFile(t, IntegrationsKey, BluemapKey) == (if full then Some(c.encodeBluemap(d.integrations.bluemap)) else None)
  {
    LayoutByVersion(c, d);
  }

  /** The `Images` folder `wrapper()` writes reads back as the same map. */
  lemma ImagesReadBack(t: Tree, images: ImageMap)
    requires t.Dir? && ImagesKey in t.entries && t.entries[ImagesKey] == Dir(ImageFiles(images))
    ensures ReadImages(t) == images
  {
    var r := ReadImages(t);
    assert DirFiles(t.entries, ImagesKey) == ImageFiles(images);
    assert r.Keys == images.Keys;
    forall k | k in r
      ensures r[k] == images[k]
    {
      assert Some(r[k]) == RegularFile(ImageFiles(images), k);
    }
  }

  /** Every file `wrapper()` writes decodes again, whatever the order. */
  lemma WrittenFilesDecode(c: JsonCodec, d: Document, pinOrder: seq<string>, drawingOrder: seq<string>)
    requires Lawful(c)
    ensures forall i :: 0 <= i < |pinOrder| ==> !Rejects(LibraryFiles(Wrapper(c, d), PinsKey), pinOrder[i], c.decodePin)
    ensures forall i :: 0 <= i < |drawingOrder| ==>
      !Rejects(LibraryFiles(Wrapper(c, d), DrawingsKey), drawingOrder[i], c.decodeDrawing)
  {
    var t := Wrapper(c, d);
    forall i | 0 <= i < |pinOrder|
      ensures !Rejects(LibraryFiles(t, PinsKey), pinOrder[i], c.decodePin)
    {
      var files, k := LibraryFiles(t, PinsKey), pinOrder[i];
      if k in files {
        var n :| 0 <= n < |d.pins| && PinFileName(d.pins[n]) == k;
        var last := LastNamed(d.pins, PinFileName, n);
        LastWriteWins(d.pins, PinFileName, c.encodePin, last);
      }
    }
    forall i | 0 <= i < |drawingOrder|
      ensures !Rejects(LibraryFiles(t, DrawingsKey), drawingOrder[i], c.decodeDrawing)
    {
      var files, k := LibraryFiles(t, DrawingsKey), drawingOrder[i];
      if k in files {
        var n :| 0 <= n < |d.drawings| && DrawingFileName(d.drawings[n]) == k;
        var last := LastNamed(d.drawings, DrawingFileName, n);
        LastWriteWins(d.drawings, DrawingFileName, c.encodeDrawing, last);
      }
    }
  }

  /** The last element written under the file name of element `n`. */
  function LastNamed<T>(xs: seq<T>, fileName: T -> string, n: int): (last: int)
    requires 0 <= n < |xs|
    ensures n <= last < |xs| && fileName(xs[last]) == fileName(xs[n]) && IsLastNamed(xs, fileName, last)
    decreases |xs| - n
  {
    if forall j :: n < j < |xs| ==> fileName(xs[j]) != fileName(xs[n]) then n
    else
      var j :| n < j < |xs| && fileName(xs[j]) == fileName(xs[n]);
      LastNamed(xs, fileName, j)
  }

  /** Saving and reopening gives back the inline pins lifted once more and,
      from version 2 on with distinct pin names, every library pin; the pins
      come back sorted. Below version 2 only the lifted inline pins come back. */
  lemma RoundTripKeepsPins(c: JsonCodec, d: Document, newId: IdSource, pinOrder: seq<string>, drawingOrder: seq<string>)
    requires Lawful(c)
    requires forall i, j :: 0 <= i < j < |d.pins| ==> d.pins[i].name != d.pins[j].name
    requires IsEnumeration(pinOrder, LibraryFiles(Wrapper(c, d), PinsKey))
    ensures var r := DecodeDocument(c, Wrapper(c, d), newId, pinOrder, drawingOrder);
      var full := Features.GrantsAll(d.manifest.manifestVersion);
      && r.Success?
      && SortedBy(r.value.pins, NameKey)
      && multiset(r.value.pins) == multiset(LiftPins(d.manifest.pins, newId)) + (if full then multiset(d.pins) else multiset{})
  {
    var t := Wrapper(c, d);
    WrapperReadsCleanly(c, d, pinOrder, drawingOrder);
    DecodedDocument(c, t, newId, pinOrder, drawingOrder);
    LayoutByVersion(c, d);
    var pinFiles := LibraryFiles(t, PinsKey);
    if Features.GrantsAll(d.manifest.manifestVersion) {
      assert pinFiles == EntityFiles(d.pins, PinFileName, c.encodePin);
      DistinctNamesDistinctFiles(d.pins);
      DecodeWrittenFiles(d.pins, PinFileName, c.encodePin, c.decodePin, pinOrder);
      DecodeFilesYieldsContributions(pinFiles, pinOrder, c.decodePin);
    } else {
      assert pinFiles == map[];
      NothingToDecode(pinOrder, c.decodePin);
    }
  }

  /** Saving and reopening from version 2 on, with distinct drawing
      identifiers, gives back every drawing; below version 2 none. */
  lemma RoundTripKeepsDrawings(c: JsonCodec, d: Document, newId: IdSource, pinOrder: seq<string>, drawingOrder: seq<string>)
    requires Lawful(c)
    requires forall i, j :: 0 <= i < j < |d.drawings| ==> d.drawings[i].id != d.drawings[j].id
    requires IsEnumeration(drawingOrder, LibraryFiles(Wrapper(c, d), DrawingsKey))
    ensures var r := DecodeDocument(c, Wrapper(c, d), newId, pinOrder, drawingOrder);
      && r.Success?
      && multiset(r.value.drawings) == (if Features.GrantsAll(d.manifest.manifestVersion) then multiset(d.drawings) else multiset{})
  {
    var t := Wrapper(c, d);
    WrapperReadsCleanly(c, d, pinOrder, drawingOrder);
    DecodedDocument(c, t, newId, pinOrder, drawingOrder);
    LayoutByVersion(c, d);
    var drawingFiles := LibraryFiles(t, DrawingsKey);
    if Features.GrantsAll(d.manifest.manifestVersion) {
      assert drawingFiles == EntityFiles(d.drawings, DrawingFileName, c.encodeDrawing);
      DistinctIdsDistinctFiles(d.drawings);
      DecodeWrittenFiles(d.drawings, DrawingFileName, c.encodeDrawing, c.decodeDrawing, drawingOrder);
    } else {
      assert drawingFiles == map[];
      NothingToDecode(drawingOrder, c.decodeDrawing);
    }
  }

  /** Two pins of the same name share one file, which holds the later pin. */
  lemma SameNamedPinsCollapse(c: JsonCodec, d: Document, a: Pin, b: Pin)
    requires Features.GrantsAll(d.manifest.manifestVersion)
    requires d.pins == [a, b] && a.name == b.name
    ensures LibraryFiles(Wrapper(c, d), PinsKey) == map[PinFileName(b) := Blob(c.encodePin(b))]
  {
    LayoutByVersion(c, d);
    var files := EntityFiles(d.pins, PinFileName, c.encodePin);
    LastWriteWins(d.pins, PinFileName, c.encodePin, 1);
    assert files.Keys == {PinFileName(b)};
  }

  /** An empty folder decodes to nothing, whatever names are listed. */
  lemma {:induction false} NothingToDecode<T>(order: seq<string>, decode: Bytes -> Option<T>)
    ensures DecodeFiles(map[], order, decode) == Some([])
    ensures Contributions(map[], order, decode) == multiset{}
  {
    if |order| > 0 {
      NothingToDecode(order[..|order| - 1], decode);
    }
  }

  /** A document read with `init(decoding:)` keeps its inline pins in the
      manifest after lifting them into the library, and `wrapper()` writes
      both. Reopening the package therefore lifts the inline pins a second
      time: under version 2 every inline pin comes back twice. */
  lemma ReopeningDuplicatesInlinePins(c: JsonCodec, data: Bytes, newId: IdSource, newId': IdSource,
                                      pinOrder: seq<string>, drawingOrder: seq<string>)
    requires Lawful(c)
    requires Json.ReadManifest(c, data).Success?
    requires var m := Json.ReadManifest(c, data).value;
      Features.GrantsAll(m.manifestVersion) &&
      forall i, j :: 0 <= i < j < |m.pins| ==> m.pins[i].name != m.pins[j].name
    requires var d := DocumentFromData(c, data, newId).value;
      IsEnumeration(pinOrder, LibraryFiles(Wrapper(c, d), PinsKey)) &&
      IsEnumeration(drawingOrder, LibraryFiles(Wrapper(c, d), DrawingsKey))
    ensures var m := Json.ReadManifest(c, data).value;
      var d := DocumentFromData(c, data, newId).value;
      var r := DecodeDocument(c, Wrapper(c, d), newId', pinOrder, drawingOrder);
      && r.Success?
      && |r.value.pins| == 2 * |m.pins|
      && multiset(r.value.pins) == multiset(LiftPins(m.pins, newId')) + multiset(LiftPins(m.pins, newId))
  {
    var m := Json.ReadManifest(c, data).value;
    var d := DocumentFromData(c, data, newId).value;
    assert d.pins == LiftPins(m.pins, newId);
    RoundTripKeepsPins(c, d, newId', pinOrder, drawingOrder);
    var r := DecodeDocument(c, Wrapper(c, d), newId', pinOrder, drawingOrder);
    assert |multiset(r.value.pins)| == |multiset(LiftPins(m.pins, newId'))| + |multiset(LiftPins(m.pins, newId))|;
  }

  /** A version 2 document decoded from data, given images and a drawing,
      then saved and reopened, declares its manifest without the inline pins
      and keeps its images and drawings. */
  lemma SavedDecodedDocumentReopens(c: JsonCodec, data: Bytes, newId: IdSource, newId': IdSource,
                                    images: ImageMap, drawing: Drawing, pinOrder: seq<string>, drawingOrder: seq<string>)
    requires Lawful(c)
    requires Json.ReadManifest(c, data).Success?
    requires Json.ReadManifest(c, data).value.manifestVersion == Some(Manifest.LatestVersion)
    requires var d := DocumentFromData(c, data, newId).value.(images := images, drawings := [drawing]);
      IsEnumeration(drawingOrder, LibraryFiles(Wrapper(c, d), DrawingsKey))
    ensures var m := Json.ReadManifest(c, data).value;
      var d := DocumentFromData(c, data, newId).value.(images := images, drawings := [drawing]);
      var r := DecodeDocument(c, Wrapper(c, d), newId', pinOrder, drawingOrder);
      && r.Success?
      && r.value.manifest == m.(pins := [])
      && r.value.images == images
      && r.value.drawings == [drawing]
  {
    var m := Json.ReadManifest(c, data).value;
    var d := DocumentFromData(c, data, newId).value.(images := images, drawings := [drawing]);
    assert d.manifest == m;
    assert m.(manifestVersion := Some(Manifest.LatestVersion)) == m;
    RoundTripKeepsContents(c, d, newId', pinOrder, drawingOrder);
    RoundTripKeepsDrawings(c, d, newId', pinOrder, drawingOrder);
    var r := DecodeDocument(c, Wrapper(c, d), newId', pinOrder, drawingOrder);
    SingletonMultiset(r.value.drawings, drawing);
  }

  /** The only sequence with the elements of `[x]` is `[x]`. */
  lemma SingletonMultiset<T>(s: seq<T>, x: T)
    requires multiset(s) == multiset{x}
    ensures s == [x]
  {
    assert |s| == |multiset(s)| == 1;
    assert s[0] in multiset(s);
  }
}
