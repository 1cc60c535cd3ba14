# mcmap document codec, in Dafny

A model of the core of the `.mcmap` package format of AlidadeMC/mcmap, the
Swift library behind a Minecraft map companion. A `.mcmap` file is a package
directory. `Info.json` holds the manifest: the world's name, seed and game
version, and, in older files, the player's pins inline. The other folders
are `Images`, `AppState/Tabs.json`, `Integrations/Bluemap.json` and a
`Library` with one JSON file per pin (`Pins`) and per drawing (`Drawings`).

The model covers:

- **Feature resolution** (`Features`). `CartographyMapFeatures` is a 64-bit
  option set. `init(representing:)` resolves it from the manifest's optional
  version key: `minimumDefault` always, and every other flag from version 2
  on.
- **The manifest chain** (`Manifest`). The pre-versioning, v1 and v2
  generations, each migrated to the next on decoding.
- **The document aggregate** (`MapFile`). `CartographyMapFile` with its tag
  universe and its constructors. It also covers the version repair on export
  and the four pin-removal operations with their image clean-up.
- **Pins and icons** (`Library`, `Icons`). The standalone pin with its
  migration from the inline manifest pin. The icon raw-value codec,
  `String.dotCase`, and the resolution of icons to symbol names.
- **The container codec** (`Container`, over `FileTree`).
  `init(fileWrappers:)`, `migratePinDataIfNecessary`, `loadLibrary` and
  `wrapper()`. Each works on an abstract tree of regular files and
  directories, and the resolved features decide which sub-trees are read or
  written.

Design:

- **JSON.** Entity (de)serialisation is a record of total functions,
  `Json.JsonCodec`. The laws it is assumed to obey are the ghost predicate
  `Json.Lawful`: decoding what was encoded gives the value back. A manifest
  is always written with the latest generation's tag, version 2, and a
  manifest that decodes holds the version key of the generation it decoded
  as (none, 1 or 2), since versioned decoding dispatches on that key. Every
  round-trip lemma takes `Lawful` as a precondition, so no axiom is
  involved. `LawfulCodec.Witness` builds one lawful codec, so these lemmas
  are not vacuous. It maps every value one-to-one onto a tree of numbers
  that has a prefix-free byte form, and it decodes by choosing the one
  value with the given bytes. Such a codec exists only because every
  encoded type is countable, which is why a `CGFloat` coordinate is held as
  its 64-bit pattern (`Basics.Float64`) and not as a real number.
- **Dictionary iteration order.** Swift dictionaries iterate in an
  unspecified order. The decoder therefore takes the order as a parameter
  constrained by `FileTree.IsEnumeration`, which says each child is listed
  exactly once. `Container.Open` chooses one with `FileTree.Enumerate`.
  `Container.OpeningIsOrderFree` shows the outcome does not depend on the
  order, up to the order of the decoded elements.
- **Fresh UUIDs.** Fresh `UUID()` values come from a parameter
  `newId: nat -> Uuid`. The `i`-th pin migrated in one batch receives
  `newId(i)`.
- **Unicode.** Emoji detection is an uninterpreted predicate on characters.
  Case mapping and string order are restricted to ASCII and code-point
  order.

Assumptions where the code relies on declarations that are not in it:

- **The drawings flag.** The container codec uses a `.drawings` feature and a
  `Keys.drawings` key that neither `CartographyMapFeatures` nor `Keys`
  declares. The model gives the flag the next free bit (`1 << 8`) and grants
  it from version 2 on, with the other flags. The key is the folder name
  `"Drawings"`.
- **Icon cases.** `resolveSFSymbol(in:)` names icon cases that
  `CartographyIcon` does not define. Only the defined cases are modelled.

## Model

| member | source | states |
|---|---|---|
| Features.Resolve | Sources/MCMap/CartographyMapFeatures.swift:61-80 | Every resolved set contains `minimumDefault`. An absent version or any version below 2 resolves to exactly `minimumDefault`. A flag is present iff it is core search or core pinning, or the version is at least 2. |
| Features.InsertIsUnion | Sources/MCMap/CartographyMapFeatures.swift:24-59 | Each flag owns a distinct bit, so after `insert(f)` a flag `g` is present iff it was present before or `g` is `f`. |
| Features.InsertAddsMember | Sources/MCMap/CartographyMapFeatures.swift:24-59 | Inserting a flag adds exactly that flag to the set of named members. |
| Features.ResolveMembers | Sources/MCMap/CartographyMapFeatures.swift:65-80 | The resolved members are all nine flags from version 2 on. Otherwise they are only core search and core pinning. |
| Features.ResolveIsMonotone | Sources/MCMap/CartographyMapFeatures.swift:68-79 | A larger version (an absent one being the smallest) never resolves to fewer flags. |
| Features.ResolveIsMinimumIffBelowTwo | Sources/MCMap/CartographyMapFeatures.swift:66-79 | The resolved set equals `minimumDefault` exactly when the version is absent or below 2. |
| Features.DrawingRulesAgreeOnResolvedSets | Sources/MCMap/SwiftUI/CartographyMapFile+FileDocument.swift:94-166 | Drawings are read under separate library AND drawings, and written under separate library OR drawings. The two rules agree on every resolved set but differ on a set holding only the separate library. |
| Manifest.V1FixtureMigratesToV2Fixture | Tests/MCMapTests/CartographyMapFileTests.swift:182-249 | The v1 `Pack.mcmeta` fixture migrates to the v2 fixture, except for the in-memory version key, which stays 1. |
| Json.ReadManifest | Sources/MCMap/SwiftUI/CartographyMapFile+FileDocument.swift:35-36 | Reading the manifest fails with a malformed-manifest error iff no generation decodes. Otherwise it yields the migrated manifest: the decoded name, pins, world settings and recent locations, and the version key the migration leaves (1 for a pre-versioning manifest, the decoded key otherwise). |
| Library.ColorFromRawValue | Sources/MCMap/Library/CartographyMapPin.swift:20-47 | Exactly the nine colour names parse, each to the colour that spells it. |
| Library.ColorNamesAgree | Sources/MCMapFormat/MCMapManifestPin.swift:16-18 | Every inline-pin colour's raw name parses as a library-pin colour. |
| Library.NewPin | Sources/MCMap/Library/CartographyMapPin.swift:83-103 | The memberwise initialiser stores every argument as given, and a nil description becomes "". Defaults: colour blue, icon default, empty images and tags, no alternate IDs. |
| Library.MigratePin | Sources/MCMap/Library/CartographyMapPin.swift:115-125 | Migration copies name, position and tags, and maps the colour by name with nil becoming blue. It maps the description with nil becoming "", and makes the image list a set with nil becoming empty. It sets the default icon, no alternate IDs and the fresh id. |
| Library.LiftPins | Sources/MCMap/CartographyMapFile.swift:143 | Lifting migrates every inline pin in order, the `i`-th with the `i`-th fresh id. |
| Icons.Parse | Sources/MCMap/Library/CartographyIcon.swift:39-58 | The six case names parse to their cases before the emoji check. Any other all-emoji string (the empty one included) parses to an emoji icon, and anything else fails. On success the raw value is the input. |
| Icons.ParseRawValue | Sources/MCMap/Library/CartographyIcon.swift:39-70 | Parsing an icon's raw value gives the icon back iff it is a named case, or an emoji whose text is all emoji and is not a case name. |
| Icons.ParseExamples | Tests/MCMapTests/CartographyIconTests.swift:14-31 | "default" parses to the default icon. A car emoji parses to itself and is its own raw value. "foo" is rejected. |
| Icons.DotCase | Sources/MCMap/SwiftUI/IconResolution.swift:11-24 | The output has no upper-case letter. Its length is the input's plus one per upper-case letter after the first character. |
| Icons.ComputeDotCase | Sources/MCMap/SwiftUI/IconResolution.swift:11-24 | The character loop, which dots a capital whenever output already exists, computes the per-character definition. |
| Icons.DotCaseOfLowerIsIdentity | Sources/MCMap/SwiftUI/IconResolution.swift:13-17 | A string without upper-case letters is unchanged. |
| Icons.DotCaseIsInvertible | Sources/MCMap/SwiftUI/IconResolution.swift:13-21 | On a dot-free string not starting with a capital, re-raising each letter after a dot recovers the input. |
| Icons.DotCaseIsLoweredInput | Sources/MCMap/SwiftUI/IconResolution.swift:13-21 | With the inserted dots removed, the output is the lowercased input, character by character, in order. |
| Icons.ResolveSymbol | Sources/MCMap/SwiftUI/IconResolution.swift:36-60 | Pins resolve default to "mappin", home to "house", town to "building.2" and sparkly bubbles to "bubbles.and.sparkles". Every other case resolves to the dot-case of its raw value. |
| Icons.ResolveFallbacks | Sources/MCMap/SwiftUI/IconResolution.swift:58 | Building and book resolve to their own names, and an emoji without capitals resolves to itself. |
| Sequences.SortBy | Sources/MCMap/SwiftUI/CartographyMapFile+FileDocument.swift:47-50 | The sorted pins are a permutation of the input and ascend by key. |
| Sequences.RemoveAtKeepsOrder | Sources/MCMap/CartographyMapFile.swift:215 | `remove(atOffsets:)` keeps exactly the elements at the indices not removed, in their original order. |
| Sequences.RemoveAtMembership | Sources/MCMap/CartographyMapFile.swift:215 | A value survives removal iff it sits at some index that is not removed. |
| Sequences.RemoveAtLength | Sources/MCMap/CartographyMapFile.swift:215 | Removal shortens the list by the number of in-range offsets. |
| Sequences.RemoveAtSingle | Sources/MCMap/CartographyMapFile.swift:180 | Removing a one-index offset set is `remove(at:)`. |
| MapFile.SupportedFeatures | Sources/MCMap/CartographyMapFile.swift:109-112 | A document's features include `minimumDefault` and depend on the manifest's version key alone. |
| MapFile.PinTags | Sources/MCMap/CartographyMapFile.swift:123-129 | A tag is collected iff some pin has a non-nil tag set containing it. |
| MapFile.Tags | Sources/MCMap/CartographyMapFile.swift:120-130 | Without pin tagging there are no tags. With it, a tag is offered iff some library pin carries it. |
| MapFile.NoTagsBeforeVersionTwo | Tests/MCMapFormatTests/MCMapManifestTests.swift:14-25 | A document over a manifest migrated from an unversioned v1 value has no tags. |
| MapFile.AllAvailableTags | Tests/MCMapFormatTests/MCMapManifestTests.swift:27-41 | The version-2 test manifest offers exactly "Autocreated", "Forest" and "Base". |
| MapFile.NewDocument | Sources/MCMap/CartographyMapFile.swift:136-144 | The manifest and images are stored unchanged. Under the separate library the pins are the migrated inline pins in order, and the `pins` argument is discarded; otherwise the pins are the argument. |
| MapFile.DocumentFromData | Sources/MCMap/CartographyMapFile.swift:150-159 | A manifest read failure is passed on. Otherwise the result is the document with that manifest and no images, whose inline pins are lifted without leaving the manifest. |
| MapFile.RepairVersion | Sources/MCMap/CartographyMapFile.swift:162-166 | A missing version becomes 1, a present version is kept, and no other field changes. |
| MapFile.ExportedMetadataReadsBack | Sources/MCMap/CartographyMapFile.swift:161-170 | Reading the exported metadata gives the document's manifest back with the latest version tag. |
| MapFile.ExportOfDecodedManifests | Tests/MCMapTests/CartographyMapFileTests.swift:71-92 | Exporting a decoded version-2 manifest reproduces it. Exporting the decoded v1 fixture yields the v2 fixture. |
| MapFile.RemovePinFromLibrary | Sources/MCMap/CartographyMapFile.swift:172-181 | An out-of-range index changes nothing. Otherwise exactly that pin goes, the rest keep their order, exactly its images are deleted, and nothing else changes. |
| MapFile.RemovePin | Sources/MCMap/CartographyMapFile.swift:183-195 | The same on the inline manifest pins. |
| MapFile.RemoveClassicPins | Sources/MCMap/CartographyMapFile.swift:218-229 | Drops the inline pins at the offsets and every image any of them names. Kept images keep their data, and nothing else changes. |
| MapFile.RemovePins | Sources/MCMap/CartographyMapFile.swift:197-216 | Requires every offset to be in range. Under the separate library it drops the library pins at the offsets and the union of their images; otherwise it removes the inline pins. |
| MapFile.RemoveOneIsRemoveSet | Sources/MCMap/CartographyMapFile.swift:172-216 | Removing one library pin by index equals removing the one-element offset set. |
| MapFile.RemovePinsSurvivors | Sources/MCMap/CartographyMapFile.swift:201-216 | The survivors number the pins minus the offsets, and are exactly the pins at the other indices. |
| MapFile.RemovalKeepsImagesResolvable | Sources/MCMap/CartographyMapFile.swift:201-216 | If every named image is stored and no two pins share one, every image a surviving pin names is still stored after removal. |
| MapFile.SharedImageDangles | Sources/MCMap/CartographyMapFile.swift:172-181 | Without exclusivity, removing one of two pins that share an image leaves the other naming a deleted image. |
| MapFile.RemoveOnlyPinExample | Tests/MCMapTests/CartographyMapFileTests.swift:155-164 | Removing the sample file's only pin deletes its image and leaves no pins. |
| MapFile.RemoveOffsetsExample | Tests/MCMapTests/CartographyMapFileTests.swift:166-178 | Removing offsets 0 and 2 of three pins keeps the middle one and deletes both images. |
| FileTree.Enumerate | Sources/MCMap/SwiftUI/CartographyMapFile+FileDocument.swift:84-85 | Iterating a folder visits each child exactly once. |
| FileTree.EnumerationsArePermutations | Sources/MCMap/SwiftUI/CartographyMapFile+FileDocument.swift:84-85 | Any two iteration orders of a folder are permutations of each other. |
| FileTree.DecodeFiles | Sources/MCMap/SwiftUI/CartographyMapFile+FileDocument.swift:84-92 | Decoding a folder fails iff some regular file in it does not decode. Sub-folders are skipped. |
| FileTree.DecodeFilesYieldsContributions | Sources/MCMap/SwiftUI/CartographyMapFile+FileDocument.swift:84-92 | On success, the decoded elements are exactly one per regular file, as a multiset. |
| FileTree.ContributionsAreOrderFree | Sources/MCMap/SwiftUI/CartographyMapFile+FileDocument.swift:84-92 | The multiset of decoded elements is the same for any permutation of the iteration order. |
| FileTree.DecodeIsOrderFree | Sources/MCMap/SwiftUI/CartographyMapFile+FileDocument.swift:84-105 | For two iteration orders of a folder, decoding succeeds in both or fails in both, with the same multiset. |
| FileTree.EntityFiles | Sources/MCMap/SwiftUI/CartographyMapFile+FileDocument.swift:150-166 | There is one file per distinct element file name, and no other. |
| FileTree.LastWriteWins | Sources/MCMap/SwiftUI/CartographyMapFile+FileDocument.swift:152-156 | The file under a name holds the last element written under that name. |
| FileTree.DecodeWrittenFiles | Sources/MCMap/SwiftUI/CartographyMapFile+FileDocument.swift:84-92 | Reading back a folder written from elements with distinct file names succeeds in every order and yields exactly those elements. |
| Container.MigratePinDataIfNecessary | Sources/MCMap/SwiftUI/CartographyMapFile+FileDocument.swift:77-81 | With no inline pins nothing changes. Otherwise the library becomes the migrated inline pins and the manifest loses them, with nothing else changed. |
| Container.MigrationIsIdempotent | Sources/MCMap/SwiftUI/CartographyMapFile+FileDocument.swift:77-81 | Migrating twice equals migrating once. |
| Container.LoadLibrary | Sources/MCMap/SwiftUI/CartographyMapFile+FileDocument.swift:83-106 | Pins are appended and fail with a malformed pin. Only under the drawings flag are drawings appended, failing with a malformed drawing. Nothing else changes. |
| Container.ReadImages | Sources/MCMap/SwiftUI/CartographyMapFile+FileDocument.swift:52-58 | The images are exactly the regular files of `Images` under their own names, or none without the folder. |
| Container.ReadTabs | Sources/MCMap/SwiftUI/CartographyMapFile+FileDocument.swift:60-66 | A present `Tabs.json` must decode and is used. A missing one gives the default. |
| Container.ReadBluemap | Sources/MCMap/SwiftUI/CartographyMapFile+FileDocument.swift:68-74 | A present `Bluemap.json` must decode and is used. A missing one gives the default. |
| Container.ReadLibrary | Sources/MCMap/SwiftUI/CartographyMapFile+FileDocument.swift:37-45 | From version 2 on, the inline pins are lifted and move out of the manifest, followed by the library's pins and drawings; it succeeds iff both folders decode. Below version 2 nothing is read. |
| Container.DecodeDocument | Sources/MCMap/SwiftUI/CartographyMapFile+FileDocument.swift:31-75 | Missing or non-regular `Info.json` gives a corrupt-file error, and a manifest that does not decode gives a malformed-manifest error. Opening succeeds iff every file that is read decodes. |
| Container.DecodedDocument | Sources/MCMap/SwiftUI/CartographyMapFile+FileDocument.swift:31-75 | On success: the manifest loses its inline pins from version 2 on, and the images are the folder's files. The pins are sorted by lowercased name and are the lifted pins plus one per pin file, as a multiset. Drawings are read only from version 2 on. Tabs and integrations are read when present, whatever the version, and default otherwise. |
| Container.OlderGenerationsIgnoreLibrary | Sources/MCMap/SwiftUI/CartographyMapFile+FileDocument.swift:35-44 | Suppose `Info.json` decodes as the pre-versioning or the v1 generation. Then the document opens at version 1 without reading `Library`. It succeeds iff the tabs and Bluemap files read. Its manifest keeps the inline pins, and its pin and drawing lists are empty. |
| Container.Open | Sources/MCMap/SwiftUI/CartographyMapFile+FileDocument.swift:31-45 | Opening picks an iteration order listing each pin file and drawing file once, and decodes with it. |
| Container.OpeningIsOrderFree | Sources/MCMap/SwiftUI/CartographyMapFile+FileDocument.swift:83-105 | Whether a package opens, and its manifest, images, state, integrations and the multisets of pins and drawings, do not depend on the iteration order. |
| Container.ImageFiles | Sources/MCMap/SwiftUI/CartographyMapFile+FileDocument.swift:124-129 | Every image is written as a regular file under its own name, and nothing else. |
| Container.Wrapper | Sources/MCMap/SwiftUI/CartographyMapFile+FileDocument.swift:120-189 | `Info.json` (the exported metadata) and `Images` are always written. `AppState`, `Integrations` and `Library` are present iff the features differ from `minimumDefault`. `Tabs.json` is present iff tab customisation is on, and `Bluemap.json` iff integrations is on. Pin files are written under the separate library, drawing files under separate library or drawings. |
| Container.LayoutByVersion | Sources/MCMap/SwiftUI/CartographyMapFile+FileDocument.swift:168-186 | From version 2 on every folder and file is written, with all pins and drawings. Below it only `Info.json` and `Images` are written. |
| Container.DistinctNamesDistinctFiles | Sources/MCMap/SwiftUI/CartographyMapFile+FileDocument.swift:153 | Pins with distinct names get distinct file names. |
| Container.DistinctIdsDistinctFiles | Sources/MCMap/SwiftUI/CartographyMapFile+FileDocument.swift:162 | Drawings with distinct ids get distinct file names. |
| Container.SameNamedPinsCollapse | Sources/MCMap/SwiftUI/CartographyMapFile+FileDocument.swift:150-157 | Two pins of the same name are written to one file holding the later pin. |
| Container.WrappedStateFiles | Sources/MCMap/SwiftUI/CartographyMapFile+FileDocument.swift:120-186 | From version 2 on, the encoded tab customisation is stored at `AppState/Tabs.json` and the encoded Bluemap settings at `Integrations/Bluemap.json`. Below version 2, neither file exists. |
| Container.WrapperReadsCleanly | Sources/MCMap/SwiftUI/CartographyMapFile+FileDocument.swift:120-189 | Every file `wrapper()` writes decodes again, and the package declares the exported manifest. |
| Container.ImagesReadBack | Sources/MCMap/SwiftUI/CartographyMapFile+FileDocument.swift:124-129 | The written `Images` folder reads back as the same image map. |
| Container.RoundTripKeepsContents | Tests/MCMapTests/CartographyMapFileTests.swift:35-69 | Saving and reopening succeeds, with the manifest at the latest version and without its inline pins, and the same images. Interface state and integrations are kept from version 2 on and default below it. |
| Container.RoundTripKeepsPins | Sources/MCMap/SwiftUI/CartographyMapFile+FileDocument.swift:37-50 | The reopened pins are sorted: the inline pins lifted again plus, from version 2 on with distinct names, every library pin. |
| Container.RoundTripKeepsDrawings | Sources/MCMap/SwiftUI/CartographyMapFile+FileDocument.swift:94-105 | From version 2 on, with distinct ids, every drawing comes back; below it none does. |
| Container.ReopeningDuplicatesInlinePins | Sources/MCMap/CartographyMapFile.swift:150-159 | A version-2 document from `init(decoding:)` keeps its inline pins after lifting them, so saving and reopening brings every inline pin back twice. |
| Container.SavedDecodedDocumentReopens | Tests/MCMapTests/CartographyMapFileTests.swift:35-69 | A decoded version-2 document given images and a drawing reopens with the pin-stripped manifest, the same images and that drawing. |

## Manifest migration

The manifest generations live in the folder `Sources/MCMap/Manifest Versions/`, one file per generation. These
members model them.

| member | file in that folder | lines | states |
|---|---|---|---|
| Manifest.V1FromPreVersioning | MCMapManifest_v1.swift | 65-72 | Migrating an unversioned manifest stamps version 1 and copies seed, game version, name, pins and recent locations. |
| Manifest.V2FromV1 | MCMapManifest_v2.swift | 84-90 | Migrating v1 to v2 keeps the version key. It moves the game version and seed into the world settings with large biomes off, and copies name, pins and recent locations. |
| Manifest.Upgrade | MCMapManifest_v2.swift | 56-90 | Decoding migrates to the latest generation and preserves name, pins, recent locations and world data. An unversioned manifest ends at version 1; a versioned one keeps its key. |
| Manifest.MigratedVersionByGeneration | MCMapManifest_v1.swift | 63-66 | A manifest holding its own generation's key leaves migration at version 1 when it decoded as the pre-versioning or the v1 generation, and at version 2 when it decoded as v2. |
| Manifest.UpgradeOfLatestIsIdentity | MCMapManifest_v2.swift | 56-60 | A manifest already at the latest generation is not changed by migration. |
| Manifest.MigratedFlatAccessorsReadBack | MCMapManifest_v2.swift | 68-82 | After migration, the deprecated flat `mcVersion` and `seed` accessors read back the v1 values, and large biomes is off. |

## Left out

- JSON byte layout: pretty-printing, sorted keys and the versioned-coding envelope are not modelled. Entity codecs are opaque functions whose decode-after-encode laws are a precondition (`Json.Lawful`), never an axiom.
- Encoding failures: `wrapper()` and `prepareMetadataForExport` can throw from the encoder. The model's encoders are total.
- `FileWrapper` details: `preferredFilename`, symbolic links and file attributes are not modelled. A directory is a map from names to trees.
- Platform payloads: `TabViewCustomization`, `PKDrawing` and the Bluemap settings are opaque byte payloads with a default value. `CGPoint` coordinates are IEEE 754 bit patterns (`Basics.Float64`) that are only copied, never computed with.
- The older copy of the container codec in `CartographyMapFile.swift` (lines 232-379) is superseded by the `+FileDocument` extension and is not modelled separately.
- `Hashable`, `Transferable`, `UTType`, and the SwiftUI `Image`/`Label` initialisers of the icon resolution: none of them affects the package contents.
- Sequences.SortBy: Swift's `sort` does not promise stability. The model proves only that the result is a sorted permutation, so the relative order of pins whose lowercased names are equal is unspecified.
- AsciiText.Lowercased: `String.lowercased()` and `Character.isUppercase` use full Unicode case mapping. The model covers ASCII letters only and leaves every other character unchanged.
- AsciiText.Less: Swift compares strings by Unicode canonical equivalence. The model uses code-point order.
- Icons.Parse: the Unicode emoji property is a parameter, not the Unicode table.
- Container.RoundTripKeepsPins: requires distinct pin names, because same-named pins share one file (`Container.SameNamedPinsCollapse`) and only the last survives.
- Container.RoundTripKeepsDrawings: requires distinct drawing ids for the same reason.
