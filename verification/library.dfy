/** The player library's entities: `CartographyMapPin`, its migration from
    the inline manifest pin, and `CartographyDrawing`. */
module Library {
  import opened Wrappers
  import opened Basics
  import Manifest
  import opened Icons

  /** `CartographyMapPin.Color`, stored as its raw string. */
  datatype Color = Red | Orange | Yellow | Green | Blue | Indigo | Gray | Pink | Brown

  function ColorRawValue(c: Color): string {
    match c
    case Red => "red"
    case Orange => "orange"
    case Yellow => "yellow"
    case Green => "green"
    case Blue => "blue"
    case Indigo => "indigo"
    case Gray => "gray"
    case Pink => "pink"
    case Brown => "brown"
  }

  /** `Color(rawValue:)`: only the nine case names parse. */
  function ColorFromRawValue(s: string): (r: Option<Color>)
    ensures r.Some? ==> ColorRawValue(r.value) == s
    ensures forall c :: ColorRawValue(c) == s ==> r == Some(c)
  {
    match s
    case "red" => Some(Red)
    case "orange" => Some(Orange)
    case "yellow" => Some(Yellow)
    case "green" => Some(Green)
    case "blue" => Some(Blue)
    case "indigo" => Some(Indigo)
    case "gray" => Some(Gray)
    case "pink" => Some(Pink)
    case "brown" => Some(Brown)
    case _ => None
  }

  /** A standalone pin of the library. */
  datatype Pin = Pin(
    id: Uuid,
    position: Point,
    name: string,
    color: Option<Color>,
    icon: Option<Icon>,
    description: string,
    images: Option<set<string>>,
    tags: Option<set<string>>,
    alternateIDs: Option<set<string>>)

  /** The memberwise initialiser, with its default arguments. The fresh
      `UUID()` it draws is the `id` parameter. */
  function NewPin(
    id: Uuid,
    name: string,
    position: Point,
    color: Option<Color> := Some(Blue),
    icon: Option<Icon> := Some(Default),
    description: Option<string> := Some(""),
    images: Option<set<string>> := Some({}),
    tags: Option<set<string>> := Some({}),
    alternateIDs: Option<set<string>> := None): (p: Pin)
    ensures p.id == id && p.name == name && p.position == position
    ensures p.color == color && p.icon == icon
    ensures p.images == images && p.tags == tags && p.alternateIDs == alternateIDs
    ensures description.Some? ==> p.description == description.value
    ensures description.None? ==> p.description == ""
  {
    Pin(id, position, name, color, icon, description.GetOr(""), images, tags, alternateIDs)
  }

  /** Both colour enumerations spell the same nine names. */
  lemma ColorNamesAgree(c: Manifest.Color)
    ensures ColorFromRawValue(Manifest.ColorRawValue(c)).Some?
  {
  }

  /** The image file names of a list, as a set. */
  function ImageSet(images: seq<string>): (r: set<string>)
    ensures forall k :: k in r <==> k in images
  {
    set k | k in images
  }

  /** `init(migratingFrom:)`: the inline pin's fields carried over to a
      standalone pin with the fresh identifier `id`. */
  function MigratePin(prior: Manifest.Pin, id: Uuid): (p: Pin)
    ensures p.id == id && p.icon == Some(Default) && p.alternateIDs.None?
    ensures p.name == prior.name && p.position == prior.position && p.tags == prior.tags
    ensures p.color.Some?
    ensures prior.color.None? ==> p.color == Some(Blue)
    ensures prior.color.Some? ==> ColorRawValue(p.color.value) == Manifest.ColorRawValue(prior.color.value)
    ensures p.description == if prior.aboutDescription.Some? then prior.aboutDescription.value else ""
    ensures p.images.Some?
    ensures forall k :: k in p.images.value <==> prior.images.Some? && k in prior.images.value
  {
    var rawColor := if prior.color.Some? then Manifest.ColorRawValue(prior.color.value) else "";
    Pin(
      id := id,
      position := prior.position,
      name := prior.name,
      color := Some(ColorFromRawValue(rawColor).GetOr(Blue)),
      icon := Some(Default),
      description := prior.aboutDescription.GetOr(""),
      images := Some(ImageSet(prior.images.GetOr([]))),
      tags := prior.tags,
      alternateIDs := None)
  }

  /** The source of the fresh identifiers `UUID()` hands out: the `i`-th
      pin migrated in one batch receives `newId(i)`. */
  type IdSource = nat -> Uuid

  /** `manifest.pins.map(CartographyMapPin.init(migratingFrom:))`. */
  function LiftPins(pins: seq<Manifest.Pin>, newId: IdSource): (r: seq<Pin>)
    ensures |r| == |pins|
    ensures forall i :: 0 <= i < |pins| ==> r[i] == MigratePin(pins[i], newId(i))
  {
    seq(|pins|, i requires 0 <= i < |pins| => MigratePin(pins[i], newId(i)))
  }

  // ---------------------------------------------------------------------------
  // Drawings

  /** The world-space rectangle a drawing covers. */
  datatype MapRect = MapRect(x: int, z: int, width: int, height: int)

  /** The overlay: its centre, the opaque stroke payload, and its rectangle. */
  datatype DrawingOverlay = DrawingOverlay(coordinate: Point, drawing: Bytes, mapRect: MapRect)

  /** `CartographyDrawing`. */
  datatype Drawing = Drawing(id: Uuid, data: DrawingOverlay)
}
