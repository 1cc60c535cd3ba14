/** A codec that obeys `Json.Lawful` exists, so the round-trip lemmas that
    assume `Lawful` speak about real codecs. Every value is mapped one-to-one
    onto a small tree of numbers (`Term`); terms have a prefix-free byte
    serialisation; and decoding picks the one value whose encoding the bytes
    are. Only the existence of such a codec matters here, not its format. */
module LawfulCodec {
  import opened Wrappers
  import opened Basics
  import Manifest
  import Library
  import Icons
  import opened Json

  /** A tree of numbers, the intermediate form of every encoded value. */
  datatype Term = Num(n: int) | Nil | Cons(head: Term, tail: Term)

  // ---------------------------------------------------------------------------
  // Terms as bytes

  /** A natural number in unary: `n` ones, then a zero. */
  function NatBytes(n: nat): (r: Bytes)
    ensures |r| > 0 && (r[0] == 0 <==> n == 0)
  {
    if n == 0 then [0] else [1] + NatBytes(n - 1)
  }

  /** An integer as a natural number: the non-negative ones to the even
      numbers, the negative ones to the odd numbers. */
  function ZigZag(n: int): nat {
    if n >= 0 then 2 * n else -2 * n - 1
  }

  /** The tag byte that opens the serialisation of a term. */
  function Tag(t: Term): Byte {
    match t
    case Num(_) => 0
    case Nil => 1
    case Cons(_, _) => 2
  }

  /** A tag byte followed by the parts of the term. */
  function TermBytes(t: Term): (r: Bytes)
    ensures |r| > 0 && r[0] == Tag(t)
  {
    match t
    case Num(n) => [0] + NatBytes(ZigZag(n))
    case Nil => [1]
    case Cons(h, tl) => [2] + TermBytes(h) + TermBytes(tl)
  }

  /** No unary numeral is a proper prefix of another. */
  lemma {:induction false} NatBytesPrefixFree(a: nat, b: nat, s: Bytes, t: Bytes)
    requires NatBytes(a) + s == NatBytes(b) + t
    ensures a == b && s == t
  {
    var x := NatBytes(a) + s;
    assert x[0] == NatBytes(a)[0] && x[0] == NatBytes(b)[0];
    if a == 0 {
      assert s == x[1..] && t == x[1..];
    } else {
      assert x[1..] == NatBytes(a - 1) + s;
      assert x[1..] == NatBytes(b - 1) + t;
      NatBytesPrefixFree(a - 1, b - 1, s, t);
    }
  }

  /** No term serialisation is a proper prefix of another: the bytes that
      follow a term are determined, and so is the term. */
  lemma {:induction false} TermBytesPrefixFree(a: Term, b: Term, s: Bytes, t: Bytes)
    requires TermBytes(a) + s == TermBytes(b) + t
    ensures a == b && s == t
    decreases a, 1
  {
    var x := TermBytes(a) + s;
    assert x[0] == Tag(a) && x[0] == Tag(b);
    match a
    case Num(n) =>
      NumBytesPrefixFree(n, b.n, s, t);
    case Nil =>
      assert s == x[1..] && t == x[1..];
    case Cons(h, tl) =>
      ConsBytesPrefixFree(h, tl, b, s, t);
  }

  /** The pair case of `TermBytesPrefixFree`: equal heads, then equal tails. */
  lemma {:induction false} ConsBytesPrefixFree(h: Term, tl: Term, b: Term, s: Bytes, t: Bytes)
    requires TermBytes(Cons(h, tl)) + s == TermBytes(b) + t
    ensures Cons(h, tl) == b && s == t
    decreases Cons(h, tl), 0
  {
    var x := TermBytes(Cons(h, tl)) + s;
    assert x[0] == 2 && x[0] == Tag(b);
    var u, v := TermBytes(h) + (TermBytes(tl) + s), TermBytes(b.head) + (TermBytes(b.tail) + t);
    assert x == [2] + u;
    assert x == [2] + v;
    assert u == x[1..] == v;
    TermBytesPrefixFree(h, b.head, TermBytes(tl) + s, TermBytes(b.tail) + t);
    TermBytesPrefixFree(tl, b.tail, s, t);
  }

  /** The number case of `TermBytesPrefixFree`. */
  lemma NumBytesPrefixFree(n: int, m: int, s: Bytes, t: Bytes)
    requires TermBytes(Num(n)) + s == TermBytes(Num(m)) + t
    ensures n == m && s == t
  {
    var x := TermBytes(Num(n)) + s;
    assert x == [0] + (NatBytes(ZigZag(n)) + s);
    assert x == [0] + (NatBytes(ZigZag(m)) + t);
    assert NatBytes(ZigZag(n)) + s == x[1..] == NatBytes(ZigZag(m)) + t;
    NatBytesPrefixFree(ZigZag(n), ZigZag(m), s, t);
  }

  /** Distinct terms serialise to distinct bytes. */
  lemma TermBytesInjective(a: Term, b: Term)
    requires TermBytes(a) == TermBytes(b)
    ensures a == b
  {
    assert TermBytes(a) + [] == TermBytes(b) + [];
    TermBytesPrefixFree(a, b, [], []);
  }

  // ---------------------------------------------------------------------------
  // Values as terms

  /** A map onto terms that keeps distinct values apart. */
  ghost predicate Injective<T(!new)>(f: T -> Term) {
    forall a, b :: f(a) == f(b) ==> a == b
  }

  /** A list of values, element by element. */
  ghost function ListOf<T>(xs: seq<T>, f: T -> Term): Term
    decreases |xs|
  {
    if xs == [] then Nil else Cons(f(xs[0]), ListOf(xs[1..], f))
  }

  lemma {:induction false} ListOfInjective<T(!new)>(f: T -> Term, xs: seq<T>, ys: seq<T>)
    requires Injective(f) && ListOf(xs, f) == ListOf(ys, f)
    ensures xs == ys
    decreases |xs|
  {
    if xs != [] && ys != [] {
      ListOfInjective(f, xs[1..], ys[1..]);
      assert xs == [xs[0]] + xs[1..] && ys == [ys[0]] + ys[1..];
    }
  }

  ghost function OptionOf<T>(o: Option<T>, f: T -> Term): Term {
    match o
    case None => Nil
    case Some(x) => Cons(f(x), Nil)
  }

  lemma OptionOfInjective<T(!new)>(f: T -> Term, a: Option<T>, b: Option<T>)
    requires Injective(f) && OptionOf(a, f) == OptionOf(b, f)
    ensures a == b
  {
  }

  /** The members of a finite set, listed in some order. */
  ghost function Elements(s: set<string>): (r: seq<string>)
    ensures forall x :: x in r <==> x in s
    decreases s
  {
    if s == {} then [] else var x :| x in s; [x] + Elements(s - {x})
  }

  ghost function IntTerm(i: int): Term { Num(i) }

  ghost function ByteTerm(b: Byte): Term { Num(b as int) }

  ghost function CharTerm(c: char): Term { Num(c as int) }

  ghost function BytesTerm(data: Bytes): Term { ListOf(data, ByteTerm) }

  ghost function StringTerm(s: string): Term { ListOf(s, CharTerm) }

  ghost function StringsTerm(ss: seq<string>): Term { ListOf(ss, StringTerm) }

  ghost function SetTerm(s: set<string>): Term { StringsTerm(Elements(s)) }

  ghost function PointTerm(p: Point): Term {
    Cons(Num(p.x as int), Cons(Num(p.y as int), Nil))
  }

  ghost function PointsTerm(ps: seq<Point>): Term { ListOf(ps, PointTerm) }

  lemma ScalarTermsInjective()
    ensures Injective(ByteTerm) && Injective(CharTerm) && Injective(PointTerm)
  {
    forall a, b | ByteTerm(a) == ByteTerm(b) ensures a == b {}
    forall a, b | CharTerm(a) == CharTerm(b) ensures a == b {}
    forall a, b | PointTerm(a) == PointTerm(b) ensures a == b {
      Float64AsIntInjective(a.x, b.x);
      Float64AsIntInjective(a.y, b.y);
    }
  }

  lemma Float64AsIntInjective(a: Float64, b: Float64)
    requires a as int == b as int
    ensures a == b
  {
    assert a == (a as int) as Float64;
  }

  lemma StringTermInjective(a: string, b: string)
    requires StringTerm(a) == StringTerm(b)
    ensures a == b
  {
    ScalarTermsInjective();
    ListOfInjective(CharTerm, a, b);
  }

  lemma StringTermIsInjective()
    ensures Injective(StringTerm)
  {
    forall a, b | StringTerm(a) == StringTerm(b) ensures a == b {
      StringTermInjective(a, b);
    }
  }

  lemma StringsTermIsInjective()
    ensures Injective(StringsTerm)
  {
    StringTermIsInjective();
    forall a, b | StringsTerm(a) == StringsTerm(b) ensures a == b {
      ListOfInjective(StringTerm, a, b);
    }
  }

  lemma SetTermIsInjective()
    ensures Injective(SetTerm)
  {
    StringTermIsInjective();
    forall a, b | SetTerm(a) == SetTerm(b) ensures a == b {
      ListOfInjective(StringTerm, Elements(a), Elements(b));
    }
  }

  lemma PointsTermIsInjective()
    ensures Injective(PointsTerm)
  {
    ScalarTermsInjective();
    forall a, b | PointsTerm(a) == PointsTerm(b) ensures a == b {
      ListOfInjective(PointTerm, a, b);
    }
  }

  lemma BytesTermInjective(a: Bytes, b: Bytes)
    requires BytesTerm(a) == BytesTerm(b)
    ensures a == b
  {
    ScalarTermsInjective();
    ListOfInjective(ByteTerm, a, b);
  }

  lemma PointTermInjective(a: Point, b: Point)
    requires PointTerm(a) == PointTerm(b)
    ensures a == b
  {
    ScalarTermsInjective();
  }

  ghost function ManifestColorTerm(c: Manifest.Color): Term {
    Num(match c
        case Red => 0 case Orange => 1 case Yellow => 2 case Green => 3 case Blue => 4
        case Indigo => 5 case Brown => 6 case Gray => 7 case Pink => 8)
  }

  ghost function LibraryColorTerm(c: Library.Color): Term {
    Num(match c
        case Red => 0 case Orange => 1 case Yellow => 2 case Green => 3 case Blue => 4
        case Indigo => 5 case Gray => 6 case Pink => 7 case Brown => 8)
  }

  ghost function IconTerm(i: Icons.Icon): Term {
    match i
    case Default => Num(0)
    case Home => Num(1)
    case Building => Num(2)
    case Book => Num(3)
    case Town => Num(4)
    case SparklyBubbles => Num(5)
    case Emoji(e) => Cons(StringTerm(e), Nil)
  }

  lemma ColorTermsAreInjective()
    ensures Injective(ManifestColorTerm) && Injective(LibraryColorTerm)
  {
    forall a, b | ManifestColorTerm(a) == ManifestColorTerm(b) ensures a == b {}
    forall a, b | LibraryColorTerm(a) == LibraryColorTerm(b) ensures a == b {}
  }

  lemma IconTermIsInjective()
    ensures Injective(IconTerm)
  {
    forall a, b | IconTerm(a) == IconTerm(b) ensures a == b {
      if a.Emoji? && b.Emoji? {
        StringTermInjective(a.emoji, b.emoji);
      }
    }
  }

  ghost function ManifestPinTerm(p: Manifest.Pin): Term {
    Cons(PointTerm(p.position), Cons(StringTerm(p.name), Cons(OptionOf(p.color, ManifestColorTerm),
    Cons(OptionOf(p.images, StringsTerm), Cons(OptionOf(p.aboutDescription, StringTerm),
    Cons(OptionOf(p.tags, SetTerm), Nil))))))
  }

  lemma ManifestPinTermInjective(a: Manifest.Pin, b: Manifest.Pin)
    requires ManifestPinTerm(a) == ManifestPinTerm(b)
    ensures a == b
  {
    PointTermInjective(a.position, b.position);
    StringTermInjective(a.name, b.name);
    ColorTermsAreInjective();
    OptionOfInjective(ManifestColorTerm, a.color, b.color);
    StringsTermIsInjective();
    OptionOfInjective(StringsTerm, a.images, b.images);
    StringTermIsInjective();
    OptionOfInjective(StringTerm, a.aboutDescription, b.aboutDescription);
    SetTermIsInjective();
    OptionOfInjective(SetTerm, a.tags, b.tags);
  }

  ghost function ManifestPinsTerm(ps: seq<Manifest.Pin>): Term { ListOf(ps, ManifestPinTerm) }

  lemma ManifestPinsTermInjective(a: seq<Manifest.Pin>, b: seq<Manifest.Pin>)
    requires ManifestPinsTerm(a) == ManifestPinsTerm(b)
    ensures a == b
  {
    forall p, q | ManifestPinTerm(p) == ManifestPinTerm(q) ensures p == q {
      ManifestPinTermInjective(p, q);
    }
    ListOfInjective(ManifestPinTerm, a, b);
  }

  ghost function WorldSettingsTerm(w: Manifest.WorldSettings): Term {
    Cons(StringTerm(w.version), Cons(Num(w.seed), Num(if w.largeBiomes then 1 else 0)))
  }

  ghost function ManifestTerm(m: Manifest.Manifest): Term {
    Cons(OptionOf(m.manifestVersion, IntTerm), Cons(StringTerm(m.name), Cons(WorldSettingsTerm(m.worldSettings),
    Cons(ManifestPinsTerm(m.pins), Cons(OptionOf(m.recentLocations, PointsTerm), Nil)))))
  }

  lemma ManifestTermIsInjective()
    ensures Injective(ManifestTerm)
  {
    forall a, b | ManifestTerm(a) == ManifestTerm(b) ensures a == b {
      ManifestTermInjective(a, b);
    }
  }

  lemma ManifestTermInjective(a: Manifest.Manifest, b: Manifest.Manifest)
    requires ManifestTerm(a) == ManifestTerm(b)
    ensures a == b
  {
    assert Injective(IntTerm) by {
      forall i, j | IntTerm(i) == IntTerm(j) ensures i == j {}
    }
    OptionOfInjective(IntTerm, a.manifestVersion, b.manifestVersion);
    StringTermInjective(a.name, b.name);
    StringTermInjective(a.worldSettings.version, b.worldSettings.version);
    ManifestPinsTermInjective(a.pins, b.pins);
    PointsTermIsInjective();
    OptionOfInjective(PointsTerm, a.recentLocations, b.recentLocations);
  }

  ghost function LibraryPinTerm(p: Library.Pin): Term {
    Cons(StringTerm(p.id.uuidString), Cons(PointTerm(p.position), Cons(StringTerm(p.name),
    Cons(OptionOf(p.color, LibraryColorTerm), Cons(OptionOf(p.icon, IconTerm), Cons(StringTerm(p.description),
    Cons(OptionOf(p.images, SetTerm), Cons(OptionOf(p.tags, SetTerm), Cons(OptionOf(p.alternateIDs, SetTerm), Nil)))))))))
  }

  lemma LibraryPinTermIsInjective()
    ensures Injective(LibraryPinTerm)
  {
    forall a, b | LibraryPinTerm(a) == LibraryPinTerm(b) ensures a == b {
      LibraryPinTermInjective(a, b);
    }
  }

  lemma LibraryPinTermInjective(a: Library.Pin, b: Library.Pin)
    requires LibraryPinTerm(a) == LibraryPinTerm(b)
    ensures a == b
  {
    StringTermInjective(a.id.uuidString, b.id.uuidString);
    PointTermInjective(a.position, b.position);
    StringTermInjective(a.name, b.name);
    StringTermInjective(a.description, b.description);
    ColorTermsAreInjective();
    OptionOfInjective(LibraryColorTerm, a.color, b.color);
    IconTermIsInjective();
    OptionOfInjective(IconTerm, a.icon, b.icon);
    SetTermIsInjective();
    OptionOfInjective(SetTerm, a.images, b.images);
    OptionOfInjective(SetTerm, a.tags, b.tags);
    OptionOfInjective(SetTerm, a.alternateIDs, b.alternateIDs);
  }

  ghost function DrawingTerm(d: Library.Drawing): Term {
    var r := d.data.mapRect;
    Cons(StringTerm(d.id.uuidString), Cons(PointTerm(d.data.coordinate), Cons(BytesTerm(d.data.drawing),
    Cons(Num(r.x), Cons(Num(r.z), Cons(Num(r.width), Cons(Num(r.height), Nil)))))))
  }

  lemma DrawingTermIsInjective()
    ensures Injective(DrawingTerm)
  {
    forall a, b | DrawingTerm(a) == DrawingTerm(b) ensures a == b {
      StringTermInjective(a.id.uuidString, b.id.uuidString);
      PointTermInjective(a.data.coordinate, b.data.coordinate);
      BytesTermInjective(a.data.drawing, b.data.drawing);
    }
  }

  // ---------------------------------------------------------------------------
  // The codec

  /** The bytes of a value. */
  ghost function Encode<T>(f: T -> Term, x: T): Bytes {
    TermBytes(f(x))
  }

  /** The value whose encoding the bytes are, if any. */
  ghost function Decode<T(!new)>(f: T -> Term, data: Bytes): (r: Option<T>)
    ensures r.Some? <==> exists x :: Encode(f, x) == data
    ensures r.Some? ==> Encode(f, r.value) == data
  {
    if exists x :: Encode(f, x) == data then Some(var x :| Encode(f, x) == data; x) else None
  }

  /** Decoding what a one-to-one map encoded gives the value back. */
  lemma DecodeEncoded<T(!new)>(f: T -> Term, x: T)
    requires Injective(f)
    ensures Decode(f, Encode(f, x)) == Some(x)
  {
    var r := Decode(f, Encode(f, x));
    TermBytesInjective(f(r.value), f(x));
  }

  /** A manifest read back from bytes this codec wrote: only the latest
      generation is ever written, with its own version tag. */
  ghost function DecodeManifest(data: Bytes): Option<Manifest.VersionedManifest> {
    match Decode(ManifestTerm, data)
    case None => None
    case Some(m) => Some(Manifest.V2(m.(manifestVersion := Some(Manifest.LatestVersion))))
  }

  ghost function EncodeManifest(m: Manifest.Manifest): Bytes {
    Encode(ManifestTerm, m.(manifestVersion := Some(Manifest.LatestVersion)))
  }

  ghost function EncodePin(p: Library.Pin): Bytes { Encode(LibraryPinTerm, p) }

  ghost function DecodePin(data: Bytes): Option<Library.Pin> { Decode(LibraryPinTerm, data) }

  ghost function EncodeDrawing(d: Library.Drawing): Bytes { Encode(DrawingTerm, d) }

  ghost function DecodeDrawing(data: Bytes): Option<Library.Drawing> { Decode(DrawingTerm, data) }

  function EncodeTabs(t: TabCustomization): Bytes { t.payload }

  function DecodeTabs(data: Bytes): Option<TabCustomization> { Some(TabCustomization(data)) }

  function EncodeBluemap(b: BluemapIntegration): Bytes { b.payload }

  function DecodeBluemap(data: Bytes): Option<BluemapIntegration> { Some(BluemapIntegration(data)) }

  /** A codec that obeys every law `Lawful` asks for. */
  ghost function Witness(): (c: JsonCodec)
    ensures Lawful(c)
  {
    WitnessManifestLaws();
    WitnessEntityLaws();
    JsonCodec(EncodeManifest, DecodeManifest, EncodePin, DecodePin, EncodeDrawing, DecodeDrawing,
              EncodeTabs, DecodeTabs, EncodeBluemap, DecodeBluemap)
  }

  /** Manifests read back as the latest generation, holding its key. */
  lemma WitnessManifestLaws()
    ensures forall data :: DecodeManifest(data).Some? ==> Manifest.DeclaresOwnGeneration(DecodeManifest(data).value)
    ensures forall m :: DecodeManifest(EncodeManifest(m)) == Some(Manifest.V2(m.(manifestVersion := Some(Manifest.LatestVersion))))
  {
    ManifestTermIsInjective();
    forall m: Manifest.Manifest
      ensures DecodeManifest(EncodeManifest(m)) == Some(Manifest.V2(m.(manifestVersion := Some(Manifest.LatestVersion))))
    {
      DecodeEncoded(ManifestTerm, m.(manifestVersion := Some(Manifest.LatestVersion)));
    }
  }

  /** Pins and drawings read back as they were written. */
  lemma WitnessEntityLaws()
    ensures forall p :: DecodePin(EncodePin(p)) == Some(p)
    ensures forall d :: DecodeDrawing(EncodeDrawing(d)) == Some(d)
  {
    LibraryPinTermIsInjective();
    DrawingTermIsInjective();
    forall p ensures DecodePin(EncodePin(p)) == Some(p) {
      DecodeEncoded(LibraryPinTerm, p);
    }
    forall d ensures DecodeDrawing(EncodeDrawing(d)) == Some(d) {
      DecodeEncoded(DrawingTerm, d);
    }
  }

  /** Some codec is lawful. */
  lemma LawfulCodecExists()
    ensures exists c :: Lawful(c)
  {
    var c := Witness();
  }
}
