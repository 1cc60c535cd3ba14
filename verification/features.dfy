/** `CartographyMapFeatures`: the option set of capabilities a `.mcmap`
    package supports, resolved from the manifest's declared version. */
module Features {
  import opened Wrappers

  /** The named flags of the option set. `Drawings` is used by the container
      codec but has no declaration in the feature file; it is modelled as the
      next free bit and granted together with the other version-2 features. */
  datatype Feature =
    | CoreSearch
    | CorePinning
    | LargeBiomes
    | PinTagging
    | TabCustomization
    | Integrations
    | SeparateLibrary
    | PinIcons
    | Drawings

  const AllFeatures: set<Feature> :=
    {CoreSearch, CorePinning, LargeBiomes, PinTagging, TabCustomization,
     Integrations, SeparateLibrary, PinIcons, Drawings}

  /** Each flag's single bit, `1 << n` for the flag's position `n`. */
  function Bit(f: Feature): bv64 {
    match f
    case CoreSearch => 0x1
    case CorePinning => 0x2
    case LargeBiomes => 0x4
    case PinTagging => 0x8
    case TabCustomization => 0x10
    case Integrations => 0x20
    case SeparateLibrary => 0x40
    case PinIcons => 0x80
    case Drawings => 0x100
  }

  /** The option set, stored as its raw integer (Swift `Int`, 64 bits). */
  datatype FeatureSet = FeatureSet(rawValue: bv64) {

    /** `OptionSet.contains` for a single flag. */
    predicate Contains(f: Feature) {
      rawValue & Bit(f) == Bit(f)
    }

    /** `OptionSet.insert`: bitwise or. */
    function Insert(f: Feature): FeatureSet {
      FeatureSet(rawValue | Bit(f))
    }

    /** `OptionSet.contains` for a multi-flag set: every bit of `other` is set. */
    predicate IsSupersetOf(other: FeatureSet) {
      rawValue & other.rawValue == other.rawValue
    }

    /** The named flags present in the set. */
    function Members(): set<Feature> {
      set f | f in AllFeatures && Contains(f)
    }
  }

  /** `minimumDefault`: core searching and core pinning. */
  const MinimumDefault: FeatureSet := FeatureSet(Bit(CoreSearch) | Bit(CorePinning))

  /** The manifest version from which every other feature is granted. */
  const FullFeatureVersion: int := 2

  /** The features every document has, whatever its version. */
  predicate IsBaseline(f: Feature) {
    f == CoreSearch || f == CorePinning
  }

  predicate GrantsAll(manifestVersion: Option<int>) {
    manifestVersion.Some? && manifestVersion.value >= FullFeatureVersion
  }

  /** `init(representing:)`: start from `minimumDefault`; a version of 2 or
      more inserts every other flag; an absent or lower version adds nothing. */
  function Resolve(manifestVersion: Option<int>): (fs: FeatureSet)
    ensures fs.IsSupersetOf(MinimumDefault)
    ensures !GrantsAll(manifestVersion) ==> fs == MinimumDefault
    ensures forall f :: fs.Contains(f) <==> IsBaseline(f) || GrantsAll(manifestVersion)
  {
    var fs := MinimumDefault;
    match manifestVersion
    case None => fs
    case Some(v) =>
      if v >= FullFeatureVersion then
        fs.Insert(PinTagging)
          .Insert(LargeBiomes)
          .Insert(TabCustomization)
          .Insert(Integrations)
          .Insert(SeparateLibrary)
          .Insert(PinIcons)
          .Insert(Drawings)
      else
        fs
  }

  /** Each flag owns one bit, and no two flags share it, so `Insert` and
      `Contains` behave as set union and set membership. */
  lemma InsertIsUnion(s: FeatureSet, f: Feature, g: Feature)
    ensures s.Insert(f).Contains(g) <==> s.Contains(g) || f == g
  {
    if f == g {
      OrKeepsBits(s.rawValue, Bit(f));
    } else {
      DistinctBits(f, g);
      OrMissesDisjointBits(s.rawValue, Bit(f), Bit(g));
    }
  }

  lemma OrKeepsBits(x: bv64, a: bv64)
    ensures (x | a) & a == a
  {
  }

  lemma OrMissesDisjointBits(x: bv64, a: bv64, b: bv64)
    requires a & b == 0
    ensures (x | a) & b == x & b
  {
  }

  /** The same fact for the set of named members. */
  lemma InsertAddsMember(s: FeatureSet, f: Feature)
    ensures s.Insert(f).Members() == s.Members() + {f}
  {
    forall h | h in AllFeatures
      ensures s.Insert(f).Contains(h) <==> s.Contains(h) || f == h
    {
      InsertIsUnion(s, f, h);
    }
  }

  lemma DistinctBits(f: Feature, g: Feature)
    ensures Bit(f) != 0
    ensures f != g ==> Bit(f) & Bit(g) == 0
  {
  }

  /** The option-set view and the set view agree on what `Resolve` returns. */
  lemma ResolveMembers(manifestVersion: Option<int>)
    ensures Resolve(manifestVersion).Members() ==
            if GrantsAll(manifestVersion) then AllFeatures else {CoreSearch, CorePinning}
  {
  }

  /** Versions ordered with "absent" below every number. */
  predicate VersionAtMost(v: Option<int>, w: Option<int>) {
    v.None? || (w.Some? && v.value <= w.value)
  }

  /** A later manifest version never loses a feature. */
  lemma ResolveIsMonotone(v: Option<int>, w: Option<int>)
    requires VersionAtMost(v, w)
    ensures Resolve(w).IsSupersetOf(Resolve(v))
    ensures forall f :: Resolve(v).Contains(f) ==> Resolve(w).Contains(f)
  {
    if GrantsAll(v) {
      assert Resolve(v) == Resolve(w);
    }
  }

  /** Only version 2 and later differ from `minimumDefault`. */
  lemma ResolveIsMinimumIffBelowTwo(manifestVersion: Option<int>)
    ensures Resolve(manifestVersion) == MinimumDefault <==> !GrantsAll(manifestVersion)
  {
    if GrantsAll(manifestVersion) {
      assert Resolve(manifestVersion).Contains(PinTagging);
      assert !MinimumDefault.Contains(PinTagging);
    }
  }

  // ---------------------------------------------------------------------------
  // The drawings sub-tree's asymmetric read and write rules.

  /** Drawings are written when either the separate library or drawings is on. */
  predicate WritesDrawings(fs: FeatureSet) {
    fs.Contains(SeparateLibrary) || fs.Contains(Drawings)
  }

  /** Drawings are read only while loading the library, which happens under
      the separate library, and only when drawings is on too. */
  predicate ReadsDrawings(fs: FeatureSet) {
    fs.Contains(SeparateLibrary) && fs.Contains(Drawings)
  }

  /** For every set `Resolve` can produce, the two rules agree; for a set
      holding only one of the two flags they do not. */
  lemma DrawingRulesAgreeOnResolvedSets(manifestVersion: Option<int>)
    ensures WritesDrawings(Resolve(manifestVersion)) == ReadsDrawings(Resolve(manifestVersion))
    ensures var lone := MinimumDefault.Insert(SeparateLibrary);
            WritesDrawings(lone) && !ReadsDrawings(lone)
  {
  }
}
