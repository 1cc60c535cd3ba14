/** `CartographyIcon`: a pin's icon and its raw-string form, and the
    resolution of an icon to a system symbol name (`dotCase`). */
module Icons {
  import opened Wrappers
  import opened AsciiText

  datatype Icon =
    | Default
    | Home
    | Building
    | Book
    | Town
    | SparklyBubbles
    | Emoji(emoji: string)

  /** The Unicode "is emoji" property of a scalar; the model leaves it
      uninterpreted and takes it as a parameter. */
  type EmojiProperty = char -> bool

  predicate AllEmoji(s: string, isEmoji: EmojiProperty) {
    forall i :: 0 <= i < |s| ==> isEmoji(s[i])
  }

  /** The named (non-emoji) case a raw string spells, if any. */
  function NamedIcon(s: string): Option<Icon> {
    match s
    case "default" => Some(Default)
    case "home" => Some(Home)
    case "building" => Some(Building)
    case "sparklyBubbles" => Some(SparklyBubbles)
    case "town" => Some(Town)
    case "book" => Some(Book)
    case _ => None
  }

  /** `rawValue`: the case name, or the emoji text itself. */
  function RawValue(icon: Icon): string {
    match icon
    case Default => "default"
    case Home => "home"
    case Building => "building"
    case SparklyBubbles => "sparklyBubbles"
    case Town => "town"
    case Book => "book"
    case Emoji(s) => s
  }

  /** `init?(rawValue:)`: a case name parses to its case before the emoji
      check is tried; otherwise a string of emoji scalars only (the empty
      string included) becomes `.emoji`, and anything else fails. */
  function Parse(s: string, isEmoji: EmojiProperty): (r: Option<Icon>)
    ensures NamedIcon(s).Some? ==> r == NamedIcon(s)
    ensures NamedIcon(s).None? && AllEmoji(s, isEmoji) ==> r == Some(Emoji(s))
    ensures NamedIcon(s).None? && !AllEmoji(s, isEmoji) ==> r.None?
    ensures r.Some? ==> RawValue(r.value) == s
  {
    match s
    case "default" => Some(Default)
    case "home" => Some(Home)
    case "building" => Some(Building)
    case "sparklyBubbles" => Some(SparklyBubbles)
    case "town" => Some(Town)
    case "book" => Some(Book)
    case _ => if AllEmoji(s, isEmoji) then Some(Emoji(s)) else None
  }

  /** An icon survives a trip through its raw value unless it is an emoji
      whose text is not all emoji or spells a case name. */
  predicate RoundTrips(icon: Icon, isEmoji: EmojiProperty) {
    icon.Emoji? ==> AllEmoji(icon.emoji, isEmoji) && NamedIcon(icon.emoji).None?
  }

  lemma ParseRawValue(icon: Icon, isEmoji: EmojiProperty)
    ensures Parse(RawValue(icon), isEmoji) == Some(icon) <==> RoundTrips(icon, isEmoji)
  {
  }

  /** The test strings: "default" is the default icon; a car emoji is an
      emoji icon whose raw value is itself; "foo" is rejected whenever one of
      its letters is not an emoji scalar. */
  lemma ParseExamples(isEmoji: EmojiProperty)
    ensures Parse("default", isEmoji) == Some(Default)
    ensures isEmoji('\U{1F697}') ==> Parse("\U{1F697}", isEmoji) == Some(Emoji("\U{1F697}"))
    ensures RawValue(Emoji("\U{1F697}")) == "\U{1F697}"
    ensures !isEmoji('f') ==> Parse("foo", isEmoji).None?
  {
    assert "foo"[0] == 'f';
  }

  // ---------------------------------------------------------------------------
  // `String.dotCase`

  /** The contribution of one character: an upper-case letter is lowered and,
      unless it is the first character, preceded by a dot. */
  function Piece(c: char, first: bool): string {
    if !IsUpper(c) then [c]
    else if first then [ToLower(c)]
    else ['.', ToLower(c)]
  }

  /** `dotCase` of the characters after the first. */
  function DotCaseRest(s: string): (r: string)
    ensures |r| == |s| + CountUpper(s)
    ensures HasNoUpper(r)
  {
    if |s| == 0 then "" else Piece(s[0], false) + DotCaseRest(s[1..])
  }

  /** `dotCase` as a reference definition: "sparklyBubbles" becomes
      "sparkly.bubbles". */
  function DotCase(s: string): (r: string)
    ensures |s| > 0 ==> |r| == |s| + CountUpper(s[1..])
    ensures HasNoUpper(r)
  {
    if |s| == 0 then "" else Piece(s[0], true) + DotCaseRest(s[1..])
  }

  /** The loop of `dotCase`, which decides on the dot by whether any output
      has been produced yet. */
  method ComputeDotCase(s: string) returns (r: string)
    ensures r == DotCase(s)
  {
    r := "";
    var i := 0;
    while i < |s|
      invariant 0 <= i <= |s|
      invariant i > 0 ==> r == DotCase(s[..i]) && |r| > 0
      invariant i == 0 ==> r == ""
    {
      var c := s[i];
      if !IsUpper(c) {
        r := r + [c];
      } else {
        if |r| > 0 {
          r := r + ['.'];
        }
        r := r + [ToLower(c)];
      }
      DotCaseSnoc(s[..i], c);
      assert s[..i + 1] == s[..i] + [c];
      i := i + 1;
    }
    assert s[..i] == s;
  }

  /** Extending the input by one character extends `dotCase` by that
      character's piece. */
  lemma {:induction false} DotCaseSnoc(s: string, c: char)
    ensures DotCase(s + [c]) == DotCase(s) + Piece(c, |s| == 0)
  {
    if |s| > 0 {
      DotCaseRestSnoc(s[1..], c);
      assert (s + [c])[1..] == s[1..] + [c];
    }
  }

  lemma {:induction false} DotCaseRestSnoc(s: string, c: char)
    ensures DotCaseRest(s + [c]) == DotCaseRest(s) + Piece(c, false)
  {
    if |s| > 0 {
      DotCaseRestSnoc(s[1..], c);
      assert (s + [c])[1..] == s[1..] + [c];
    }
  }

  /** A string without upper-case letters is left as it is. */
  lemma {:induction false} DotCaseOfLowerIsIdentity(s: string)
    requires HasNoUpper(s)
    ensures DotCase(s) == s
  {
    if |s| > 0 {
      DotCaseRestOfLowerIsIdentity(s[1..]);
    }
  }

  lemma {:induction false} DotCaseRestOfLowerIsIdentity(s: string)
    requires HasNoUpper(s)
    ensures DotCaseRest(s) == s
  {
    if |s| > 0 {
      DotCaseRestOfLowerIsIdentity(s[1..]);
    }
  }

  /** Reverses `dotCase` on dot-free input: each dot is dropped and the
      letter after it raised again. */
  function Undot(s: string): string {
    if |s| == 0 then ""
    else if s[0] == '.' && |s| > 1 && 'a' <= s[1] <= 'z' then [ToUpper(s[1])] + Undot(s[2..])
    else [s[0]] + Undot(s[1..])
  }

  function ToUpper(c: char): char
    requires 'a' <= c <= 'z'
  {
    (c as int - 'a' as int + 'A' as int) as char
  }

  predicate HasNoDot(s: string) {
    forall i :: 0 <= i < |s| ==> s[i] != '.'
  }

  /** `dotCase` loses nothing on a dot-free string that does not start with
      an upper-case letter: the camel-case name can be read back. */
  lemma DotCaseIsInvertible(s: string)
    requires HasNoDot(s)
    requires |s| > 0 ==> !IsUpper(s[0])
    ensures Undot(DotCase(s)) == s
  {
    if |s| > 0 {
      UndotRest(s[1..]);
      assert DotCase(s) == [s[0]] + DotCaseRest(s[1..]);
    }
  }

  lemma {:induction false} UndotRest(s: string)
    requires HasNoDot(s)
    ensures Undot(DotCaseRest(s)) == s
  {
    if |s| > 0 {
      UndotRest(s[1..]);
      var rest := DotCaseRest(s[1..]);
      if IsUpper(s[0]) {
        assert DotCaseRest(s) == ['.', ToLower(s[0])] + rest;
        assert (['.', ToLower(s[0])] + rest)[2..] == rest;
      } else {
        assert DotCaseRest(s) == [s[0]] + rest;
        assert ([s[0]] + rest)[1..] == rest;
      }
    }
  }

  function StripDots(s: string): string {
    if |s| == 0 then "" else (if s[0] == '.' then "" else [s[0]]) + StripDots(s[1..])
  }

  /** Apart from the inserted dots, `dotCase` is the lower-cased input, in
      order: other characters are copied, capitals are lowered. */
  lemma DotCaseIsLoweredInput(s: string)
    requires HasNoDot(s)
    ensures StripDots(DotCase(s)) == Lowercased(s)
  {
    if |s| > 0 {
      StripDotsRest(s[1..]);
      assert DotCase(s) == [ToLower(s[0])] + DotCaseRest(s[1..]);
      assert ([ToLower(s[0])] + DotCaseRest(s[1..]))[1..] == DotCaseRest(s[1..]);
      assert Lowercased(s) == [ToLower(s[0])] + Lowercased(s[1..]);
    }
  }

  lemma {:induction false} StripDotsRest(s: string)
    requires HasNoDot(s)
    ensures StripDots(DotCaseRest(s)) == Lowercased(s)
  {
    if |s| > 0 {
      StripDotsRest(s[1..]);
      var rest := DotCaseRest(s[1..]);
      assert Lowercased(s) == [ToLower(s[0])] + Lowercased(s[1..]);
      if IsUpper(s[0]) {
        assert DotCaseRest(s) == ['.', ToLower(s[0])] + rest;
        assert (['.', ToLower(s[0])] + rest)[1..] == [ToLower(s[0])] + rest;
        assert ([ToLower(s[0])] + rest)[1..] == rest;
      } else {
        assert DotCaseRest(s) == [s[0]] + rest;
        assert ([s[0]] + rest)[1..] == rest;
      }
    }
  }

  // ---------------------------------------------------------------------------
  // `resolveSFSymbol(in:)`

  /** The contexts an icon is shown in. */
  datatype IconContext = PinContext

  /** The symbol name of an icon: fixed names for four cases, `dotCase` of
      the raw value for every other case. */
  function ResolveSymbol(icon: Icon, context: IconContext): (name: string)
    ensures icon == Default ==> name == "mappin"
    ensures icon == Home ==> name == "house"
    ensures icon == Town ==> name == "building.2"
    ensures icon == SparklyBubbles ==> name == "bubbles.and.sparkles"
    ensures icon !in {Default, Home, Town, SparklyBubbles} ==> name == DotCase(RawValue(icon))
  {
    var defaultIcon := match context case PinContext => "mappin";
    match icon
    case Default => defaultIcon
    case SparklyBubbles => "bubbles.and.sparkles"
    case Town => "building.2"
    case Home => "house"
    case _ => DotCase(RawValue(icon))
  }

  /** Cases without a fixed symbol use their own name; an emoji without
      ASCII capitals is its own symbol name. */
  lemma ResolveFallbacks(s: string)
    requires HasNoUpper(s)
    ensures ResolveSymbol(Building, PinContext) == "building"
    ensures ResolveSymbol(Book, PinContext) == "book"
    ensures ResolveSymbol(Emoji(s), PinContext) == s
  {
    DotCaseOfLowerIsIdentity("building");
    DotCaseOfLowerIsIdentity("book");
    DotCaseOfLowerIsIdentity(s);
  }
}
