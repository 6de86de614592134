/**
 * The minimal icon set of the two clients
 * (baby-sleep-native-fixed/src/components/icons/MinimalIcon.tsx and
 * frontend/src/components/icons/MinimalIcon.jsx): the emoji-to-icon table
 * both files carry, the resolution of a token (an icon name or an emoji)
 * to an icon name, which icon each client draws for a name, and the web
 * client's SVG attribute defaults.
 *
 * Icons are identified by their names; the drawings are left out.
 */
module Icons {
  import opened Wrappers

  /**
   * EMOJI_ICON_MAP, the same thirty entries in both clients. Two of its
   * keys carry the emoji variation selector U+FE0F.
   */
  const EmojiIconMap: map<string, string> := map[
    "\U{1F4AC}" := "chat",
    "\U{1F319}" := "moon",
    "\U{1F6CC}" := "bed",
    "\U{1F634}" := "sleep",
    "\U{1F4A4}" := "sleep",
    "\U{1F499}" := "heart",
    "\U{2B50}" := "star",
    "\U{1F3AF}" := "target",
    "\U{1F4DA}" := "book",
    "\U{1F4A1}" := "lightbulb",
    "\U{1F917}" := "users",
    "\U{1F37C}" := "bottle",
    "\U{1F31F}" := "star",
    "\U{1F9F8}" := "heart",
    "\U{1F3B5}" := "music",
    "\U{2615}\U{FE0F}" := "cup",
    "\U{1F989}" := "moon",
    "\U{1F308}" := "spark",
    "\U{1F9D8}" := "spark",
    "\U{1F570}\U{FE0F}" := "clock",
    "\U{1F9E0}" := "lightbulb",
    "\U{1F343}" := "leaf",
    "\U{1F970}" := "heart",
    "\U{1F4C5}" := "calendar",
    "\U{2728}" := "spark",
    "\U{1FA84}" := "spark",
    "\U{1FABA}" := "spark",
    "\U{1F6C1}" := "bath",
    "\U{1F9F4}" := "bottle",
    "\U{1F9E6}" := "spark"
  ]

  /** The icon names the emoji table points at. */
  const EmojiTargets: set<string> := {
    "chat", "moon", "bed", "sleep", "heart", "star", "target", "book", "lightbulb", "users",
    "bottle", "music", "cup", "spark", "clock", "leaf", "calendar", "bath"
  }

  lemma EmojiTargetsComplete()
    ensures forall e | e in EmojiIconMap :: EmojiIconMap[e] in EmojiTargets
  {}

  /**
   * resolveIconName against an icon table: the fallback for a missing or
   * empty token, the token itself when it names an icon, else the emoji's
   * icon name, else the fallback.
   */
  function Resolve(icons: set<string>, token: Option<string>, fallback: Option<string>): (r: Option<string>)
    ensures token.None? || token.value == [] ==> r == fallback
    ensures token.Some? && token.value != [] && token.value in icons ==> r == token
    ensures token.Some? && token.value != [] && token.value !in icons && token.value in EmojiIconMap ==>
              r == Some(EmojiIconMap[token.value])
    ensures token.Some? && token.value !in icons && token.value !in EmojiIconMap ==> r == fallback
  {
    if token.None? || token.value == [] then fallback
    else if token.value in icons then token
    else if token.value in EmojiIconMap then Some(EmojiIconMap[token.value])
    else fallback
  }

  /**
   * Against a table holding every emoji target, a resolved name is either
   * the fallback or the name of an icon the table can draw.
   */
  lemma ResolveDrawable(icons: set<string>, token: Option<string>, fallback: Option<string>)
    requires EmojiTargets <= icons
    ensures Resolve(icons, token, fallback) == fallback || (Resolve(icons, token, fallback).Some? && Resolve(icons, token, fallback).value in icons)
  {
    EmojiTargetsComplete();
  }

  /** Resolving again what resolved to an icon name changes nothing. */
  lemma ResolveIdempotent(icons: set<string>, token: Option<string>, fallback: Option<string>)
    requires EmojiTargets <= icons
    requires Resolve(icons, token, fallback) != fallback
    ensures Resolve(icons, Resolve(icons, token, fallback), fallback) == Resolve(icons, token, fallback)
  {
    ResolveDrawable(icons, token, fallback);
  }
}

/** The mobile client's icons (MinimalIcon.tsx). */
module IconsNative {
  import opened Wrappers
  import opened Icons

  /** The keys of `icons`. */
  const NativeIcons: set<string> := {
    "arrowLeft", "baby", "bath", "bed", "bell", "bottle", "book", "chat", "close", "calendar",
    "clock", "cup", "document", "exit", "forum", "globe", "heart", "history", "lightbulb", "lock",
    "moon", "music", "shield", "search", "sleep", "spark", "star", "target", "trash", "users",
    "userPlus", "leaf"
  }

  /** Every emoji maps to an icon the mobile client can draw. */
  lemma EmojiTargetsAreNativeIcons()
    ensures EmojiTargets <= NativeIcons
    ensures forall e | e in EmojiIconMap :: EmojiIconMap[e] in NativeIcons
  {
    EmojiTargetsComplete();
  }

  function ResolveIconName(token: Option<string>, fallback: Option<string>): (r: Option<string>)
    ensures r == fallback || (r.Some? && r.value in NativeIcons)
    ensures token.None? || token.value == [] ==> r == fallback
    ensures token.Some? && token.value in NativeIcons ==> r == token
  {
    EmojiTargetsAreNativeIcons();
    ResolveDrawable(NativeIcons, token, fallback);
    Resolve(NativeIcons, token, fallback)
  }

  /** What MinimalIcon renders: a named icon, or the plain circle of last resort. */
  datatype Drawing = Glyph(name: string) | Circle

  /**
   * MinimalIcon: the named icon when the table has it, otherwise 'chat' if
   * the table has that, otherwise a circle.
   */
  function Draw(name: Option<string>): (d: Drawing)
    ensures d.Glyph? && d.name in NativeIcons
    ensures name.Some? && name.value in NativeIcons ==> d == Glyph(name.value)
    ensures name.None? || name.value !in NativeIcons ==> d == Glyph("chat")
  {
    if name.Some? && name.value != [] && name.value in NativeIcons then Glyph(name.value)
    else if "chat" in NativeIcons then Glyph("chat")
    else Circle
  }

  /** 'profile' and 'warning' are asked for elsewhere but not in the table, so they come out as 'chat'. */
  lemma UnknownNamesDrawChat()
    ensures Draw(Some("profile")) == Glyph("chat")
    ensures Draw(Some("warning")) == Glyph("chat")
  {
    assert "profile" !in NativeIcons by {
      assert "profile"[0] == 'p';
    }
    assert "warning" !in NativeIcons by {
      assert "warning"[0] == 'w' && "warning"[1] == 'a';
    }
  }
}

/** The web client's icons (MinimalIcon.jsx). */
module IconsWeb {
  import opened Wrappers
  import opened Icons

  /** The keys written in the `icons` literal. */
  const DeclaredIcons: set<string> := {
    "arrowLeft", "baby", "bath", "bed", "bell", "bottle", "book", "calendar", "chat", "clock",
    "close", "crown", "cup", "document", "exit", "forum", "globe", "heart", "history", "lightbulb",
    "lock", "logIn", "logout", "menu", "moon", "music", "options", "paperclip", "profile", "shield",
    "sleep", "spark", "star", "target", "trash", "users", "userPlus", "warning"
  }

  /** The table once `icons.leaf` has been assigned after the emoji table. */
  const WebIcons: set<string> := DeclaredIcons + {"leaf"}

  /** Without the late `leaf` entry one emoji would point at no icon; with it, every emoji has one. */
  lemma LeafCompletesTable()
    ensures "leaf" !in DeclaredIcons && "leaf" in EmojiTargets
    ensures EmojiTargets <= WebIcons
  {
    assert "leaf" !in DeclaredIcons by {
      assert "leaf"[0] == 'l' && "leaf"[1] == 'e';
    }
  }

  /** Unlike the mobile table, the web table has 'profile' and 'warning'. */
  lemma ProfileAndWarningDrawn()
    ensures "profile" in WebIcons && "warning" in WebIcons
  {}

  function ResolveIconName(token: Option<string>, fallback: Option<string>): (r: Option<string>)
    ensures r == fallback || (r.Some? && r.value in WebIcons)
    ensures token.None? || token.value == [] ==> r == fallback
    ensures token.Some? && token.value in WebIcons ==> r == token
  {
    LeafCompletesTable();
    ResolveDrawable(WebIcons, token, fallback);
    Resolve(WebIcons, token, fallback)
  }

  datatype Drawing = Glyph(name: string) | Circle

  /** MinimalIcon: the named icon when the table has it; a plain circle for a missing or unknown name. */
  function Draw(name: Option<string>): (d: Drawing)
    ensures d.Glyph? <==> name.Some? && name.value in WebIcons
    ensures d.Glyph? ==> d.name == name.value
  {
    if name.Some? && name.value != [] && name.value in WebIcons then Glyph(name.value) else Circle
  }

  // ---------------------------------------------------------------- svgProps

  /** The attribute names svgProps reads or writes; Attr is any other attribute. */
  datatype Key =
    | Size | StrokeWidth | ClassName | AriaHidden
    | Width | Height | ViewBox | Fill | Stroke | StrokeLinecap | StrokeLinejoin | Focusable
    | Attr(name: string)

  /** A JavaScript property value, as far as svgProps distinguishes them. */
  datatype Val = Undefined | Null | Text(s: string) | Number(n: real)

  type Props = map<Key, Val>

  /** A destructuring default: it applies to a missing or undefined property. */
  function Default(props: Props, k: Key, d: Val): (v: Val)
    ensures v != Undefined || d == Undefined
  {
    if k in props && props[k] != Undefined then props[k] else d
  }

  /** `x ?? d` */
  function Coalesce(x: Val, d: Val): Val { if x == Undefined || x == Null then d else x }

  /** The fixed attributes, before the caller's other props are spread over them. */
  function Base(size: Val, strokeWidth: Val, className: Val, ariaHidden: Val): Props
  {
    map[Width := size, Height := size, ViewBox := Text("0 0 24 24"), Fill := Text("none"),
        Stroke := Text("currentColor"), StrokeWidth := strokeWidth, StrokeLinecap := Text("round"),
        StrokeLinejoin := Text("round"), ClassName := className, Focusable := Text("false"),
        AriaHidden := Coalesce(ariaHidden, Text("true"))]
  }

  /**
   * svgProps as written: 'aria-hidden' is removed from the rest only when
   * its value is not undefined, so an explicitly undefined value is spread
   * back over the 'true' default.
   */
  function SvgPropsAsWritten(props: Props): (out: Props)
    ensures AriaHidden in out
  {
    var rest := props - {Size, StrokeWidth, ClassName};
    var aria := if AriaHidden in rest then rest[AriaHidden] else Undefined;
    var rest' := if aria != Undefined then rest - {AriaHidden} else rest;
    Base(Default(props, Size, Number(18.0)), Default(props, StrokeWidth, Number(1.6)),
         Default(props, ClassName, Undefined), aria) + rest'
  }

  /** An explicitly undefined 'aria-hidden' comes out undefined, not 'true'. */
  lemma ExplicitUndefinedAriaHidden()
    ensures SvgPropsAsWritten(map[AriaHidden := Undefined])[AriaHidden] == Undefined
  {}

  /** svgProps with 'aria-hidden' always taken out of the rest, so the default always applies. */
  function SvgProps(props: Props): (out: Props)
    ensures AriaHidden in out && Width in out && Height in out
  {
    var rest := props - {Size, StrokeWidth, ClassName, AriaHidden};
    var aria := if AriaHidden in props then props[AriaHidden] else Undefined;
    Base(Default(props, Size, Number(18.0)), Default(props, StrokeWidth, Number(1.6)),
         Default(props, ClassName, Undefined), aria) + rest
  }

  /**
   * Width and height are both the size (18 unless given) when the caller
   * does not set them itself, and 'aria-hidden' is 'true' unless the caller
   * gives a value other than undefined or null.
   */
  lemma SvgPropsDefaults(props: Props)
    ensures Width !in props && Height !in props ==>
              SvgProps(props)[Width] == SvgProps(props)[Height] == Default(props, Size, Number(18.0))
    ensures Size !in props && Width !in props ==> SvgProps(props)[Width] == Number(18.0)
    ensures AriaHidden !in props || props[AriaHidden] == Undefined || props[AriaHidden] == Null ==>
              SvgProps(props)[AriaHidden] == Text("true")
    ensures AriaHidden in props && props[AriaHidden].Text? ==> SvgProps(props)[AriaHidden] == props[AriaHidden]
  {}

  /** The two definitions differ only for an explicitly undefined 'aria-hidden'. */
  lemma SvgPropsAgreeOtherwise(props: Props)
    requires AriaHidden !in props || props[AriaHidden] != Undefined
    ensures SvgPropsAsWritten(props) == SvgProps(props)
  {}

  /** The caller's other attributes pass through unchanged. */
  lemma SvgPropsKeepsOtherAttributes(props: Props, name: string)
    requires Attr(name) in props
    ensures SvgProps(props)[Attr(name)] == props[Attr(name)]
  {}
}
