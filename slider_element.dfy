/** The sticky element of slider-element.js. An element registered with
    `register` follows the scroll: it becomes `fixed` under the page's fixed
    header, `absolute` at the bottom of its container, and gets its own
    inline style back when it leaves the container's range or when the
    effect may not apply. Every reading of the page's geometry
    (`offsetHeight`, `getBoundingClientRect`, `getComputedStyle`, the
    scroll offset) is a field of the `View` passed to `Scrolling`. */
module SliderElement {
  import opened Text

  // Settings and `_extend`.

  /** A setting's value: a number of pixels, or `null`. */
  datatype Value = Num(n: int) | Null

  /** A settings object: its own properties and their values. */
  type Settings = map<string, Value>

  /** `defaults` (slider-element.js:2-9). */
  function Defaults(): Settings
  {
    map["headFixHeight" := Num(0), "footerFixHeight" := Num(0), "minWidth" := Null, "marginStart" := Num(20)]
  }

  /** The four settings the effect reads are all present. */
  predicate Complete(s: Settings)
  {
    "headFixHeight" in s && "footerFixHeight" in s && "minWidth" in s && "marginStart" in s
  }

  /** What `_extend` builds: the properties of all objects, each with its
      value in the last object that has it. */
  function Merge(objs: seq<Settings>): Settings
  {
    if |objs| == 0 then map[] else Merge(objs[..|objs| - 1]) + objs[|objs| - 1]
  }

  /** The merged object has exactly the properties of the objects. */
  lemma {:induction false} MergeKeys(objs: seq<Settings>, k: string)
    ensures k in Merge(objs) <==> exists i :: 0 <= i < |objs| && k in objs[i]
  {
    if |objs| > 0 {
      var front := objs[..|objs| - 1];
      MergeKeys(front, k);
      assert forall i :: 0 <= i < |front| ==> front[i] == objs[i];
    }
  }

  /** A property takes its value from the last object that has it. */
  lemma {:induction false} MergeLast(objs: seq<Settings>, k: string, i: nat)
    requires i < |objs| && k in objs[i]
    requires forall j :: i < j < |objs| ==> k !in objs[j]
    ensures k in Merge(objs) && Merge(objs)[k] == objs[i][k]
  {
    if i < |objs| - 1 {
      var front := objs[..|objs| - 1];
      assert front[i] == objs[i];
      assert forall j :: i < j < |front| ==> front[j] == objs[j];
      MergeLast(front, k, i);
    }
  }

  /** The settings of a component: the defaults, overridden property by
      property by the caller's (slider-element.js:46). All four settings
      are present whatever the caller passes. */
  lemma SettingsOverride(caller: Settings, k: string)
    ensures Complete(Merge([Defaults(), caller]))
    ensures k in caller ==> Merge([Defaults(), caller])[k] == caller[k]
    ensures k !in caller && k in Defaults() ==> Merge([Defaults(), caller])[k] == Defaults()[k]
    ensures k !in caller && k !in Defaults() ==> k !in Merge([Defaults(), caller])
  {
    var objs := [Defaults(), caller];
    assert Merge(objs) == Merge([Defaults()]) + caller;
    assert Merge([Defaults()]) == Merge([]) + Defaults();
  }

  /** `_extend` (slider-element.js:11-21): copies the properties of each
      object in turn into a fresh object. */
  method Extend(objs: seq<Settings>) returns (r: Settings)
    ensures r == Merge(objs)
  {
    r := map[];
    var i := 0;
    while i < |objs|
      invariant 0 <= i <= |objs|
      invariant r == Merge(objs[..i])
    {
      ghost var base := r;
      var obj := objs[i];
      var props := obj.Keys;
      while props != {}
        invariant props <= obj.Keys
        invariant forall k :: k in r <==> k in base || (k in obj && k !in props)
        invariant forall k :: k in r ==> r[k] == if k in obj && k !in props then obj[k] else base[k]
        decreases props
      {
        var prop :| prop in props;
        r := r[prop := obj[prop]];
        props := props - {prop};
      }
      assert r == base + obj;
      assert objs[..i + 1][..i] == objs[..i];
      i := i + 1;
    }
    assert objs[..i] == objs;
  }

  /** A number setting as the arithmetic of `scrolling` reads it: `null`
      counts as 0. */
  function Number(v: Value): int
  {
    match v
    case Num(n) => n
    case Null => 0
  }

  function HeadFix(s: Settings): int
    requires Complete(s)
  {
    Number(s["headFixHeight"])
  }

  function FooterFix(s: Settings): int
    requires Complete(s)
  {
    Number(s["footerFixHeight"])
  }

  function MarginStart(s: Settings): int
    requires Complete(s)
  {
    Number(s["marginStart"])
  }

  // The page.

  /** The inline `position`: none, one of the five CSS keywords, or one of
      the keywords every property takes (`inherit`, `initial`, ...). */
  datatype Position = Unset | Static | Relative | Absolute | Fixed | Sticky | Global

  /** The element's inline style as the effect sees it: `position`, `top`
      and `width` (in pixels), and whatever else it declares. */
  datatype Style = Style(position: Position, top: Option<int>, width: Option<int>, rest: string)

  /** An element without a `style` attribute, or with an empty one. */
  const Unstyled := Style(Unset, None, None, "")

  /** What the page reports during one scroll event. */
  datatype View = View(
    /** `element.offsetHeight`. */
    offsetHeight: int,
    /** `window.scrollY`, or `scrollTop` of the scrolling element. */
    scrollTop: int,
    /** `clientHeight` and `clientWidth` of the document element. */
    clientHeight: int,
    clientWidth: int,
    /** The container's `getBoundingClientRect().top` and `offsetHeight`. */
    contRectTop: int,
    contOffsetHeight: int,
    /** The container's computed `padding-top` and border widths. */
    contPaddingTop: int,
    contBorderTop: int,
    contBorderBottom: int,
    /** The element's computed `top` when it has no inline `top`, with
        `auto` read as 0. */
    sheetTop: int)

  /** The direction of the scroll: `baja` and `sube`. */
  datatype Direction = Down | Up

  /** The top of the visible area below the fixed header. */
  function MarginTop(s: Settings): int
    requires Complete(s)
  {
    HeadFix(s) + MarginStart(s)
  }

  /** The height of the visible area between the fixed header and the
      fixed footer. */
  function Height(s: Settings, v: View): int
    requires Complete(s)
  {
    v.clientHeight - MarginTop(s) - FooterFix(s)
  }

  function TopWindow(s: Settings, v: View): int
    requires Complete(s)
  {
    v.scrollTop + MarginTop(s)
  }

  function TopContenedor(v: View): int
  {
    v.scrollTop + v.contRectTop
  }

  function ContBorder(v: View): int
  {
    v.contBorderTop + v.contBorderBottom
  }

  /** `getDirection` (slider-element.js:286-295): `baja` exactly when the
      top recorded by the previous call is above the present one, the same
      top `scrolling` computes; a scroll that has not moved is `sube`. */
  function GetDirection(prev: int, s: Settings, v: View): (r: Direction)
    requires Complete(s)
    ensures r == Down <==> prev < TopWindow(s, v)
  {
    var topWindow := v.scrollTop + HeadFix(s) + MarginStart(s);
    if prev < topWindow then Down else Up
  }

  /** Whether `minWidth` rules the effect out: it is set to a non-zero
      number larger than the viewport's width. */
  predicate TooNarrow(minWidth: Value, clientWidth: int)
  {
    minWidth.Num? && minWidth.n != 0 && minWidth.n > clientWidth
  }

  /** `condition` (slider-element.js:243-259). */
  function Condition(s: Settings, v: View, elHeight: int): (r: bool)
    requires Complete(s)
    ensures r <==> !TooNarrow(s["minWidth"], v.clientWidth) && v.contOffsetHeight > elHeight
  {
    if TooNarrow(s["minWidth"], v.clientWidth) then false
    else if v.contOffsetHeight <= elHeight then false
    else true
  }

  /** Unless the caller sets `minWidth`, only the heights decide. */
  lemma ConditionByDefault(caller: Settings, v: View, elHeight: int)
    requires "minWidth" !in caller
    ensures Complete(Merge([Defaults(), caller]))
    ensures Condition(Merge([Defaults(), caller]), v, elHeight) <==> v.contOffsetHeight > elHeight
  {
    SettingsOverride(caller, "minWidth");
  }

  /** The inline style `register` saves: the element's style when its
      `style` attribute is not empty (slider-element.js:54-56). */
  function Saved(style: Style): Option<Style>
  {
    if style != Unstyled then Some(style) else None
  }

  /** The style `resetElement` leaves (slider-element.js:297-303): the
      saved one, or none at all. */
  function ResetStyle(saved: Option<Style>): Style
  {
    if saved.Some? then saved.value else Unstyled
  }

  /** Resetting gives the element back exactly the inline style it had
      when it was registered. */
  lemma ResetRestores(style: Style)
    ensures ResetStyle(Saved(style)) == style
  {
  }

  /** `getTop` (slider-element.js:261-271): the computed `top`; an inline
      `top` overrides the style sheets. */
  function GetTop(style: Style, v: View): int
  {
    if style.top.Some? then style.top.value else v.sheetTop
  }

  /** `position: fixed` at `top`, with the element's width. */
  function Fix(style: Style, top: int, width: int): Style
  {
    style.(position := Fixed, top := Some(top), width := Some(width))
  }

  /** `position: absolute` at `top`, with the element's width. */
  function Pin(style: Style, top: int, width: int): Style
  {
    style.(position := Absolute, top := Some(top), width := Some(width))
  }

  // The transitions of `scrolling`.

  /** The fields of a component that `scrolling` reads but never writes. */
  datatype Config = Config(settings: Settings, saved: Option<Style>, elWidth: int)

  /** The part of the page and of the component that `scrolling` writes. */
  datatype State = State(style: Style, elHeight: int, topWinAnt: int, listening: bool)

  /** The limits when the visible area is taller than the element: the top
      of the container's content, and the top at which the element reaches
      the container's bottom. */
  function TallSup(v: View): int
  {
    TopContenedor(v) + v.contPaddingTop
  }

  function TallInf(v: View, h: int): int
  {
    TallSup(v) + v.contOffsetHeight - h - v.contPaddingTop
  }

  /** slider-element.js:119-160: an element shorter than the visible area. */
  function TallStep(style: Style, dir: Direction, c: Config, v: View, h: int): Style
    requires Complete(c.settings)
  {
    var marginTop, topWindow := MarginTop(c.settings), TopWindow(c.settings, v);
    var topeSup, topeInf := TallSup(v), TallInf(v, h);
    if dir == Down then
      var s1 := if topWindow > topeSup && style.position != Fixed then Fix(style, marginTop, c.elWidth) else style;
      if topWindow > topeInf && s1.position == Fixed
      then Pin(s1, topeInf - topeSup + v.contPaddingTop - ContBorder(v), c.elWidth)
      else s1
    else
      var s1 := if topWindow <= topeSup && style.position != Relative then ResetStyle(c.saved) else style;
      if topWindow <= topeInf && s1.position == Absolute then Fix(s1, marginTop, c.elWidth) else s1
  }

  /** The limits when the element is taller than the visible area. */
  function Diferencia(s: Settings, v: View, h: int): int
    requires Complete(s)
  {
    h - Height(s, v)
  }

  function ShortSup(s: Settings, v: View, h: int): int
    requires Complete(s)
  {
    TopContenedor(v) + Diferencia(s, v, h) + MarginStart(s)
  }

  function ShortInf(s: Settings, v: View, h: int): int
    requires Complete(s)
  {
    ShortSup(s, v, h) + v.contOffsetHeight - h
  }

  /** slider-element.js:165-227: an element taller than the visible area.
      `topElement` is read once, before any write; the second reading of
      `getTop` sees the writes before it. */
  function ShortStep(style: Style, dir: Direction, c: Config, v: View, h: int): Style
    requires Complete(c.settings)
  {
    var s := c.settings;
    var marginTop, topWindow, topContenedor := MarginTop(s), TopWindow(s, v), TopContenedor(v);
    var diferencia := Diferencia(s, v, h);
    var topeSup, topeInf := ShortSup(s, v, h), ShortInf(s, v, h);
    var topElement := GetTop(style, v);
    if dir == Down then
      var s1 := if topElement == marginTop && style.position == Fixed
                then Pin(style, topWindow - topContenedor, c.elWidth) else style;
      var s2 := if topWindow > topeSup + v.contPaddingTop + GetTop(s1, v) && s1.position != Fixed
                then Fix(s1, marginTop - diferencia - MarginStart(s), c.elWidth) else s1;
      if topWindow > topeInf - v.contPaddingTop && s2.position == Fixed
      then Pin(s2, topeInf - topeSup - v.contPaddingTop - ContBorder(v), c.elWidth)
      else s2
    else
      var s1 := if topElement != marginTop && style.position == Fixed
                then Pin(style, topWindow - topContenedor - diferencia, c.elWidth) else style;
      var s2 := if topWindow < topContenedor + topElement && s1.position == Absolute
                then Fix(s1, marginTop, c.elWidth) else s1;
      if topWindow < topContenedor + v.contPaddingTop && s2.position != Relative
      then ResetStyle(c.saved) else s2
  }

  /** One run of `scrolling` (slider-element.js:68-241). */
  function Scrolled(st: State, c: Config, v: View): State
    requires Complete(c.settings)
  {
    if v.offsetHeight == 0 then st.(listening := false)
    else
      var h := v.offsetHeight;
      var s := c.settings;
      var ok := Condition(s, v, h);
      var dir := GetDirection(st.topWinAnt, s, v);
      var s1 := if ok && Height(s, v) > h then TallStep(st.style, dir, c, v, h) else st.style;
      var s2 := if ok && Height(s, v) < h then ShortStep(s1, dir, c, v, h) else s1;
      var s3 := if !ok then ResetStyle(c.saved) else s2;
      State(s3, h, TopWindow(s, v), st.listening)
  }

  /** An element of height 0 has left the page: the scroll listener is
      removed and nothing else changes, not even the recorded top
      (slider-element.js:73-76). */
  lemma ZeroHeightDetaches(st: State, c: Config, v: View)
    requires Complete(c.settings) && v.offsetHeight == 0
    ensures Scrolled(st, c, v) == st.(listening := false)
  {
  }

  /** Any other call adopts the element's present height and records the
      top it saw, for the next call's direction (slider-element.js:82-84,
      240). */
  lemma RecordsTop(st: State, c: Config, v: View)
    requires Complete(c.settings) && v.offsetHeight != 0
    ensures Scrolled(st, c, v).elHeight == v.offsetHeight
    ensures Scrolled(st, c, v).topWinAnt == TopWindow(c.settings, v)
    ensures Scrolled(st, c, v).listening == st.listening
  {
  }

  /** After a call, the next one scrolls down exactly when the scroll
      offset has grown: the fixed header and the margin cancel out. */
  lemma DirectionFollowsScroll(st: State, c: Config, v1: View, v2: View)
    requires Complete(c.settings) && v1.offsetHeight != 0
    ensures GetDirection(Scrolled(st, c, v1).topWinAnt, c.settings, v2) == Down <==> v1.scrollTop < v2.scrollTop
  {
    RecordsTop(st, c, v1);
  }

  /** A second event at the same scroll offset counts as `sube`. */
  lemma RepeatIsUp(st: State, c: Config, v: View)
    requires Complete(c.settings) && v.offsetHeight != 0
    ensures GetDirection(Scrolled(st, c, v).topWinAnt, c.settings, v) == Up
  {
    DirectionFollowsScroll(st, c, v, v);
  }

  /** When the effect may not apply, the element gets its saved style back
      (slider-element.js:234-236). */
  lemma FailedConditionResets(st: State, c: Config, v: View)
    requires Complete(c.settings) && v.offsetHeight != 0
    requires !Condition(c.settings, v, v.offsetHeight)
    ensures Scrolled(st, c, v).style == ResetStyle(c.saved)
  {
  }

  /** When the element is exactly as tall as the visible area, neither
      branch applies and the style is left alone. */
  lemma SameHeightKeeps(st: State, c: Config, v: View)
    requires Complete(c.settings) && v.offsetHeight != 0
    requires Condition(c.settings, v, v.offsetHeight) && Height(c.settings, v) == v.offsetHeight
    ensures Scrolled(st, c, v).style == st.style
  {
  }

  /** The preconditions shared by the lemmas about a short element: the
      effect applies, the visible area is taller than the element, and the
      element is being scrolled in direction `dir`. */
  predicate TallCase(st: State, c: Config, v: View, dir: Direction)
  {
    Complete(c.settings) && v.offsetHeight != 0 &&
    Condition(c.settings, v, v.offsetHeight) && Height(c.settings, v) > v.offsetHeight &&
    GetDirection(st.topWinAnt, c.settings, v) == dir
  }

  lemma TallScrolled(st: State, c: Config, v: View, dir: Direction)
    requires TallCase(st, c, v, dir)
    ensures Scrolled(st, c, v).style == TallStep(st.style, dir, c, v, v.offsetHeight)
  {
  }

  /** Scrolling down past the container's top fixes the element under the
      header (slider-element.js:128-132). */
  lemma TallDownFixes(st: State, c: Config, v: View)
    requires TallCase(st, c, v, Down)
    requires TallSup(v) < TopWindow(c.settings, v) <= TallInf(v, v.offsetHeight)
    requires st.style.position != Fixed
    ensures Scrolled(st, c, v).style == Fix(st.style, MarginTop(c.settings), c.elWidth)
  {
    TallScrolled(st, c, v, Down);
  }

  /** Scrolling down past the container's bottom pins the element there;
      a single call can fix it and pin it at once
      (slider-element.js:128-140). */
  lemma TallDownPins(st: State, c: Config, v: View)
    requires TallCase(st, c, v, Down)
    requires TopWindow(c.settings, v) > TallInf(v, v.offsetHeight)
    requires TopWindow(c.settings, v) > TallSup(v) || st.style.position == Fixed
    ensures Scrolled(st, c, v).style.position == Absolute
    ensures Scrolled(st, c, v).style.top ==
      Some(TallInf(v, v.offsetHeight) - TallSup(v) + v.contPaddingTop - ContBorder(v))
    ensures Scrolled(st, c, v).style.width == Some(c.elWidth)
  {
    TallScrolled(st, c, v, Down);
  }

  /** Scrolling up above the container's top gives the element its own
      style back (slider-element.js:148-150). */
  lemma TallUpResets(st: State, c: Config, v: View)
    requires TallCase(st, c, v, Up)
    requires TopWindow(c.settings, v) <= TallSup(v) && st.style.position != Relative
    requires ResetStyle(c.saved).position != Absolute
    ensures Scrolled(st, c, v).style == ResetStyle(c.saved)
  {
    TallScrolled(st, c, v, Up);
  }

  /** Scrolling up from the container's bottom fixes the element again
      (slider-element.js:154-158). */
  lemma TallUpRefixes(st: State, c: Config, v: View)
    requires TallCase(st, c, v, Up)
    requires TallSup(v) < TopWindow(c.settings, v) <= TallInf(v, v.offsetHeight)
    requires st.style.position == Absolute
    ensures Scrolled(st, c, v).style == Fix(st.style, MarginTop(c.settings), c.elWidth)
  {
    TallScrolled(st, c, v, Up);
  }

  /** A short element scrolled down never ends `fixed` below the
      container's bottom: either it was pinned there or it was not fixed. */
  lemma TallDownNotFixedBelow(st: State, c: Config, v: View)
    requires TallCase(st, c, v, Down)
    requires TopWindow(c.settings, v) > TallInf(v, v.offsetHeight)
    ensures Scrolled(st, c, v).style.position != Fixed
  {
    TallScrolled(st, c, v, Down);
  }

  /** The preconditions shared by the lemmas about a tall element: the
      effect applies, the element is taller than the visible area, and it
      is being scrolled in direction `dir`. */
  predicate ShortCase(st: State, c: Config, v: View, dir: Direction)
  {
    Complete(c.settings) && v.offsetHeight != 0 &&
    Condition(c.settings, v, v.offsetHeight) && Height(c.settings, v) < v.offsetHeight &&
    GetDirection(st.topWinAnt, c.settings, v) == dir
  }

  lemma ShortScrolled(st: State, c: Config, v: View, dir: Direction)
    requires ShortCase(st, c, v, dir)
    ensures Scrolled(st, c, v).style == ShortStep(st.style, dir, c, v, v.offsetHeight)
  {
  }

  /** Scrolling down while fixed under the header lets the element scroll
      with the page again: it is made absolute where it stands, at the
      window's top relative to the container (slider-element.js:176-180).
      With a non-negative `marginStart` and padding, the two later checks
      leave it so. */
  lemma ShortDownReleases(st: State, c: Config, v: View)
    requires ShortCase(st, c, v, Down)
    requires GetTop(st.style, v) == MarginTop(c.settings) && st.style.position == Fixed
    requires MarginStart(c.settings) >= 0 && v.contPaddingTop >= 0
    ensures Scrolled(st, c, v).style ==
      Pin(st.style, TopWindow(c.settings, v) - TopContenedor(v), c.elWidth)
  {
    ShortScrolled(st, c, v, Down);
  }

  /** A tall element scrolled down never ends `fixed` once the window is
      past the container's bottom less its padding: the last check pins it
      (slider-element.js:195-199). */
  lemma ShortDownNotFixedBelow(st: State, c: Config, v: View)
    requires ShortCase(st, c, v, Down)
    requires TopWindow(c.settings, v) > ShortInf(c.settings, v, v.offsetHeight) - v.contPaddingTop
    ensures Scrolled(st, c, v).style.position != Fixed
  {
    ShortScrolled(st, c, v, Down);
  }

  /** Scrolling up while fixed at another top than the header's lets the
      element scroll with the page, made absolute where it stands
      (slider-element.js:207-211), as long as the window is still below the
      top it had and below the container's content. */
  lemma ShortUpReleases(st: State, c: Config, v: View)
    requires ShortCase(st, c, v, Up)
    requires GetTop(st.style, v) != MarginTop(c.settings) && st.style.position == Fixed
    requires TopWindow(c.settings, v) >= TopContenedor(v) + GetTop(st.style, v)
    requires TopWindow(c.settings, v) >= TopContenedor(v) + v.contPaddingTop
    ensures Scrolled(st, c, v).style ==
      Pin(st.style, TopWindow(c.settings, v) - TopContenedor(v) - Diferencia(c.settings, v, v.offsetHeight), c.elWidth)
  {
    ShortScrolled(st, c, v, Up);
  }

  /** Scrolling up above the element's top fixes it under the header
      (slider-element.js:215-219), while the window is still below the
      container's content. */
  lemma ShortUpRefixes(st: State, c: Config, v: View)
    requires ShortCase(st, c, v, Up)
    requires st.style.position == Absolute
    requires TopContenedor(v) + v.contPaddingTop <= TopWindow(c.settings, v) < TopContenedor(v) + GetTop(st.style, v)
    ensures Scrolled(st, c, v).style == Fix(st.style, MarginTop(c.settings), c.elWidth)
  {
    ShortScrolled(st, c, v, Up);
  }

  /** Scrolling up above the container's content gives the element its
      own style back, whatever the earlier checks did
      (slider-element.js:223-225). */
  lemma ShortUpResets(st: State, c: Config, v: View)
    requires ShortCase(st, c, v, Up)
    requires TopWindow(c.settings, v) < TopContenedor(v) + v.contPaddingTop
    requires st.style.position != Relative
    ensures Scrolled(st, c, v).style == ResetStyle(c.saved)
  {
    ShortScrolled(st, c, v, Up);
  }

  // The component.

  /** The element the effect is put on: whether it carries the
      `aw-sliderElement` marker, and its inline style. */
  class Element {
    var marked: bool
    var style: Style

    constructor (marked: bool, style: Style)
      ensures this.marked == marked && this.style == style
    {
      this.marked := marked;
      this.style := style;
    }
  }

  /** The component `register` builds (slider-element.js:41-50). */
  class Component {
    const element: Element
    const elWidth: int
    const settings: Settings
    /** `elStyle`: the inline style saved at registration. */
    const saved: Option<Style>
    var elHeight: int
    var topWinAnt: int
    /** Whether `scrollHandler` is attached to the scrolling element. */
    var listening: bool

    constructor (element: Element, elHeight: int, elWidth: int, settings: Settings, saved: Option<Style>)
      ensures this.element == element && this.elHeight == elHeight && this.elWidth == elWidth
      ensures this.settings == settings && this.saved == saved
      ensures topWinAnt == 0 && !listening
    {
      this.element := element;
      this.elHeight := elHeight;
      this.elWidth := elWidth;
      this.settings := settings;
      this.saved := saved;
      topWinAnt := 0;
      listening := false;
    }

    /** The fields `scrolling` only reads. */
    function Constants(): Config
      reads this
    {
      Config(settings, saved, elWidth)
    }

    /** The fields `scrolling` writes, with the element's style. */
    function Snapshot(): State
      reads this, element
    {
      State(element.style, elHeight, topWinAnt, listening)
    }

    /** `resetElement` (slider-element.js:297-303). */
    method ResetElement()
      modifies element
      ensures element.style == ResetStyle(saved)
      ensures element.marked == old(element.marked)
    {
      if saved.Some? {
        element.style := saved.value;
      } else {
        element.style := Unstyled;
      }
    }

    /** `destroy` (slider-element.js:305-308). */
    method Destroy()
      modifies this`listening
      ensures !listening
    {
      listening := false;
    }

    /** slider-element.js:119-160, the visible area being taller than the
        element. */
    method ScrollTall(v: View)
      requires Complete(settings)
      modifies element
      ensures element.style == TallStep(old(element.style), GetDirection(topWinAnt, settings, v), Constants(), v, elHeight)
      ensures element.marked == old(element.marked)
    {
      var marginTop := MarginTop(settings);
      var topWindow := v.scrollTop + marginTop;
      var topContenedor := v.scrollTop + v.contRectTop;
      var contPaddingTop := v.contPaddingTop;
      var contBorder := v.contBorderTop + v.contBorderBottom;
      var topeSup := topContenedor + contPaddingTop;
      var topeInf := topeSup + v.contOffsetHeight - elHeight - contPaddingTop;
      if GetDirection(topWinAnt, settings, v) == Down {
        if topWindow > topeSup && element.style.position != Fixed {
          element.style := Fix(element.style, marginTop, elWidth);
        }
        if topWindow > topeInf && element.style.position == Fixed {
          element.style := Pin(element.style, topeInf - topeSup + contPaddingTop - contBorder, elWidth);
        }
      }
      if GetDirection(topWinAnt, settings, v) == Up {
        if topWindow <= topeSup && element.style.position != Relative {
          ResetElement();
        }
        if topWindow <= topeInf && element.style.position == Absolute {
          element.style := Fix(element.style, marginTop, elWidth);
        }
      }
    }

    /** slider-element.js:165-227, the element being taller than the
        visible area. */
    method ScrollShort(v: View)
      requires Complete(settings)
      modifies element
      ensures element.style == ShortStep(old(element.style), GetDirection(topWinAnt, settings, v), Constants(), v, elHeight)
      ensures element.marked == old(element.marked)
    {
      var marginTop := MarginTop(settings);
      var height := v.clientHeight - marginTop - FooterFix(settings);
      var topWindow := v.scrollTop + marginTop;
      var topContenedor := v.scrollTop + v.contRectTop;
      var contPaddingTop := v.contPaddingTop;
      var contBorder := v.contBorderTop + v.contBorderBottom;
      var diferencia := elHeight - height;
      var topeSup := topContenedor + diferencia + MarginStart(settings);
      var topeInf := topeSup + v.contOffsetHeight - elHeight;
      var topElement := GetTop(element.style, v);
      ghost var style0 := element.style;
      if GetDirection(topWinAnt, settings, v) == Down {
        if topElement == marginTop && element.style.position == Fixed {
          element.style := Pin(element.style, topWindow - topContenedor, elWidth);
        }
        if topWindow > topeSup + contPaddingTop + GetTop(element.style, v) && element.style.position != Fixed {
          element.style := Fix(element.style, marginTop - diferencia - MarginStart(settings), elWidth);
        }
        if topWindow > topeInf - contPaddingTop && element.style.position == Fixed {
          element.style := Pin(element.style, topeInf - topeSup - contPaddingTop - contBorder, elWidth);
        }
        assert element.style == ShortStep(style0, Down, Constants(), v, elHeight);
      }
      if GetDirection(topWinAnt, settings, v) == Up {
        if topElement != marginTop && element.style.position == Fixed {
          element.style := Pin(element.style, topWindow - topContenedor - diferencia, elWidth);
        }
        if topWindow < topContenedor + topElement && element.style.position == Absolute {
          element.style := Fix(element.style, marginTop, elWidth);
        }
        if topWindow < topContenedor + contPaddingTop && element.style.position != Relative {
          ResetElement();
        }
        assert element.style == ShortStep(style0, Up, Constants(), v, elHeight);
      }
    }

    /** `scrolling` (slider-element.js:68-241): the checks run in order,
        each seeing the writes of those before it. `alive` is false when
        the element has left the page. */
    method Scrolling(v: View) returns (alive: bool)
      requires Complete(settings)
      modifies this, element
      ensures alive <==> v.offsetHeight != 0
      ensures Snapshot() == Scrolled(old(Snapshot()), Constants(), v)
      ensures element.marked == old(element.marked)
    {
      if v.offsetHeight == 0 {
        Destroy();
        return false;
      }
      if elHeight != v.offsetHeight {
        elHeight := v.offsetHeight;
      }
      var marginTop := MarginTop(settings);
      var height := v.clientHeight - marginTop - FooterFix(settings);
      var topWindow := v.scrollTop + marginTop;
      if Condition(settings, v, elHeight) {
        if height > elHeight {
          ScrollTall(v);
        }
        if height < elHeight {
          ScrollShort(v);
        }
      }
      if !Condition(settings, v, elHeight) {
        ResetElement();
      }

      topWinAnt := topWindow;
      return true;
    }
  }

  /** `register` (slider-element.js:34-66), which `init`
      (slider-element.js:29-32) calls: an element that already carries the
      marker is left alone. Otherwise it is marked, its inline style is
      saved, a component is built with the merged settings, `scrolling`
      runs once and the scroll listener is attached. */
  method Register(el: Element, caller: Settings, offsetWidth: int, v: View) returns (c: Option<Component>)
    modifies el
    ensures old(el.marked) ==> c.None? && el.style == old(el.style) && el.marked
    ensures !old(el.marked) ==> c.Some? && fresh(c.value) && el.marked && c.value.element == el
    ensures !old(el.marked) ==>
      c.value.settings == Merge([Defaults(), caller]) && Complete(c.value.settings) && c.value.saved == Saved(old(el.style)) &&
      c.value.Snapshot() ==
        Scrolled(State(old(el.style), v.offsetHeight, 0, false), c.value.Constants(), v).(listening := true)
  {
    if el.marked {
      return None;
    }
    el.marked := true;
    var settings := Extend([Defaults(), caller]);
    SettingsOverride(caller, "");
    var elStyle := None;
    if el.style != Unstyled {
      elStyle := Some(el.style);
    }
    var component := new Component(el, v.offsetHeight, offsetWidth, settings, elStyle);
    var _ := component.Scrolling(v);
    component.listening := true;
    return Some(component);
  }
}
