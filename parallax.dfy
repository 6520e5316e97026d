/** The settings of the parallax effect of parallax.js: the defaults, the
    merge with the caller's settings at the start of `init`, and the
    normalisation of the speed into the divisor `_animate` uses. */
module Parallax {
  import opened Text

  /** The setting values the model covers: numbers, strings, `null` and
      `undefined`. */
  datatype Value = Num(x: real) | Str(s: string) | Null | Undefined

  /** A settings object: its own properties and their values. */
  type Props = map<string, Value>

  /** `_defaults` (parallax.js:126-134). */
  function Defaults(): Props
  {
    map["property" := Str("background"), "direction" := Str("down"), "speed" := Num(13.0),
        "backgroundColor" := Str("transparent"), "realTop" := Num(0.0)]
  }

  /** The settings `init` works with (parallax.js:46): the defaults when
      the caller passes none (`None`, for `null` or nothing), else the
      defaults overridden property by property by the caller's. */
  function Merged(settings: Option<Props>): (r: Props)
    ensures settings.None? ==> r == Defaults()
    ensures forall k :: k in r <==> k in Defaults() || (settings.Some? && k in settings.value)
    ensures settings.Some? ==> forall k :: k in settings.value ==> r[k] == settings.value[k]
    ensures forall k :: k in Defaults() && !(settings.Some? && k in settings.value) ==> r[k] == Defaults()[k]
  {
    if settings.None? then Defaults() else Defaults() + settings.value
  }

  /** An empty settings object gives the same settings as none at all. */
  lemma EmptyIsDefault()
    ensures Merged(Some(map[])) == Merged(None)
  {
    assert Defaults() + map[] == Defaults();
  }

  /** `Number(v)`, the conversion `isNaN` and the comparisons apply; `None`
      is `NaN`. A string converts when it is empty (to 0) or made of
      decimal digits. */
  function ToNumber(v: Value): (r: Option<real>)
    ensures v.Num? ==> r == Some(v.x)
    ensures v.Undefined? ==> r.None?
  {
    match v
    case Num(x) => Some(x)
    case Null => Some(0.0)
    case Undefined => None
    case Str(s) =>
      if s == "" then Some(0.0)
      else if AllDigits(s) then Some(DecValue(s) as real)
      else None
  }

  /** `isNaN`. */
  predicate IsNaN(v: Value)
  {
    ToNumber(v).None?
  }

  /** The speed of a settings object; a missing one reads `undefined`. */
  function SpeedOf(p: Props): Value
  {
    if "speed" in p then p["speed"] else Undefined
  }

  /** The speed `_setSpeed` leaves (parallax.js:266-283): a speed that is
      not a number becomes 8, the speed is clamped to [1, 15], and the
      divisor is 16 minus it, so a faster effect divides by less. */
  function NormalizedSpeed(v: Value): (r: real)
    ensures 1.0 <= r <= 15.0
    ensures IsNaN(v) ==> r == 8.0
    ensures !IsNaN(v) && ToNumber(v).value >= 15.0 ==> r == 1.0
    ensures !IsNaN(v) && ToNumber(v).value <= 1.0 ==> r == 15.0
    ensures !IsNaN(v) && 1.0 <= ToNumber(v).value <= 15.0 ==> r == 16.0 - ToNumber(v).value
  {
    var x := if IsNaN(v) then 8.0 else ToNumber(v).value;
    var clamped := if x > 15.0 then 15.0 else if x < 1.0 then 1.0 else x;
    16.0 - clamped
  }

  /** The default speed 13 becomes the divisor 3. */
  lemma DefaultSpeed()
    ensures NormalizedSpeed(SpeedOf(Merged(None))) == 3.0
  {
  }

  /** `null` is a number for `isNaN` (it converts to 0), so a `null` speed
      is clamped up to 1 and gives the largest divisor, where `undefined`
      gives the middle one. */
  lemma NullIsSlowest()
    ensures NormalizedSpeed(Null) == 15.0 && NormalizedSpeed(Undefined) == 8.0
  {
  }

  /** A larger requested speed never gives a larger divisor. */
  lemma Antitone(a: Value, b: Value)
    requires !IsNaN(a) && !IsNaN(b) && ToNumber(a).value <= ToNumber(b).value
    ensures NormalizedSpeed(b) <= NormalizedSpeed(a)
  {
  }

  /** Within [1, 15] the normalisation is its own inverse: normalising
      twice gives back the requested speed, so `_setSpeed` must run once
      only. */
  lemma NormalizeTwice(x: real)
    requires 1.0 <= x <= 15.0
    ensures NormalizedSpeed(Num(NormalizedSpeed(Num(x)))) == x
  {
  }

  /** Within [1, 15] the divisor is a whole number exactly when the
      requested speed is one: a fractional speed gives a fractional
      divisor. */
  lemma WholeSpeed(x: real)
    requires 1.0 <= x <= 15.0
    ensures (NormalizedSpeed(Num(x)).Floor as real == NormalizedSpeed(Num(x))) <==> (x.Floor as real == x)
  {
    var d := NormalizedSpeed(Num(x));
    assert d == 16.0 - x;
    assert d.Floor == 16 - x.Floor - (if x.Floor as real == x then 0 else 1);
  }

  /** The props `_setSpeed` leaves: the speed normalised, every other
      property as it was. */
  function WithSpeed(p: Props): (r: Props)
    ensures "speed" in r && r["speed"] == Num(NormalizedSpeed(SpeedOf(p)))
    ensures r.Keys == p.Keys + {"speed"}
    ensures forall k :: k in p && k != "speed" ==> r[k] == p[k]
  {
    p["speed" := Num(NormalizedSpeed(SpeedOf(p)))]
  }

  /** A settings object, which `_setSpeed` changes in place. */
  class SettingsObject {
    var props: Props

    constructor (props: Props)
      ensures this.props == props
    {
      this.props := props;
    }

    /** `_setSpeed` (parallax.js:266-283): the speed is replaced step by
        step, each comparison converting the value as JavaScript does; the
        same object is returned. */
    method SetSpeed() returns (r: SettingsObject)
      modifies this
      ensures r == this
      ensures props == WithSpeed(old(props))
    {
      if IsNaN(SpeedOf(props)) {
        props := props["speed" := Num(8.0)];
      }
      var min := 1.0;
      var max := 15.0;
      if ToNumber(SpeedOf(props)).value > max {
        props := props["speed" := Num(max)];
      }
      if ToNumber(SpeedOf(props)).value < min {
        props := props["speed" := Num(min)];
      }
      max := max + 1.0;
      props := props["speed" := Num(max - ToNumber(SpeedOf(props)).value)];
      return this;
    }
  }

  /** The element the effect is put on: whether it carries the
      `mo-parallax` attribute. */
  class Element {
    var marked: bool

    constructor (marked: bool)
      ensures this.marked == marked
    {
      this.marked := marked;
    }
  }

  /** Whether `init` puts the effect on a background: the `property`
      setting is the string `background`. */
  predicate OnBackground(p: Props)
  {
    "property" in p && p["property"] == Str("background")
  }

  /** The start of `init` (parallax.js:39-54): nothing happens when the
      element already carries the effect or the document already has a
      scroll handler (`onscroll`). Otherwise the settings are merged, the
      element is marked when the effect is on its background, and the
      speed is normalised. */
  method Init(el: Element, settings: Option<Props>, onscroll: bool) returns (r: Option<SettingsObject>)
    modifies el
    ensures old(el.marked) || onscroll ==> r.None? && el.marked == old(el.marked)
    ensures !(old(el.marked) || onscroll) ==>
      r.Some? && fresh(r.value) && r.value.props == WithSpeed(Merged(settings)) &&
      el.marked == OnBackground(Merged(settings))
  {
    if el.marked || onscroll {
      return None;
    }
    var merged := new SettingsObject(Merged(settings));
    if merged.props["property"] == Str("background") {
      el.marked := true;
    }
    var normalized := merged.SetSpeed();
    return Some(normalized);
  }

  /** With no settings the effect goes on the background, and the speed
      has become 3. */
  lemma DefaultInit()
    ensures OnBackground(Merged(None))
    ensures WithSpeed(Merged(None))["speed"] == Num(3.0)
  {
    DefaultSpeed();
  }
}
