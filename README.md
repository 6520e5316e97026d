# MoEffects core in Dafny

A model of four parts of the MoEffects browser-effects library, each with
proofs about what it promises:

- **Colours** (`color.js`, object `MoColors`). `type` classifies a colour
  text as HEX, RGB, RGBA, HSL, HSLA, TEXTO or nothing (`false`). The
  converters `toRGB`, `toRGBA`, `toHSL`, `toHSLA` and `toHEX` rewrite a
  colour into one format. `contrast` says whether a colour is `light` or
  `dark`. The model is pure functions over `seq<char>`:
  - `text.dfy` holds the JavaScript string built-ins these rely on: `split`,
    removing spaces, `parseInt`, and printing numbers.
  - `color_format.dfy` holds the regular expressions and `type`.
  - `color_math.dfy` holds the HSL/RGB arithmetic, on exact reals.
  - `color_fields.dfy` holds how the converters take colour texts apart and
    write them.
  - `color.dfy` holds the converters.
  - `color_laws.dfy` holds the round trips and other laws.
  - `color_export.dfy` holds the converters as the default export hands
    them out, where `this` lacks `_hue2rgb`.
- **Sortable** (`sortable.js`, object `MoSortable`). Drag-to-reorder for the
  children of one container. The class `Sortable.MoSortable` keeps the
  module's fields, plus the DOM state the module writes:
  - the children in order;
  - the `draggable` attribute;
  - the inline `cursor`;
  - whether the listeners are attached.

  Each method is proved against pure functions (`Moved`, `Nearest`,
  `OverTarget`, `TagAfter`, `Allowed`, `WithCursor`), and lemmas state what
  these guarantee.
- **Sticky element** (`slider-element.js`, object `MoSliderElement`).
  - The settings merge `_extend` is a nested loop proved equal to `Merge`.
  - The component is a class whose `Scrolling` method runs the checks of
    `scrolling` in order. It is proved equal to the pure transition
    `Scrolled`, and lemmas state the transitions.
  - Every reading of the page's geometry is a field of the `View` argument.
- **Parallax settings** (`parallax.js`, object `MoParallax`). The defaults,
  the merge at the start of `init`, and `_setSpeed`, which turns the
  requested speed into the divisor used by the animation.

Three behaviours of the code that are easy to miss:

- The RGB channel pattern of `type` (color.js:13) admits exactly 0-255,
  leading zeros included (`ByteTokenIff`).
- `toRGB` is not idempotent on every colour. An HSL colour with saturation 0
  converts without rounding, so `hsl(0,0%,50%)` becomes
  `rgb(127.5,127.5,127.5)`. `type` calls that TEXTO, and `toRGB` of it
  reaches no branch (`AchromaticIsText`). On colours with saturation the
  methods of `MoColors` give RGB (`ChromaticIsRgb`).
- The default export (color.js:552-560) copies the public methods but not
  `_hue2rgb`. Called through it, every conversion of an HSL or HSLA colour
  with saturation throws (`ColorExport`, see "## Findings").

## Model

| member | source | states |
|---|---|---|
| ColorFormat.Type | color.js:10-54 | The answer is the first of HEX (on the raw text), then RGB, RGBA, HSL, HSLA, TEXTO (on the text without spaces) whose shape the text has; no earlier shape matches; `false` exactly when no shape matches |
| ColorFormat.ByteTokenIff | color.js:13 | The four channel alternatives admit a 1-3 digit number exactly when its value is at most 255 |
| ColorFormat.HueTokenIff | color.js:17 | The hue alternatives admit a 1-3 digit number exactly when its value is at most 360 |
| ColorFormat.PercentTokenValue | color.js:17 | A saturation or lightness is at most 100, and has three digits only when it is 100 |
| ColorFormat.AlphaTokenShape | color.js:15 | An alpha is `1` or contains a point within its first two characters; a bare `0` is no alpha |
| ColorFormat.TextTakesPunctuation | color.js:20 | The `[a-zA-z]` range also accepts `_`, `[` and the backquote, and `#123` has no character in it |
| ColorFormat.ShapesDisjoint | color.js:11-20 | HEX, RGB, RGBA, HSL and HSLA exclude each other, and each functional shape also satisfies the TEXTO test |
| ColorFormat.TypeOfStripped | color.js:22-47 | A text without spaces that does not start with `#` is classified by the functional patterns and the letter test alone |
| ColorFormat.HexHasNoSpace | color.js:11 | A HEX colour has no space |
| Text.StripSpaces | color.js:27 | The result has no space, is no longer than the input, and holds every other character the input holds |
| Text.StripSpacesNoSpace | color.js:27 | Removing spaces from a text without spaces changes nothing |
| Text.Split | color.js:120-121 | `split` yields at least one piece and no piece holds the separator |
| Text.SplitAtFirst | color.js:120-121 | Splitting `a + c + b` where `a` has no `c` gives `a` followed by the pieces of `b` |
| Text.SplitCovers | color.js:120-121 | A character that no piece holds, other than the separator, is not in the text |
| Text.ParseIntPrefix | color.js:126-128 | `parseInt` reads every leading digit and stops at the first other character |
| Text.DecTextValue | color.js:147 | The decimal digits a whole number prints as read back as that number |
| Text.HexTextValue | color.js:465 | The base-16 digits of `toString(16)` read back as the number |
| Text.DecText | color.js:147 | A number prints with one digit below 10, at most two below 100, at most three below 1000 |
| Text.HexText | color.js:465 | `toString(16)` writes lower-case digits, one below 16, at most two below 256 |
| Text.DigitCharOf | color.js:465 | Each lower-case hexadecimal digit is the digit written for its own value |
| Text.ParseIntCentsText | color.js:132 | `parseInt` of a printed number of hundredths is its integer part |
| Text.CentsTextWhole | color.js:147 | A whole number of hundredths prints as the plain decimal digits |
| ColorMath.RoundWithin | color.js:142-144 | `Math.round` of a value between two integers stays between them |
| ColorMath.Hue2Rgb | color.js:530-549 | For bounds `0 <= m1 <= m2 <= 1` and a hue fraction in [-1, 2] the value is within 0-255 |
| ColorMath.Hue2RgbWithin | color.js:530-549 | Each of the four pieces of the hue function stays within [0, 1] |
| ColorMath.Bounds | color.js:134-140 | The two bounds of the HSL conversion satisfy `0 <= m1 <= m2 <= 1` |
| ColorMath.Channel | color.js:142-144 | A rounded chromatic channel is an integer in 0-255 |
| ColorMath.Grey | color.js:132 | The achromatic value `l * 255` is a channel value, exactly `light * 255 / 100` |
| ColorMath.GreyWhole | color.js:132 | `l * 255` is a whole number exactly when `light * 255` is a multiple of 100 |
| ColorMath.HslToRgb | color.js:126-145 | Channels lie in 0-255; with saturation they are whole numbers; without it all three equal `l * 255`, whole exactly when `light * 255` is a multiple of 100 |
| ColorMath.Saturation | color.js:306-311 | The saturation fraction lies in [0, 1] |
| ColorMath.HueSixths | color.js:312-320 | The hue in sixths of a turn lies in [-1, 5] |
| ColorMath.RgbToHsl | color.js:291-331 | Hue in 0-359 after negative hues are wrapped, saturation and lightness in 0-100 |
| ColorFields.FieldsOfWrap | color.js:120-121 | The `split("(")[1].split(")")[0].split(",")` chain recovers the comma-separated fields of `name(body)` |
| ColorFields.ShapeFields | color.js:120-121 | For a text the patterns accept, the split chain finds exactly the fields the pattern saw |
| ColorFields.Call3Fields | color.js:147 | A text written as `name(a,b,c)` has the fields `a`, `b`, `c` for the patterns and for the splitting, and no space |
| ColorFields.Call4Fields | color.js:245 | The same for `name(a,b,c,d)` |
| ColorFields.PercentFieldParts | color.js:127-128 | `parseInt` of a percentage field is its number, at most 100 |
| ColorFields.ByteTokenParse | color.js:465 | `parseInt` of a channel token is its value, at most 255 |
| ColorFields.HueTokenParse | color.js:126 | `parseInt` of a hue token is its value, at most 360 |
| ColorFields.RgbShape | color.js:13 | What the RGB pattern admits reads back as its three channel values |
| ColorFields.HslShape | color.js:17 | What the HSL pattern admits reads as a hue up to 360 and two percentages up to 100 |
| ColorFields.HslaShape | color.js:19 | What the HSLA pattern admits reads as a hue up to 360 and two percentages up to 100 |
| ColorFields.RgbaShape | color.js:15 | What the RGBA pattern admits splits into fields whose first three `parseInt` reads as channels of at most 255 |
| ColorFields.HexChannelsOfHex | color.js:93-115 | Every HEX colour yields channels; shorthand digits stand for themselves doubled (17 times the digit), six digits for three base-16 pairs |
| ColorFields.HexPairs | color.js:100 | The three pairs the six-digit pattern reads are each at most 255 |
| ColorFields.Pair | color.js:465-472 | The padded `toString(16)` of a channel has two lower-case digits exactly when the channel is at most 255, and reads back as the channel |
| ColorFields.PairOfValue | color.js:465-472 | A lower-case pair is exactly what is written for its value |
| ColorFields.RgbFieldsToHex | color.js:462-474 | For RGB-like input the result is a six-digit HEX colour whose channels are the ones `parseInt` read |
| ColorFields.HexOfPairs | color.js:474 | `#` and three pairs form a HEX colour whose channels are the pairs' values |
| ColorFields.NumberText | color.js:147 | A channel prints with no comma, parenthesis or space; `parseInt` reads back its integer part; it prints as plain digits exactly when it is whole |
| ColorFields.RgbIntsParts | color.js:103-111 | `rgb(r,g,b)` written from channels is an RGB colour without spaces that reads back as those channels |
| ColorFields.DecTextParts | color.js:147 | A printed whole number reads back through `parseInt` |
| Color.StrippedType | color.js:75-76 | Classifying the text again after its spaces are removed gives the same format, except TEXTO, which may turn into HEX (`# abc`) |
| Color.HexToRgb | color.js:93-115 | The HEX branch succeeds exactly when the HEX patterns find channels, and writes an RGB colour without spaces holding those channels |
| Color.HexToRgba | color.js:191-215 | The HEX branch of `toRGBA` succeeds exactly when channels are found, writes those channels, and is RGBA for `type` when the alpha is an alpha token |
| Color.ToRGB | color.js:64-149 | Fails (`false`) exactly on no colour; yields nothing for TEXTO; RGB input is returned without spaces, RGBA goes through HEX, HEX through its channels, HSL and HSLA through the HSL arithmetic; every result is RGB-like and has no space |
| Color.ToRGBA | color.js:160-247 | Fails as `toRGB` does; RGBA input is returned without spaces; RGB goes through HEX; a falsy `trans` becomes 1; results from HEX, RGB and RGBA are RGBA for `type` when the alpha is valid |
| Color.ToHSL | color.js:257-331 | Fails exactly on no colour and on TEXTO that is not HEX once stripped; HSL input is returned without spaces; every result is HSL for `type` |
| Color.ToHSLA | color.js:343-429 | As `toHSL`, with HSLA input returned as is; results are HSLA for `type` when the alpha is valid |
| Color.ToHEX | color.js:432-475 | Fails exactly on no colour and on TEXTO that is not HEX once stripped; HEX input is returned as is; RGB and RGBA go through their channels; every result is HEX for `type` |
| Color.Contrast | color.js:485-522 | `false` for no colour and for TEXTO; otherwise `light` exactly when the weighted brightness of the RGB channels exceeds 125 |
| Color.HslTextType | color.js:331 | What `toHSL` writes is HSL for `type` |
| Color.HslaTextType | color.js:421 | What `toHSLA` writes is HSLA for `type` when the alpha is valid |
| Color.RgbaOutputType | color.js:202-210 | What the HEX branch of `toRGBA` writes is RGBA for `type` when the alpha is valid |
| Color.TypeOfHsl | color.js:37-39 | An HSL text without spaces is HSL for `type` |
| Color.TypeOfHsla | color.js:41-43 | An HSLA text without spaces is HSLA for `type` |
| Color.TypeOfRgba | color.js:33-35 | An RGBA text without spaces is RGBA for `type` |
| ColorLaws.RgbIntsType | color.js:103-111 | The RGB text `toRGB` writes from channels is RGB for `type` |
| ColorLaws.ToRGBOfHex | color.js:93-115 | `toRGB` of a HEX colour is its HEX branch |
| ColorLaws.ToHEXOfRgb | color.js:456-474 | `toHEX` of an RGB colour without spaces writes its channels as pairs |
| ColorLaws.PairsOfHex | color.js:465-474 | Writing the channels of a six-digit lower-case HEX colour gives the colour back |
| ColorLaws.ToHEXIdempotent | color.js:450-452 | `toHEX` of its own result returns it unchanged |
| ColorLaws.HexRgbHexRoundTrip | color.js:93-115 | A six-digit lower-case HEX colour survives the trip to RGB and back |
| ColorLaws.RgbHexRgbRoundTrip | color.js:462-474 | An RGB text as `toRGB` writes it survives the trip to HEX and back |
| ColorLaws.ShorthandDoubles | color.js:94-98 | A three-digit HEX colour converts with each digit doubled |
| ColorLaws.RgbaAgreesWithRgb | color.js:160-247 | `toRGB` and `toRGBA` find the same three channels for every colour `toRGB` converts, RGBA input included, when `trans` prints without `,`, `(`, `)` or a space |
| ColorLaws.FalsyTransIsOne | color.js:187-189 | An omitted, empty, zero or NaN `trans` gives the same result as 1 in `toRGBA` |
| ColorLaws.FalsyTransIsOneHsla | color.js:372-374 | The same in `toHSLA` |
| ColorLaws.TypeOfBadRgb | color.js:13 | A text written `rgb(...)` whose first field is no channel token is TEXTO |
| ColorLaws.FractionalRgbIsText | color.js:132 | The RGB text of a grey with a fraction is TEXTO for `type` |
| ColorLaws.AchromaticIsText | color.js:132 | An HSL colour without saturation whose `l * 255` has a fraction converts to a text `type` calls TEXTO, and `toRGB` of that reaches no branch |
| ColorLaws.ChromaticIsRgb | color.js:142-147 | An HSL colour with saturation converts to RGB for `type` |
| ColorLaws.ToRGBOfText | color.js:80-148 | `toRGB` has no branch for TEXTO |
| ColorLaws.ContrastOfHex | color.js:496-522 | `contrast` of a HEX colour is decided by the channels the HEX patterns find |
| ColorLaws.SliceValue | color.js:100-109 | Each two-digit slice of a six-digit HEX colour is one base-16 pair |
| ColorLaws.GreyContrast | color.js:514-521 | A six-digit grey is light exactly when its digit is 8 or more |
| ColorLaws.BlackIsDark | color.js:514-521 | Worked example of `GreyContrast`: black is dark |
| ColorLaws.WhiteIsLight | color.js:514-521 | Worked example of `GreyContrast`: white is light |
| ColorLaws.RgbToHslExample | color.js:291-331 | Pure red with half blue is `hsl(330,100%,50%)` |
| ColorLaws.SpacedHexIsText | color.js:22-46 | `# abc` is TEXTO, has no `toRGB` result, yet `toHEX` converts it because it strips the space first |
| ColorExport.ExportedToRGB | color.js:142-144 | Through the default export, `toRGB` fails exactly where the method fails, plus on HSL/HSLA colours with saturation, where it throws; elsewhere it gives the method's result |
| ColorExport.ExportedToRGBA | color.js:240-242 | The same for `toRGBA` |
| ColorExport.ExportedToHSL | color.js:281-284 | Through the export, `toHSL` of an HSLA colour with saturation throws in the inner `toRGB`; every other input gives the method's result |
| ColorExport.ExportedToHSLA | color.js:367-370 | Through the export, `toHSLA` of an HSL colour with saturation throws in the inner `toRGB`; every other input gives the method's result |
| ColorExport.ExportedToHEX | color.js:456-458 | Through the export, `toHEX` throws exactly on HSL/HSLA colours with saturation and otherwise gives the method's result |
| ColorExport.ExportedContrast | color.js:496-498 | The same for `contrast` |
| ColorExport.ExportedThrows | color.js:552-560 | On an HSL/HSLA colour with saturation, the exported `toRGB`, `toRGBA`, `toHEX`, `contrast` (and `toHSL` on HSLA, `toHSLA` on HSL) throw where the methods of `MoColors` succeed |
| ColorExport.GreenIsChromatic | color.js:552-560 | `hsl(120,100%,50%)` is such a colour: the exported `toRGB` throws on it |
| Sortable.Remove | sortable.js:174 | Taking a child out leaves one child fewer |
| Sortable.RemoveKeeps | sortable.js:174 | Taking a child out keeps every other child, shifted past the gap |
| Sortable.RemoveDistinct | sortable.js:174 | Taking a child out of distinct children leaves distinct children without it |
| Sortable.IndexOfDistinct | sortable.js:173-178 | Among distinct children the position found for a child is its own |
| Sortable.Moved | sortable.js:173-179 | A reorder keeps the number of children |
| Sortable.BranchesAreMoved | sortable.js:173-179 | The three branches (`insertBefore` the target, `insertBefore` its next sibling, `appendChild`) all place the dragged child as `Moved` says |
| Sortable.MovedPermutation | sortable.js:173-179 | A reorder is a permutation of the children |
| Sortable.MovedKeepsOthers | sortable.js:173-179 | Only the dragged child moves: without it, the children are in their old order |
| Sortable.MovedNextToTarget | sortable.js:173-179 | The dragged child ends beside the target: before it when it came right after it, after it otherwise |
| Sortable.MovedDistinct | sortable.js:173-179 | A reorder of distinct children leaves them distinct |
| Sortable.Nearest | sortable.js:138-140 | The element found is the first of the chain carrying `draggable`; none when no element carries it |
| Sortable.OverTarget | sortable.js:159-165 | The element the walk stops on is in the chain and carries `draggable` |
| Sortable.ClimbOntoContainer | sortable.js:159-165 | Climbing onto the container before finding a draggable element ends the walk with no target |
| Sortable.DragOverOnlyMovesDragged | sortable.js:155-181 | A drag over is a permutation that keeps the children distinct; either nothing changes or only the dragged child has moved |
| Sortable.DragOverIgnores | sortable.js:167-172 | A target that is the container, the dragged child, or has another tag name changes nothing |
| Sortable.TagAfter | sortable.js:118-119 | The remembered tag name is kept once set, else taken from the first child |
| Sortable.Elements | sortable.js:113-115 | The set of children holds exactly the elements of the list |
| Sortable.WithCursor | sortable.js:116 | Every child gets the cursor value; other elements keep theirs |
| Sortable.AllowedStep | sortable.js:114-123 | One more child keeps the verdict true exactly while it has the remembered tag name |
| Sortable.TagKept | sortable.js:118-122 | Children read later are measured against the tag name the first children fixed |
| Sortable.MixedNotAllowed | sortable.js:118-122 | Children with two different tag names are never allowed |
| Sortable.MoSortable.constructor | sortable.js:9-14 | The module's fields start empty |
| Sortable.MoSortable.SetElements | sortable.js:9-14 | The module's fields are reset; the page's attributes stay |
| Sortable.MoSortable.SetChildrens | sortable.js:111-126 | The children are read; each is made draggable with a `move` cursor; the tag name is fixed from the first child if unset; the result says whether all share it |
| Sortable.MoSortable.Unmark | sortable.js:40-43 | Every child loses `draggable` and its cursor |
| Sortable.MoSortable.Upload | sortable.js:32-45 | The children are read again and the tag name fixed as on `init`; when they may be sorted they are draggable with a `move` cursor, otherwise they lose both |
| Sortable.MoSortable.Init | sortable.js:67-104 | Without a container returns `false` and attaches nothing; otherwise reads the children and either attaches the listeners with the callback, or strips the children |
| Sortable.MoSortable.Attach | sortable.js:79-96 | The listeners are attached; the callback becomes `options` if it is a function, else `callback` if that is one, else stays as it was |
| Sortable.MoSortable.DragStart | sortable.js:135-146 | Records the nearest element from the target up that carries `draggable` |
| Sortable.MoSortable.DragOver | sortable.js:155-181 | The children become `DragOverResult`, and stay distinct |
| Sortable.MoSortable.DragEnd | sortable.js:190-195 | Calls the callback, when set, with the dragged element, the children and the container |
| SliderElement.MergeKeys | slider-element.js:11-21 | The merged object has exactly the properties of the objects |
| SliderElement.MergeLast | slider-element.js:11-21 | A property takes its value from the last object that has it |
| SliderElement.Extend | slider-element.js:11-21 | The nested copy loop builds `Merge` of the objects |
| SliderElement.SettingsOverride | slider-element.js:46 | The settings hold all four properties; the caller's override the defaults one by one, the others keep their defaults |
| SliderElement.GetDirection | slider-element.js:286-295 | `baja` exactly when the recorded top is above the top `scrolling` computes; equal tops give `sube` |
| SliderElement.DirectionFollowsScroll | slider-element.js:286-295 | After a call, the next one scrolls down exactly when the scroll offset has grown |
| SliderElement.RepeatIsUp | slider-element.js:290-294 | A second event at the same offset is `sube` |
| SliderElement.Condition | slider-element.js:243-259 | True exactly when `minWidth` is unset, zero, or no larger than the viewport width, and the container is taller than the element |
| SliderElement.ConditionByDefault | slider-element.js:243-259 | Unless the caller sets `minWidth`, only the heights decide |
| SliderElement.ResetRestores | slider-element.js:297-303 | Resetting gives the element exactly the inline style it had when registered |
| SliderElement.ZeroHeightDetaches | slider-element.js:73-76 | An element of height 0 loses its scroll listener and nothing else changes, not even the recorded top |
| SliderElement.RecordsTop | slider-element.js:82-240 | Any other call adopts the element's present height and records the top it saw |
| SliderElement.FailedConditionResets | slider-element.js:234-236 | When the condition fails the element gets its saved style back |
| SliderElement.SameHeightKeeps | slider-element.js:119-165 | An element exactly as tall as the visible area keeps its style |
| SliderElement.TallScrolled | slider-element.js:119-160 | When the condition holds and the visible area is taller than the element, the style follows `TallStep`, the rules for an element that fits on screen |
| SliderElement.TallDownFixes | slider-element.js:128-132 | Scrolling down past the container's top fixes the element at `marginTop` |
| SliderElement.TallDownPins | slider-element.js:128-140 | Scrolling down past the container's bottom pins the element there, even in the call that fixed it |
| SliderElement.TallDownNotFixedBelow | slider-element.js:125-141 | Scrolling down past the bottom never leaves the element fixed |
| SliderElement.TallUpResets | slider-element.js:148-150 | Scrolling up above the container's top restores the saved style |
| SliderElement.TallUpRefixes | slider-element.js:154-158 | Scrolling up from the bottom fixes the element again at `marginTop` |
| SliderElement.ShortScrolled | slider-element.js:165-227 | When the condition holds and the element is taller than the visible area, the style follows `ShortStep` |
| SliderElement.ShortDownReleases | slider-element.js:176-199 | Scrolling down while fixed under the header makes the element absolute at the window's top less the container's top; with non-negative `marginStart` and padding the later checks leave it so |
| SliderElement.ShortDownNotFixedBelow | slider-element.js:173-199 | Scrolling down past the container's bottom less its padding never leaves the element fixed |
| SliderElement.ShortUpReleases | slider-element.js:207-225 | Scrolling up while fixed at another top than the header's makes the element absolute at the window's top less the container's top and the overflow, while the window stays below the element's top and the container's content |
| SliderElement.ShortUpRefixes | slider-element.js:204-225 | Scrolling up above an absolute element's top, but below the container's content, fixes it under the header |
| SliderElement.ShortUpResets | slider-element.js:223-225 | Scrolling up above the container's content restores the saved style, whatever the earlier checks did |
| SliderElement.Component.constructor | slider-element.js:41-50 | A component starts with the element's height and width, its settings and saved style, top 0, and no listener |
| SliderElement.Component.ResetElement | slider-element.js:297-303 | The saved style is set back, or the style attribute removed |
| SliderElement.Component.Destroy | slider-element.js:305-308 | The scroll listener is removed |
| SliderElement.Component.ScrollTall | slider-element.js:119-160 | The checks for an element that fits in the visible area run in order on the element's style and leave `TallStep`; the element stays marked |
| SliderElement.Component.ScrollShort | slider-element.js:165-227 | The checks for an element taller than the visible area run in order on the element's style and leave `ShortStep`; the element stays marked |
| SliderElement.Component.Scrolling | slider-element.js:68-241 | One call leaves the state `Scrolled` gives; it reports false exactly when the element has height 0 |
| SliderElement.Register | slider-element.js:34-66 | A marked element is left alone; otherwise it is marked, its style saved, the settings merged, `scrolling` run once and the listener attached |
| Parallax.Merged | parallax.js:46 | No settings give the defaults; otherwise the caller's properties override the defaults one by one and the rest keep their defaults |
| Parallax.EmptyIsDefault | parallax.js:46 | An empty settings object gives the same settings as none |
| Parallax.ToNumber | parallax.js:267 | A number converts to itself and `undefined` to NaN |
| Parallax.NormalizedSpeed | parallax.js:266-283 | The divisor lies in [1, 15]; NaN gives 8; speeds of 15 or more give 1, of 1 or less give 15, others `16 - speed` |
| Parallax.DefaultSpeed | parallax.js:126-134 | The default speed 13 becomes the divisor 3 |
| Parallax.NullIsSlowest | parallax.js:267-278 | A `null` speed counts as 0 and gives 15; `undefined` gives 8 |
| Parallax.Antitone | parallax.js:270-282 | A larger requested speed never gives a larger divisor |
| Parallax.NormalizeTwice | parallax.js:270-282 | Within [1, 15] normalising twice gives back the requested speed |
| Parallax.WholeSpeed | parallax.js:280-281 | Within [1, 15] the divisor is a whole number exactly when the requested speed is |
| Parallax.WithSpeed | parallax.js:266-283 | Only the speed property changes, to the normalised divisor |
| Parallax.SettingsObject.SetSpeed | parallax.js:266-283 | The object's speed becomes the normalised divisor in place, nothing else changes, and the same object is returned |
| Parallax.Init | parallax.js:39-54 | Nothing happens when the element already has the effect or the page has a scroll handler; otherwise the settings are merged, the element is marked when the effect is on the background, and the speed is normalised |
| Parallax.DefaultInit | parallax.js:46-54 | With no settings the effect goes on the background and the divisor is 3 |

## Findings

| source | as written | input that shows it | evidently intended | confidence | as-written member | corrected member |
|---|---|---|---|---|---|---|
| color.js:552-560 | The default export copies `contrast`, `toHEX`, `toHSL`, `toHSLA`, `toRGB`, `toRGBA` and `type` but not `_hue2rgb`, so `this._hue2rgb` (color.js:142, 240) is not a function when called through it | `toRGB("hsl(120,100%,50%)")` through the default export throws a TypeError | The HSL conversion gives an RGB colour, as calling the method on `MoColors` does | not executed | ColorExport.ExportedThrows | ColorLaws.ChromaticIsRgb |

## Left out

- Console output (`console.error`, `console.warn`) is not modelled; it has no effect on results.
- Color.ToRGB: models the method called on `MoColors` itself. Through the default export an HSL colour with saturation throws instead (`ColorExport.ExportedToRGB`, "## Findings").
- Color.ToRGBA: models the method called on `MoColors` itself. Through the default export an HSL/HSLA colour with saturation throws instead (`ColorExport.ExportedToRGBA`).
- Color.ToHSL: models the method called on `MoColors` itself. Through the default export an HSLA colour with saturation throws instead (`ColorExport.ExportedToHSL`).
- Color.ToHSLA: models the method called on `MoColors` itself. Through the default export an HSL colour with saturation throws instead (`ColorExport.ExportedToHSLA`).
- Color.ToHEX: models the method called on `MoColors` itself. Through the default export an HSL/HSLA colour with saturation throws instead (`ColorExport.ExportedToHEX`).
- Color.Contrast: models the method called on `MoColors` itself. Through the default export an HSL/HSLA colour with saturation throws instead (`ColorExport.ExportedContrast`).
- ColorLaws.ChromaticIsRgb: holds for the method called on `MoColors`. Through the default export the same input throws (`ColorExport.ExportedThrows`).
- ColorExport: the TypeError is reduced to the failure `Thrown`; its message is not modelled.
- Color.Trans: `trans` is omitted, a string or a number. `null`, `false` and objects, which `!trans` and string concatenation also accept, are not modelled.
- ColorLaws.RgbaAgreesWithRgb: requires an alpha text without `,`, `(`, `)` or a space. Such characters would change how the fields of the `toRGBA` text split, and the lemma does not cover that case.
- Colour numbers are exact reals, not IEEE-754 doubles. `Math.round` is exact at `.5`, and a non-whole channel (`l * 255`, always a whole number of hundredths) prints as its exact decimal.
- The colour functions take strings only. The `toString` conversion of other inputs is not modelled.
- Text.ParseInt: models `parseInt` only on text that starts with a digit or holds no leading number. That is all color.js passes it once a pattern has matched. Leading spaces, signs and other radixes are not modelled.
- Sortable.MoSortable.DragStart: where no element of the chain carries `draggable`, the browser throws while reading past the root. The model returns `false` and records nothing.
- Sortable.MoSortable.DragOver: a target or dragged element that is not a direct child of the container changes nothing. The browser would move a node between parents or throw.
- Sortable: `dataTransfer`, `preventDefault`, and adding or removing listeners are reduced to two booleans. `listening` covers `dragstart`, `dragover` and `drop`. `watching` covers the document's `DOMNodeInserted` and `DOMNodeRemoved` listeners.
- Sortable: `_unlistener` is not modelled; it detaches the listeners in a `setTimeout` once the container has left the document. It depends on timers and the document tree.
- Sortable: elements are values with an identity and a tag name. An empty tag name never occurs in the DOM, so `!tagNames` is read as "no tag name yet".
- SliderElement: lengths are whole pixels. The fractional values that `scrollY` and `getBoundingClientRect` can return are not modelled, and neither is the truncation `parseInt` applies to computed `px` values.
- SliderElement.GetTop: reads the inline `top` when there is one and otherwise takes `sheetTop` from the `View`. It does not model `!important` style-sheet rules, which would beat the inline value.
- SliderElement: the CSS text of the saved `style` attribute is not parsed. A style is its position, top, width and the rest as an opaque text.
- SliderElement: the `View` is one snapshot per `scrolling` call. The second `condition` check (slider-element.js:234) reads the container's height again after the call's own style writes; the model takes that height to be unchanged by them.
- SliderElement: `init`'s default `mainSlider = window` and the choice between `window.scrollY` and `scrollTop` reduce to the one number `View.scrollTop`.
- SliderElement: settings values are numbers or `null`. Other JavaScript values a caller might pass, and the `NaN` that `undefined` produces in arithmetic, are not modelled.
- Parallax.ToNumber: a string converts only when it is empty or made of decimal digits. Whitespace, signs, decimals, exponents and hexadecimal strings, which JavaScript also converts, count as `NaN` here.
- Parallax.Init: stops after `_setSpeed`. `_setRealTop`, `_prepareBackground` (image loading and a Promise) and `_register` (listeners and `requestAnimationFrame`) are geometry and browser timing, and are not modelled. Neither are `_animate`, `_getRealTop` and `_scrolling`.
- Parallax.Value: a setting is a number, a string, `null` or `undefined`. Booleans, objects, `NaN` and infinite speeds are not modelled (in the source `true` gives the divisor 15 and `NaN` gives 8).
- Parallax: `init` with a falsy non-object `settings` (`false`, `0`, `""`) is modelled as `None`, like `null`.
- animate.js, fade.js, slide.js, scroll.js, text-areaadjust.js, index.js and types/ are not part of this model. They are timer-driven style writes, re-exports and type declarations.
