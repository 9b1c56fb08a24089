# WishMaker colour model

A Dafny model of the colour logic of the WishMaker screen
(`WishMakerViewController.swift`). The screen lets the user paint its
background with three RGB sliders, a random colour, or a typed hex code,
and it can hide the slider panel. The model has two parts.

- `Hex` (hex.dfy) is the hex decoder `UIColor.init?(hex:)`. It trims
  whitespace, upper-cases the text and drops one leading `#`. It then needs
  exactly six characters and reads them as an unsigned base-16 number.
  Bits 16-23, 8-15 and 0-7 of that number are red, green and blue, each
  divided by 255. The model has pure functions for each step (`Trim`,
  `Upper`, `StripHash`, `ParseHex`, `Split`, `Normalised`), composed as
  `Decode` (the bytes) and `ColorFromHex` (the colour). `None` stands for
  the initialiser's `nil`. Channels are exact `real`s. `Format` writes a
  byte triple as six upper-case hex digits, the form of the `#FF00FF` input
  hint; it is the decoder's partner in the round-trip lemmas.
- `HexProperties` (hex_properties.dfy) proves what the decoder promises:
  - exactly when it succeeds;
  - what the bytes are;
  - that letter case does not matter;
  - that one `#` is optional and a second one is refused;
  - that decoding and `Format` are inverse to each other.
- `Controller` (controller.dfy) is the class `WishMakerViewController`.
  Its fields are:
  - the stored channels `red`, `green`, `blue`;
  - `background`, for `view.backgroundColor`;
  - `slidersHidden`, for `slidersStack.isHidden`.

  There is one method per event: a slider move, the random-colour button,
  the hide/show button, and the OK button of the hex alert. Each method
  states its whole new state.

Two points about the code shape the model. The initialiser has one way
to fail, `nil`, so `Decode` returns an `Option`; `WrongLengthFails` and
`NonDigitFails` state the two ways to fail (a prepared text of the wrong
length, a character that is not a hex digit). Nothing in the code clamps
or rejects a channel value; the slider closures store whatever they get.
So `SliderValueChanged` stores any value, and it keeps `Valid()` (all
channels in the slider range) only for a value inside that range.

## Model

| member | source | states |
|---|---|---|
| `Hex.TrimStart` | dazagoruikoPW2/WishMakerViewController.swift:210 | the result is a suffix of the input, everything cut off is whitespace, and it does not start with whitespace |
| `Hex.TrimEnd` | dazagoruikoPW2/WishMakerViewController.swift:210 | the result is a prefix of the input, everything cut off is whitespace, and it does not end with whitespace |
| `Hex.Trim` | dazagoruikoPW2/WishMakerViewController.swift:210 | the trimmed text is the middle slice of the input left once the leading whitespace is cut; everything cut off at either end is whitespace; the slice neither starts nor ends with whitespace |
| `Hex.Upper` | dazagoruikoPW2/WishMakerViewController.swift:210 | upper-casing keeps the length, turns each lower-case letter into its upper-case letter, leaves no lower-case letter and changes nothing else |
| `Hex.StripHash` | dazagoruikoPW2/WishMakerViewController.swift:211 | a text starting with `#` loses exactly that one `#`; any other text is kept as it is |
| `Hex.Prepared` | dazagoruikoPW2/WishMakerViewController.swift:210-211 | the text the guard inspects has no lower-case letter and is the trimmed, upper-cased input, less its leading `#` when it has one |
| `Hex.ParseHex` | dazagoruikoPW2/WishMakerViewController.swift:213 | a parse succeeds exactly on a non-empty string of hex digits whose value is below 2^64, and then returns that base-16 value (below 16^n); so every string of 1 to 16 hex digits parses, and a non-digit anywhere makes it fail |
| `Hex.Split` | dazagoruikoPW2/WishMakerViewController.swift:215-217 | a number below 2^24 is exactly red·2^16 + green·2^8 + blue of the three bytes taken from bits 16-23, 8-15 and 0-7 |
| `Hex.Decode` | dazagoruikoPW2/WishMakerViewController.swift:210-217 | on success the prepared text is six hex digits whose value is red·2^16 + green·2^8 + blue of the returned bytes |
| `Hex.HexValue` | dazagoruikoPW2/WishMakerViewController.swift:213 | the value of n hex digits is below 16^n |
| `Hex.Normalised` | dazagoruikoPW2/WishMakerViewController.swift:214-218 | each channel is its byte over 255 and so lies in [0, 1]; alpha is 1 |
| `Hex.ColorFromHex` | dazagoruikoPW2/WishMakerViewController.swift:209-220 | a decoded colour has every channel in [0, 1] and alpha 1 |
| `HexProperties.DecodeDependsOnPrepared` | dazagoruikoPW2/WishMakerViewController.swift:210-213 | two inputs that are the same after trimming, upper-casing and dropping one `#` decode alike |
| `HexProperties.DecodeSucceedsIff` | dazagoruikoPW2/WishMakerViewController.swift:210-213 | decoding succeeds if and only if the prepared text is exactly six hex digits |
| `HexProperties.WrongLengthFails` | dazagoruikoPW2/WishMakerViewController.swift:212 | a prepared text that is not six characters long is refused |
| `HexProperties.NonDigitFails` | dazagoruikoPW2/WishMakerViewController.swift:213 | six characters with a non-hex character among them are refused |
| `HexProperties.DecodeBytes` | dazagoruikoPW2/WishMakerViewController.swift:213-217 | on success, the parsed number is red·2^16 + green·2^8 + blue, so the bytes are bits 16-23, 8-15 and 0-7 |
| `HexProperties.ColorFromHexChannels` | dazagoruikoPW2/WishMakerViewController.swift:214-218 | on success each channel is its byte over 255, in [0, 1], with alpha 1 |
| `HexProperties.PreparedCaseInsensitive` | dazagoruikoPW2/WishMakerViewController.swift:210 | upper- or lower-casing the input first leaves the prepared text unchanged |
| `HexProperties.CaseInsensitive` | dazagoruikoPW2/WishMakerViewController.swift:210 | an input and its upper- and lower-cased forms decode to the same bytes and colour |
| `HexProperties.PreparedAfterHash` | dazagoruikoPW2/WishMakerViewController.swift:210-211 | a `#` directly before a code that does not start with whitespace or `#` is removed by preparation |
| `HexProperties.HashOptional` | dazagoruikoPW2/WishMakerViewController.swift:211 | `#XXXXXX` and `XXXXXX` decode identically |
| `HexProperties.LeftoverHashFails` | dazagoruikoPW2/WishMakerViewController.swift:212-213 | a `#` still at the front after the one strip makes decoding fail |
| `HexProperties.OnlyOneHashStripped` | dazagoruikoPW2/WishMakerViewController.swift:211-213 | any text that starts with `##` is refused: only one `#` is dropped |
| `HexProperties.DecodeCanonical` | dazagoruikoPW2/WishMakerViewController.swift:210-217 | six upper-case digits, bare or behind one `#`, decode to the bytes of their value |
| `HexProperties.FormatThenDecode` | dazagoruikoPW2/WishMakerViewController.swift:209-220 | formatting (r, g, b) as six hex digits, with or without `#`, and decoding gives back (r, g, b) |
| `HexProperties.FormatThenColor` | dazagoruikoPW2/WishMakerViewController.swift:209-220 | the same round trip gives the colour (r/255, g/255, b/255, 1), with upper- or lower-case digits |
| `HexProperties.CanonicalIsFormat` | dazagoruikoPW2/WishMakerViewController.swift:213-217 | six upper-case hex digits are the formatting of the bytes they denote |
| `HexProperties.DecodeThenFormat` | dazagoruikoPW2/WishMakerViewController.swift:210-217 | whatever is accepted is, once prepared, exactly the formatting of the bytes returned |
| `HexProperties.DecodeInjective` | dazagoruikoPW2/WishMakerViewController.swift:210-217 | two inputs that decode to the same bytes are the same after preparation |
| `HexProperties.ExampleMagenta` | dazagoruikoPW2/WishMakerViewController.swift:155 | the input hint `#FF00FF` decodes to bytes (255, 0, 255) and colour (1, 0, 1, 1) |
| `HexProperties.ExampleGreen` | dazagoruikoPW2/WishMakerViewController.swift:209-220 | `00ff00` decodes to bytes (0, 255, 0) and colour (0, 1, 0, 1) |
| `HexProperties.ExampleDoubleHash` | dazagoruikoPW2/WishMakerViewController.swift:211-213 | `##ABCDE` is refused |
| `HexProperties.ExampleTooShort` | dazagoruikoPW2/WishMakerViewController.swift:212 | `12345` is refused |
| `HexProperties.ExampleNotHex` | dazagoruikoPW2/WishMakerViewController.swift:213 | `ZZZZZZ` is refused |
| `Controller.WishMakerViewController.Valid` | dazagoruikoPW2/WishMakerViewController.swift:12-13 | the slider range [`sliderMin`, `sliderMax`] is the unit interval, so valid channels are exactly channels in [0, 1] |
| `Controller.WishMakerViewController.CurrentColor` | dazagoruikoPW2/WishMakerViewController.swift:139 | the colour built from the stored channels carries them unchanged with alpha 1, and valid channels give a colour in [0, 1] |
| `Controller.WishMakerViewController.constructor` | dazagoruikoPW2/WishMakerViewController.swift:19-35 | the channels start at 1 (white), the background at `.systemPink`, the sliders shown, all channels in the slider range |
| `Controller.WishMakerViewController.UpdateBackgroundColor` | dazagoruikoPW2/WishMakerViewController.swift:138-140 | the background becomes (red, green, blue, 1); nothing else changes |
| `Controller.WishMakerViewController.SliderValueChanged` | dazagoruikoPW2/WishMakerViewController.swift:90-104 | the moved channel takes the value and the other two keep theirs; the background becomes the new triple with alpha 1; visibility is unchanged; a value in the slider range keeps all channels in range |
| `Controller.WishMakerViewController.ToggleSliders` | dazagoruikoPW2/WishMakerViewController.swift:142-144 | visibility flips; channels and background are unchanged |
| `Controller.WishMakerViewController.ApplyRandomColor` | dazagoruikoPW2/WishMakerViewController.swift:146-151 | the three draws in [0, 1] become the channels, so all channels lie in the slider range; the background is the new triple with alpha 1; visibility is unchanged |
| `Controller.WishMakerViewController.HexEntered` | dazagoruikoPW2/WishMakerViewController.swift:156-160 | an accepted text sets the background to its colour; a missing or refused text changes nothing; the channels and visibility never change |
| `Controller.SlidersScenario` | dazagoruikoPW2/WishMakerViewController.swift:90-104 | sliders moved to 0.5, 0.25 and 1 show the colour (0.5, 0.25, 1, 1) |
| `Controller.ToggleTwice` | dazagoruikoPW2/WishMakerViewController.swift:142-144 | toggling twice restores the visibility and changes nothing else |
| `Controller.HexThenSlider` | dazagoruikoPW2/WishMakerViewController.swift:156-160 | a hex colour is shown but not stored: after the next slider move, the background is built from the stored channels again |

## Left out

- View construction, Auto Layout constraints, fonts, button styling and the layout of `CustomSlider` are presentation only. So are the layout numbers in both `Constants` enums; only `sliderMin` and `sliderMax` are kept, as `SliderMin` and `SliderMax`.
- Presenting the alert and reading its text field are left out. The text reaches `HexEntered` as an `Option<string>`.
- The `[weak self]` captures are left out. The model assumes the controller is still alive when a handler runs.
- `CGFloat` and `Float` arithmetic is replaced by exact `real`s. The model does not cover rounding in the slider's `Float` value, in its conversion to `Double` and `CGFloat`, or in the division by 255.
- The random number source is left out. `ApplyRandomColor` takes the three draws as parameters in [0, 1], the range of `CGFloat.random(in: 0...1)`. Their distribution is not modelled.
- `.systemPink` is a colour UIKit adapts to the display mode, so its components are not modelled. It is the `SystemPink` case of `Background`.
- The model does not clamp slider values; UIKit's slider does that. `SliderValueChanged` accepts any number, and `Valid()` is kept only for values in the slider range.
- `Upper` and `Lower` change only ASCII letters. Swift's `uppercased()` applies full Unicode case mapping, which can change the length: U+FB00 (the "ff" ligature) becomes `FF`. The model refuses such input where Swift may accept it.
- `count` and `hasPrefix` count grapheme clusters in Swift, but characters in the model. The counts may differ (combining marks, `"\r\n"`, emoji sequences and flag pairs are single clusters in Swift), but the outcome never does: the only text either side accepts is six ASCII characters.
- `ParseHex` accepts only digits. Swift's `UInt64(_:radix:)` also accepts a leading `+`, and a leading `-` when every digit after it is 0. So `+12345` passes the six-character guard in Swift, giving (1, 35, 69) over 255, and `-00000` gives black (0, 0, 0); the model refuses both.
- `IsWhitespace` follows the documented members of `whitespacesAndNewlines` (the Unicode space separators, U+0009 to U+000D, U+0085, U+2028, U+2029). Foundation's own implementation is not part of this model; if it trims further characters (such as U+200B), the model keeps them, and those inputs are then refused.
