# co-iro colour sampler, modelled in Dafny

co-iro is a small web page that samples a pixel colour from the screen through
the browser's EyeDropper API, shows it, and keeps a history of past samples.
This project models its two pieces of real logic.

- **Sampling state** (`app_state.dfy`, module `App`). There are three state
  cells: the support flag, the optional current colour, and the history, a
  newest-first list of `{id, color}` records capped at `MAX_HISTORY_LENGTH = 50`.
  `AppState` is a class with those three fields. Its methods are the
  transitions that change them:
  - `GetRes`: one capture.
  - `SelectTag`: clicking a history tag.
  - `ProbeSupport`: the start-up check for the API.

  What the EyeDropper hands back is an input datatype with three cases: no API,
  a rejected promise, or a picked `sRGBHex` string. The capture time
  `Date.now().toString()` is an input string. The `setHistory` updater is the
  method `HistoryUpdate`, which works on a local list as the source's `newH`
  does. The object invariant `Valid` says the history is within capacity and
  holds only non-empty, upper-cased colours. `TwoCaptures` is a small client:
  two picks into a fresh state leave `#00FF00` ahead of `#FF0000`.
- **Colour arithmetic** (`color_utils.dfy`, module `ColorUtils`).
  - `RGBToHSL` is modelled over reals. `Math.round` is `(x + 0.5).Floor`, and
    JavaScript's `%` is a remainder truncated toward zero (`TruncRem`). The hue
    is proved to lie in [0, 360), in the arc of the channel that wins the max
    test. Lightness and saturation are proved to lie in [0, 1] for channels in
    [0, 1]. The inverse HSL model of CSS Color Module Level 4, section 7, is
    proved to recover the largest and smallest channel from `s` and `l`.
  - `getRandomColor` takes its three `Math.random()` values as inputs. The
    output is proved to be `#` and six upper-case hex digits. Each digit pair is
    proved to denote the rounded channel, checked against an independent hex
    reader (`HexValue`).
- `strings.dfy` (module `Strings`) models `toUpperCase` on ASCII letters.

History ids are `Date.now()` strings, which can repeat. The model does not
claim they are unique. The code has no operation that removes a
single history entry or clears the history, so none is modelled.

## Model

| member | source | states |
|---|---|---|
| `Strings.UpperChar` | src/app.tsx:32 | a lower-case ASCII letter becomes its upper-case letter; every other character is kept; no lower-case letter comes out |
| `Strings.ToUpper` | src/app.tsx:32 | `toUpperCase` keeps the length, turns every lower-case letter into its capital and keeps every other character; no lower-case letter is left, and the result is empty exactly when the input is |
| `App.GetEyeDropper` | src/app.tsx:25-33 | no API gives `undefined`; a rejection is passed on; a pick resolves to the picked string upper-cased character by character |
| `App.Stores` | src/app.tsx:154 | a capture stores something exactly when `GetEyeDropper` resolves to a non-empty, so truthy, string |
| `App.HistoryUpdate` | src/app.tsx:156-168 | the new entry is first; the rest is a prefix of the old history; one entry is dropped exactly when the old length reaches 50; below 50 nothing is dropped or reordered; at 50 only the oldest goes and the length stays 50; a length of at most 50 stays at most 50 |
| `App.AppState.constructor` | src/state.ts:3-10 | the support flag starts true, the current colour absent, the history empty |
| `App.AppState.ProbeSupport` | src/app.tsx:94-98 | a missing API clears the support flag; the probe never sets it back to true |
| `App.AppState.SelectTag` | src/app.tsx:127-138 | clicking a tag makes its colour current and leaves the history alone; an empty tag colour renders no tag, so it changes nothing |
| `App.AppState.GetRes` | src/app.tsx:151-171 | keeps the invariant: history at most 50 long, with non-empty upper-case colours; a non-empty pick makes its upper-cased colour current and puts `{now, colour}` in front of the old history, capped at 50; no API, a rejection or an empty pick leaves the colour and the history unchanged |
| `ColorUtils.Abs` | src/utils.tsx:52 | `Math.abs`: never negative, and equal to the input or its negation |
| `ColorUtils.Min3` | src/utils.tsx:26 | the result is at most every channel and is one of them |
| `ColorUtils.Max3` | src/utils.tsx:27 | the result is at least every channel and is one of them |
| `ColorUtils.Delta` | src/utils.tsx:28 | `cMax - cMin` is never negative |
| `ColorUtils.Round` | src/utils.tsx:43 | `Math.round`: the nearest integer, with halves rounded up |
| `ColorUtils.TruncRemOfSmall` | src/utils.tsx:37 | JavaScript `% 6` (`TruncRem`, a remainder truncated toward zero) leaves a dividend in (-6, 6) unchanged |
| `ColorUtils.Sextant` | src/utils.tsx:35-41 | no difference gives 0; red max gives `(g - b) / delta`, in [-1, 1], so the `% 6` does nothing; green max (red not) gives a value in [1, 3]; blue max gives a value in [3, 5]; red is tested before green and green before blue |
| `ColorUtils.Hue` | src/utils.tsx:43-46 | the hue is a whole number of degrees in [0, 360) for every input; it is 0 for no difference, in [0, 60] or [300, 360) for red max, in [60, 180] for green max and in [180, 300] for blue max |
| `ColorUtils.Lightness` | src/utils.tsx:49 | lightness lies between the smallest and the largest channel |
| `ColorUtils.SatDenominator` | src/utils.tsx:52 | the divisor is at most 1, and for channels in [0, 1] at least delta, so it is non-zero whenever delta is |
| `ColorUtils.Saturation` | src/utils.tsx:52 | saturation is 0 exactly when delta is, and saturation times the divisor gives delta back |
| `ColorUtils.RGBToHSL` | src/utils.tsx:24-55 | the hue lies in [0, 360); lightness lies between the smallest and the largest channel; saturation is 0 exactly for grey input |
| `ColorUtils.GreyIsAchromatic` | src/utils.tsx:35-52 | for `r = g = b`, the result is `[0, 0, r]` |
| `ColorUtils.LightnessBounds` | src/utils.tsx:49 | lightness is the midpoint of the extreme channels and lies in [0, 1] for channels in [0, 1] |
| `ColorUtils.SaturationBounds` | src/utils.tsx:52 | for channels in [0, 1], the division is defined and the saturation lies in [0, 1] |
| `ColorUtils.HslRecoversExtremes` | src/utils.tsx:49-52 | the chroma `(1 - abs(2l - 1)) * s` equals delta, and `l` plus or minus half of it gives back the largest and the smallest channel |
| `ColorUtils.ChannelOf` | src/utils.tsx:59-61 | `Math.random() * 200 + 55` lies in [55, 255) for a value of `Math.random()` |
| `ColorUtils.RandomChannelBounds` | src/utils.tsx:59-61 | `Math.random() * 200 + 55` rounds to a whole number in [55, 255] |
| `ColorUtils.HexDigit` | src/utils.tsx:65 | a digit written by `toString(16)` is a hex digit |
| `ColorUtils.NumberToHex` | src/utils.tsx:65 | `toString(16)` writes hex digits with no leading zero: one digit below 16, at least two from 16 on, at most two below 256 |
| `ColorUtils.NumberToHexRoundTrip` | src/utils.tsx:65 | reading the digits of `toString(16)` back gives the number |
| `ColorUtils.ToUpperKeepsHexValue` | src/utils.tsx:65 | upper-casing hex digits keeps them hex digits with the same value |
| `ColorUtils.FormatChannel` | src/utils.tsx:65 | the `map` callback writes upper-case hex digits denoting `Math.round` of the channel, exactly two of them for a channel that rounds to 16..255 |
| `ColorUtils.GetRandomColor` | src/utils.tsx:57-67 | the output is 7 characters: `#` followed by six upper-case hex digits |
| `ColorUtils.RandomColorDenotesChannels` | src/utils.tsx:64-66 | each two-digit group of the output denotes `Math.round` of the channel at its position |

## Left out

- Browser I/O is not modelled: the EyeDropper call itself and the `alert` (src/app.tsx:25-33), and `copyText` with the clipboard (src/app.tsx:35-46, src/utils.tsx:11-22). Only the outcome handed back is modelled.
- The copy of `getEyeDropper` in src/utils.tsx:1-9 is identical to `GetEyeDropper` in src/app.tsx and is not modelled a second time.
- Non-determinism: the `Math.random()` values and `Date.now()` are parameters.
- The asynchronous wait in `getRes` is not modelled. The capture is one atomic step, and the two state updates are applied together.
- Rendering is not modelled: every component, its markup and the icons, plus src/main.tsx, src/logo.jsx, tailwind.config.js and the older prototype src/app.jsx.
- src/color-card.tsx is not part of this model. It renders through an external contrast library, and the Lab, CMYK and luminance conversions it imports are defined in no file of the repository. Its call that passes one array to the three-argument `RGBToHSL` is not modelled.
- Floating point: numbers are reals, so NaN, -0 and rounding error are not modelled.
- `ColorUtils.RGBToHSL` requires `SaturationDefined`: delta is zero, or the saturation divisor is not. Otherwise JavaScript gives `Infinity` or `NaN`. `SaturationBounds` shows that every input with channels in [0, 1] meets this.
- `Strings.ToUpper` upper-cases ASCII letters only, not the full Unicode mapping of `toUpperCase`. Hex colour strings are ASCII.
- `ColorUtils.NumberToHex` covers whole numbers from 0 up. The source calls it only on rounded channels in [55, 255].
- History ids are `Date.now()` strings and can repeat. The model makes no uniqueness claim.
