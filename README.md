# Portfolio page script: a Dafny model

This project models the logic in the client-side script of a static personal portfolio page. That
logic can be separated from the browser. The model covers:

- the contact form's three validators, its e-mail pattern, the live validation on `blur` and
  `input`, and the gate in the submit handler;
- the colour theme and its copy in local storage;
- the mobile menu's `active` flags and the body's `overflow` style;
- the scroll handler that marks the navigation link of the current section;
- the statistics counters: the target read from the text, the one-shot `counted` guard, and the
  text each animation tick writes;
- the Konami-code key buffer;
- the copyright-year fix-up.

There is one module per modelled part of `script.js`. They share two modules: `Optional`, and
`JsText`, which models the JavaScript string behaviour the script relies on:

- `trim()` and the regular-expression class `\s`: one white-space class, ECMAScript WhiteSpace
  plus LineTerminator;
- `.length`, counted in UTF-16 code units;
- `replace(/\D/g, '')` followed by `parseInt`;
- integer-to-text conversion;
- `join('')`;
- first-occurrence `replace`.

Code that changes state in place is modelled as classes with `modifies` clauses:

- the form fields, the form, the theme, the menu, the counters and the key buffer;
- the navigation links, as an `array<bool>` of `active` flags rewritten by a nested loop.

The validators, the e-mail predicate, the theme flip and the digit extraction are functions.

Three behaviours of the script are easy to misread; the model follows the code:

- A counter whose text has no digits is not skipped. `parseInt` gives `NaN`, and every tick
  then writes `"NaN"` plus the suffix and never stops the interval.
  `Counter.DigitFreeTextShowsNaN` states this.
- The counter's text is read at the moment it first scrolls into view, not at page setup.
- The theme is not limited to `dark` and `light`. A saved value of any other text is applied
  as it is. `Theme.ToggleTwiceFromOtherIsLight` shows that two clicks switch such a value
  away rather than restoring it.

## Model

| member | source | states |
|---|---|---|
| `JsText.Trim` | script.js:261 | `trim()`: the result is a slice of the input with only white space cut from either end; a non-empty result starts and ends with a non-space; text with no white space is returned unchanged |
| `JsText.TrimEmptyIffAllWhitespace` | script.js:261 | trimming yields the empty string exactly when every character is white space |
| `JsText.Utf16Length` | script.js:262 | `.length` counts UTF-16 code units: between one and two per character |
| `JsText.Utf16LengthIsCharCount` | script.js:262 | `.length` equals the number of characters exactly when every character lies in the Basic Multilingual Plane, so for such text the 2- and 10-character minimums are counts of characters |
| `JsText.Utf16LengthConcat` | script.js:262 | `.length` of a concatenation is the sum of the lengths |
| `JsText.DigitsOf` | script.js:415 | `replace(/\D/g, '')` keeps only decimal digits; the result is empty exactly when the text has none |
| `JsText.DigitsOfConcat` | script.js:415 | filtering digits distributes over concatenation |
| `JsText.ParseDigitsIgnoresLeadingZero` | script.js:415 | `parseInt` of a non-empty digit string is unchanged by a leading zero |
| `JsText.ParseDigitsOfNatToString` | script.js:415 | `parseInt` of the decimal text of a number gives back the number |
| `JsText.NatToString` | script.js:399 | the text of a non-negative number is a non-empty digit string with no leading zero, and 0 is written as the single digit "0" |
| `JsText.IntToString` | script.js:402 | the text of an integer never contains `%` or `+` and is the plain numeral when non-negative |
| `JsText.DecimalValueOfNatToString` | script.js:399 | reading back the decimal text of a number gives the number |
| `JsText.IndexOf` | script.js:558-559 | the first position of the pattern, and None exactly when the pattern does not occur |
| `ContactForm.EmailPattern` | script.js:232 | `emailPattern.test(value)`, decided directly; its meaning is fixed by `EmailPatternIsRegex`, which proves it accepts exactly the strings the regular expression accepts |
| `ContactForm.EmailPatternIsRegex` | script.js:232 | the direct predicate and the regular expression `^[^\s@]+@[^\s@]+\.[^\s@]+$`, read as three runs joined by `@` and `.`, accept the same strings |
| `ContactForm.EmailPatternFromRegex` | script.js:232 | every concatenation local@domain.tld of non-empty runs without white space or `@` passes the predicate |
| `ContactForm.RegexFromEmailPattern` | script.js:232 | every string that passes the predicate splits into such three runs |
| `ContactForm.ValidateName` | script.js:260-264 | empty result exactly when the trimmed value has at least 2 code units; "Name is required" exactly when it is empty; the too-short text otherwise |
| `ContactForm.ValidateEmail` | script.js:266-270 | empty result exactly when the untrimmed value matches the pattern; "Email is required" exactly when the trimmed value is empty; "Please enter a valid email" otherwise |
| `ContactForm.ValidateMessage` | script.js:272-276 | empty result exactly when the trimmed value has at least 10 code units; "Message is required" exactly when it is empty; the too-short text otherwise |
| `ContactForm.Validate` | script.js:279-281 | each input is wired to its own validator: the name and message are accepted exactly when their trimmed text reaches 2 and 10 code units, the e-mail exactly when it matches the pattern, and an empty value gets a "required" message |
| `ContactForm.PaddedEmailIsInvalid` | script.js:266-270 | an address with white space at either end but a non-empty trim is rejected as invalid, not as missing |
| `ContactForm.AstralCharacterIsLongEnoughName` | script.js:260-264 | a single character outside the Basic Multilingual Plane passes the two-character name minimum |
| `ContactForm.ShortInputsAreAllRejected` | script.js:288-301 | a too-short name, an empty e-mail and a too-short message each get a non-empty error |
| `ContactForm.WellFormedInputsAreAccepted` | script.js:288-302 | a long-enough name and message with an address local@domain.tld pass all three validators |
| `ContactForm.Field.Blur` | script.js:236-245 | the error text becomes the validator's result; the border is red exactly when that result is non-empty, else the accent colour |
| `ContactForm.Field.Input` | script.js:247-256 | with no error shown nothing changes; otherwise the error is re-validated, the border turns to the accent colour when it clears and is left unchanged while it persists; a field whose shown error came with the red border keeps that property |
| `ContactForm.Form.Submit` | script.js:284-302 | all three error texts are written; the request is sent exactly when all three are empty; only fields with an error get the red border, others keep theirs; afterwards every shown error comes with the red border |
| `Theme.InitialTheme` | script.js:9 | the saved value when present and non-empty, else `dark` |
| `Theme.Toggled` | script.js:14-15 | the result is `dark` or `light`, and `light` exactly when the current theme is `dark` |
| `Theme.ToggleTwiceRestores` | script.js:14-18 | two clicks restore `dark` and `light` |
| `Theme.ToggleTwiceFromOtherIsLight` | script.js:14-15 | from any other value two clicks give `light`, not the original value |
| `Theme.ThemeState.constructor` | script.js:9-10 | the attribute is the initial theme; it is already persisted exactly when a non-empty value was saved |
| `Theme.ThemeState.Toggle` | script.js:13-18 | the attribute flips, local storage holds the new value under `theme`, nothing else in storage changes |
| `MobileMenu.Menu.Toggle` | script.js:34-38 | both `active` flags flip; the overflow follows the menu's new flag; the button and menu stay in step |
| `MobileMenu.Menu.Close` | script.js:41-47 | both flags are cleared and the overflow is reset |
| `NavLinks.LastCovering` | script.js:83-96 | the index of the last section whose extent holds the probe line, and None exactly when no section holds it |
| `NavLinks.LastCoveringIsUnique` | script.js:83-96 | any section that is the last to cover the probe line is the one the search returns |
| `NavLinks.LastCoveringStep` | script.js:83-88 | taking one more section into account, that section wins exactly when it covers the probe line |
| `NavLinks.MarkSection` | script.js:89-94 | afterwards exactly the links whose `href` is `#` plus the id are active |
| `NavLinks.UpdateActiveNavLink` | script.js:80-97 | when no section covers scrollY+100 every flag is unchanged; otherwise a link is active exactly when its `href` is `#` plus the id of the last covering section |
| `Counter.ExtractTarget` | script.js:414-415 | the target is None (`NaN`) exactly when the text has no digit, else the decimal value of its digits in order |
| `Counter.ExtractTargetOfNumeral` | script.js:414-415 | a numeral followed by digit-free text, such as "150+", yields the numeral's value |
| `Counter.Suffix` | script.js:399-402 | `includes('%') ? '%' : '+'`; `SuffixIsStable` and `SuffixStableAcrossTicks` prove a tick never changes it |
| `Counter.Stops` | script.js:398-400 | the interval is cleared exactly on a tick whose running value reaches a numeric target; `ReachingTickShowsTarget`, `EarlyTickStaysBelowTarget` and `DigitFreeTextShowsNaN` state both sides, including the `NaN` target that never stops |
| `Counter.TickNumber` | script.js:398-402 | the number a tick writes is non-empty and never contains `%` or `+` |
| `Counter.TickText` | script.js:398-402 | the text a tick writes ends with the suffix chosen from the old text, so choosing the suffix again from it gives the same one |
| `Counter.RunTicks` | script.js:395-404 | the text after the interval fires with the given running values up to the first that stops it; `Animate` proves the loop of `Tick` calls computes it, and `RunLandsOnTarget` and `SuffixStableAcrossTicks` state its result |
| `Counter.SuffixIsStable` | script.js:399-402 | the suffix chosen from a tick's new text equals the one chosen from the old text |
| `Counter.ReachingTickShowsTarget` | script.js:398-400 | a tick whose running value reaches the target shows exactly the target plus the suffix, and stops |
| `Counter.EarlyTickStaysBelowTarget` | script.js:401-402 | a tick short of the target shows a non-negative whole number below the target, no larger than later ticks show, and does not stop |
| `Counter.DigitFreeTextShowsNaN` | script.js:402-415 | a text without digits has no target; every tick then writes `NaN` plus the suffix and never stops |
| `Counter.SuffixStableAcrossTicks` | script.js:395-404 | over any run of ticks the suffix stays the one chosen from the initial text |
| `Counter.RunLandsOnTarget` | script.js:395-404 | once some running value reaches the target, the run ends showing the target plus the initial suffix |
| `Counter.OneHundredFiftyPlus` | script.js:398-416 | the stat "150+" has target 150 and ends showing "150+" |
| `Counter.StatCounter.Intersect` | script.js:411-418 | the first intersecting entry marks the counter, reads the target from its current text and starts ticking; any later call changes nothing |
| `Counter.Animate` | script.js:395-404 | firing the interval once per running value leaves the text the run `RunTicks` computes, keeps the target, and the counter is still running exactly when no running value reached the target |
| `Counter.StatCounter.Tick` | script.js:395-404 | a running tick writes the tick text and stops exactly when the target is reached; a stopped counter is left alone |
| `Konami.LastKeys` | script.js:518 | `slice(-10)` keeps the last ten keys, or all of them when fewer, in order |
| `Konami.SlidingWindow` | script.js:517-518 | cutting the buffer back after every key keeps the last ten keys of the whole history |
| `Konami.BufferIsCode` | script.js:518-520 | the buffer equals the code exactly when the last ten keys pressed are the code |
| `JsText.Join` | script.js:520 | `join('')`: the parts concatenated in order; `Konami.JoinConcat` and `Konami.MergingKeysKeepsJoin` state what the comparison sees |
| `Konami.JoinConcat` | script.js:520 | `join('')` of a concatenation is the concatenation of the joins |
| `Konami.MergingKeysKeepsJoin` | script.js:520 | two adjacent keys and one key spelling both give the same joined text |
| `Konami.JoinedComparisonIsCoarser` | script.js:520 | ten strings other than the code join to the code's text |
| `Konami.KonamiListener.KeyDown` | script.js:516-520 | the buffer is the last ten keys of all keys pressed; it fires exactly when the joined buffer equals the joined code, and always when the last ten keys are the code |
| `Copyright.FixCopyright` | script.js:557-560 | text without "2025" is unchanged; otherwise only the first "2025" is replaced by the year |
| `Copyright.SameYearKeepsText` | script.js:558-559 | in the year 2025 the text is unchanged |
| `Copyright.YearReplacesFirstPlaceholder` | script.js:559 | the text before the first "2025" is kept and the year stands at its position |

## Left out

- The scroll-reveal, skill-bar and lazy-image observers are left out. So are `unobserve` and the
  100 ms bounding-rect sweep (script.js:140-216, 451-468). They are browser callbacks that only
  set a class or an attribute. The counters' observer appears only as calls to `Intersect`.
- Timers are left out (script.js:22-24, 395-404, 432-445): `setTimeout`, `setInterval`,
  `clearInterval` and `debounce`. Each interval firing is a call of `Counter.StatCounter.Tick`.
- Counter.StatCounter.Tick: the running value `current` is a parameter, because the floating-point
  increment `target / (duration / 16)` is not modelled (script.js:392-396). The model does not
  prove that ticks land on the target. It proves what a tick shows for a given running value.
- Counter.ExtractTarget: the target is an unbounded natural. JavaScript numbers lose precision
  above 2^53 and print in exponent form from 10^21.
- The `fetch` POST is left out (script.js:304-356), along with the loading state, the banners and
  the form reset after success. This is network I/O. `Form.Submit` returns whether the request
  would be sent.
- Typed.js, `console.log`, smooth scrolling, `scrollTo`, `scrollIntoView` and Ctrl+S are left out.
  So are the navbar shadow, the back-to-top button, the page loader, keyboard-navigation and print
  classes, and the FOUC opacity. These are foreign libraries or styling (script.js:49-71,
  101-134, 360-384, 470-507, 562-600).
- Konami.KonamiListener.KeyDown: only whether the effect fires is modelled. The rainbow animation,
  the inserted style element and its 5-second removal (script.js:522-536) are not.
- `isInViewport` (script.js:545-553) is unused and works on floating-point rectangles.
- `NavLinks.UpdateActiveNavLink` has these limits:
  - `scrollY` and the section offsets are integers, but a browser can report a fractional
    `scrollY`;
  - a link's `href` is a string, and a missing attribute (`null`) is not modelled; such a link
    simply never matches.
- Strings are sequences of Unicode scalar values, so lone UTF-16 surrogates cannot be written.
  `.length` is still counted in UTF-16 code units.
- Input values are parameters of the event methods. The browser updates them when the user types.
