# The mingled UnoCSS preset, modelled in Dafny

The `mingled` preset turns short utility class names into CSS declarations:
`m:8|16` becomes `margin: 0.5rem 1rem`, `flex-col:between` a column
container with `justify-content: space-between`, `r:4|8` a `border-radius` shorthand, `c:red/50` a `color-mix` with
transparent. It has three parts, all in `index.js`:

- seven value decoders (`pxToRem`, `handleColor`, `handleSpacing`,
  `handleFontWeight`, `handleFlex`, `handleBorder`, `parseSidelength`);
- an ordered table of 78 rules, each a regular expression anchored at both
  ends plus a handler from the capture groups to a declaration object;
- three variants that strip a suffix from a class name before the rules see
  it and change the CSS that is produced: a pseudo class (`:hover`), an
  `!important` marker (`!`) and a breakpoint (`@md`).

The model is split into modules that follow that structure:

| file | module | contents |
|---|---|---|
| options.dfy | Options | `Option` |
| jsstring.dfy | JsString | `undefined`/`null`/string parts, truthiness, character classes, `split`/`join`, printing a natural number |
| jsnumber.dfy | JsNumber | `isNaN`/`Number` on decimal literals, `${x}` of an exact decimal, `x / 16`, `parseInt` |
| style.dfy | Style | declaration objects as ordered key/value lists; property assignment and object literals |
| decoders.dfy | Decoders | the seven decoders; `handleFlex` as an imperative method |
| rules.dfy | Rules | capture classes, token shapes, handlers, the rule table and first-match resolution |
| resolution.dfy | Resolution | first-match semantics, well-formedness of every result, and which rules a token's first two characters can reach |
| tokens.dfy | Tokens | what concrete families of tokens resolve to |
| variants.dfy | Variants | the three variants; the pseudo-class variant as an imperative loop |
| pipeline.dfy | Pipeline | a rule and a variant together: `fw:bold` and `fw:bold!` |

A regular expression is modelled by what it accepts and captures, one shape
per rule family: a fixed keyword, a prefix followed by one capture of a
character class (`.+`, `\d+`, `\w+`, …), or a dedicated shape for the rules
with several groups (flex, radius, shadow, abs, fixed, translate, stroke).
An optional group that the engine leaves unset is `Undefined`, which is what
the handlers test with their truthiness checks.

Numbers are exact decimals. `a / 16` is exact (1/16 = 0.0625), and `${x}`
prints the shortest exact decimal. This matches JavaScript for every value
the preset can produce in practice: at most a dozen significant digits, and
no exponent notation.

## Model

| member | source | states |
|---|---|---|
| Decoders.PxToRem | index.js:3-8 | a value that is not numeric comes back unchanged |
| Decoders.PxToRemIsSixteenth | index.js:3-8 | for a numeric value the result ends in `rem` and the number in front of it is exactly the value divided by 16, with the same sign |
| Decoders.PxToRemIdempotent | index.js:3-8 | converting twice gives the same as converting once, since a `rem` text is no longer numeric |
| JsNumber.Over16 | index.js:7 | the quotient times 16 is the value exactly, keeps its sign and is zero only for zero |
| JsNumber.NumberTextRoundTrip | index.js:7 | reading the printed text of a number back as a number gives the same value |
| JsNumber.NumericChars | index.js:4 | a string that passes the `isNaN` test holds nothing but digits, signs and points |
| JsNumber.ParseIntTextOfNumeral | index.js:13 | `parseInt` of a decimal numeral, followed by anything that does not continue it, prints that numeral again (`50.5` gives `50`) |
| Decoders.ColorOpacityMixesBase | index.js:10-19 | with a `/`, the result is a `color-mix` of what the base alone resolves to, at the `parseInt` of the opacity, with transparent |
| Decoders.ColorHead | index.js:20-23 | without a `/`, the result is not empty and starts with `#` exactly when the colour does |
| Decoders.ColorInjective | index.js:20-23 | without a `/`, two colours that resolve to the same text are the same colour |
| Decoders.SpacingOneItemPerSegment | index.js:26-29 | splitting the result at spaces gives one item per segment between bars, each the `pxToRem` of that segment with an empty one read as `0` |
| Decoders.SpacingIdempotent | index.js:26-29 | applying spacing twice gives the same as applying it once |
| Decoders.FontWeightAsWrittenPrints | index.js:31-44 | the decoder gives a number exactly for a table keyword, that number is one of 100, 200, … 900, any other word comes back as the same string, and printed the result is the string weight |
| Decoders.FontWeightIdempotent | index.js:31-44 | decoding the printed weight again gives the same string back, so the printed weight is a fixed point; a table keyword prints as the digits of its table weight (thin 100 … black 900) |
| Decoders.HandleFlex | index.js:46-92 | the method's object after its in-place assignments equals the as-written functional model |
| Decoders.FlexWithoutValue | index.js:46-52 | with no value the object is exactly display then direction: `inline` gives `inline-flex` and `col` gives `column` |
| Decoders.FlexNumeric | index.js:54-57 | a numeric value gives only `flex`, holding the value itself |
| Decoders.FlexKeywords | index.js:59-91 | as written, a non-numeric value gives distinct keys: display and direction first, then `justify-content` exactly when the justify part is in its table and `align-items` exactly when the align part is in its table, each holding the table's value; the `null` test never fires |
| Decoders.FlexKeywordsIntended | index.js:59-91 | with the lone-centre test on a missing align part, display and direction still come first with distinct keys, a lone `center` centres both axes, and otherwise the two table lookups decide |
| Decoders.FlexCenterAsWritten | index.js:86-89 | as written, `flex:center` sets `justify-content` but no `align-items` |
| Decoders.FlexCenterCentersBoth | index.js:86-89 | with the test on a missing align part, `flex:center` centres both axes |
| Decoders.BorderFields | index.js:94-100 | the border text splits back into the width with `px` (1 by default), the style (`solid` by default) and the resolved colour |
| Decoders.ParseSidelength | index.js:102-113 | `full`, `screen` and `fit` give `100%`, `100vh` and `fit-content`; a digit run gets `px`; anything else is kept |
| Decoders.SidelengthIdempotent | index.js:102-113 | a result is never a keyword or a digit run again, so it is a fixed point |
| Style.AssignLookup | index.js:78-89 | after `d[k] = v`, key k holds v and every other key holds what it held |
| Style.ObjectDistinct | index.js:50 | an object literal with distinct keys is exactly its fields in order |
| Rules.Match | index.js:128-382 | a prefixed shape matches only tokens that start with its prefix and whose rest is in the capture's class |
| Resolution.FirstMatchIsFirst | index.js:128-382 | a rule list yields d exactly when some rule matches, no earlier rule does, and d is that rule's handler applied to its groups |
| Resolution.FirstMatchNone | index.js:128-382 | a rule list yields nothing exactly when no rule in it matches |
| Resolution.ResolveIsFirstMatch | index.js:128-382 | the whole table yields d exactly when d comes from the first matching rule, and nothing exactly when no rule matches |
| Resolution.ApplyGood | index.js:128-382 | every handler builds a declaration with distinct keys, nested bodies included, whose only numbers are table weights under `font-weight`, and only the weight handler builds a number |
| Resolution.ResolveWellFormed | index.js:128-382 | every declaration a token resolves to holds each key once, nested bodies included, and its only numbers are table weights under `font-weight` |
| Resolution.UnknownLead | index.js:128-382 | a token whose first two characters begin no rule resolves to nothing |
| Tokens.OneApplied | index.js:130-137 | a single-group rule applied to its prefix and a value of its class gives the one property, holding the decoded value |
| Tokens.SizeToken | index.js:139-146 | `size:v` resolves to `width` then `height`, both `parseSidelength(v)` |
| Tokens.ColorToken | index.js:149 | `c:v` resolves to `color: handleColor(v)` |
| Tokens.MarginToken | index.js:153-159 | `m:v` resolves to `margin: handleSpacing(v)` |
| Tokens.PaddingToken | index.js:180-186 | `p:v` resolves to `padding: handleSpacing(v)` |
| Tokens.FontWeightToken | index.js:218 | `fw:w`, with w a word, resolves to `font-weight` holding the table's number when w is a weight keyword and the word itself otherwise |
| Tokens.FlexToken | index.js:235 | `flex`, `flex-col` or `flex-inline` followed by `:v` resolves to the as-written flex decoder's object for that direction and value |
| Tokens.FlexBareToken | index.js:235 | `flex`, `flex-col` and `flex-inline` alone resolve to display and direction only |
| Tokens.BorderToken | index.js:266 | `b:v` resolves to `border: handleBorder(v)` |
| Tokens.RadiusIsShorthand | index.js:272-285 | `r:` with one to four digit fields resolves to the four corners of the CSS shorthand: top-right and bottom-right default to top-left, bottom-left to top-right |
| Resolution.ResolveRadius | index.js:272-285 | every `r:` token is decided by the radius rule alone |
| Tokens.ShadowIsBoxShadow | index.js:301-307 | four signed numbers and a parenthesised colour resolve to one `box-shadow` of four pixel lengths and an `rgba` colour |
| Tokens.AbsoluteToken | index.js:320-333 | `abs:` with one to four fields without a bar resolves to `position: absolute` and the four sides: unset when empty or absent, kept with a `%`, pixels otherwise |
| Tokens.FixedToken | index.js:335-345 | `fixed:` with digit fields resolves to `position: fixed` and the four sides in pixels, unset when absent |
| Tokens.TranslateToken | index.js:353-362 | `translate:` with up to two amounts resolves to `translate(x, y)`, an absent axis being `0` and an amount without `%` getting `px` |
| Tokens.StrokeToken | index.js:364-371 | `stroke:` with a colour word and an optional digit width after a bar resolves to the stroke colour and a pixel width, unset when absent |
| Tokens.ScrollToken | index.js:373-381 | `scroll:hide` resolves to the nested `::-webkit-scrollbar` rule and the two `none` properties |
| Variants.PseudoVariant | index.js:385-396 | the loop's result is the first pseudo class in list order that the token ends with, or the token itself |
| Variants.PseudoStrips | index.js:385-396 | a rewrite names the first listed class the token ends with, and its matcher plus `:` plus the class is the token; otherwise no class matches and the token is kept |
| Variants.PseudoRoundTrip | index.js:385-396 | a base followed by `:` and a class, with no earlier class matching, is rewritten back to that base and class |
| Variants.HookRestoresSuffix | index.js:385-396 | when the variant rewrites a token, its hook appends to any selector exactly the suffix stripped from the token, so on the stripped token it gives the token back |
| Variants.ImportantVariant | index.js:398-401 | the variant applies exactly when the token ends in `!`, and then the matcher followed by `!` is the token |
| Variants.ImportantLookup | index.js:402-407 | marking a declaration keeps every key, and a key then holds its value with ` !important` added when it is a string, untouched otherwise |
| Variants.ImportantObject | index.js:407 | for an object body, rebuilding it from its entries gives the marked entries in the same order |
| Variants.ImportantWellFormed | index.js:406-407 | marking keeps a well-formed declaration well formed |
| Variants.BreakpointVariant | index.js:413-418 | a rewrite comes with one of `sm`, `md`, `lg`, `xl`, and its non-empty class name followed by `@` and the breakpoint is the token |
| Variants.BreakpointStrips | index.js:413-418 | a class name followed by `@` and a known breakpoint is rewritten back to that name and breakpoint |
| Variants.MediaHandle | index.js:419-425 | the handler leaves the rest of the input alone; without a parent the media query becomes the parent, and with one the parent becomes the old parent, ` $$ ` and the query |
| Variants.MediaChain | index.js:423 | two breakpoint handlers in a row join their queries with ` $$ ` |
| Variants.DefaultQueries | index.js:119-126 | the theme's breakpoints give `min-width` queries at 640, 768, 1024 and 1280 pixels |
| Pipeline.WeightLosesImportant | index.js:403-406 | as written, `fw:` and a weight keyword resolves to the table's number, `fw:` and the keyword and `!` is stripped to it, and the `!important` marking leaves its body unchanged |
| Pipeline.BoldToken | index.js:218 | `fw:bold` resolves to `font-weight` holding the number 700, which prints as `700` |
| Pipeline.BoldImportant | index.js:398-410 | with the weight decoded to text, `fw:bold!` is stripped to `fw:bold`, and its body becomes `700 !important` |

## Left out

- The UnoCSS host is not part of this model: how it calls the variants and rules, orders and combines variants, and turns declarations into CSS text. The model states what each variant and rule returns.
- `transformerVariantGroup` comes from the host library and is not modelled.
- Autocomplete strings are hints for the editor and do not change any output.
- Regular expressions are modelled per rule shape, not by a regular expression engine.
- JavaScript numbers are modelled as exact decimals. Four things follow from that. Exponent notation and `Infinity` are not modelled. Hexadecimal, binary and octal strings (`0x10`, `0b1`, `0o7`), which `isNaN` accepts, count as not numeric: `mx:0x10` gives `1rem` in JavaScript, the model keeps `0x10`. Whitespace around a number, which `isNaN` skips, is not modelled. The empty string, which `Number` reads as 0, counts as not numeric.
- `handleFontWeight` and `handleFlex` look their arguments up in plain objects (the weights, and `justifyOptions` and `alignOptions` at index.js:59-76), which also find inherited keys (`fw:constructor`, `flex:constructor`). The model's tables hold only their own keys.
- `Object.entries` lists integer-like keys first. No rule produces such a key, so object order is insertion order.
- Decoders.PxToRemIsSixteenth: states the value exactly, not JavaScript's floating-point result, because the model has no binary floating point.

## Findings

| source | as written | input that shows it | evidently intended | confidence | as-written member | corrected member |
|---|---|---|---|---|---|---|
| index.js:86 | `align === null`, but destructuring a `split` result gives `undefined` for a missing align part, never `null` | `flex:center` gives `justify-content: center` and no `align-items` | a lone `center` centres both axes | not executed | Decoders.FlexCenterAsWritten | Decoders.FlexCenterCentersBoth |
| index.js:43 | `handleFontWeight` returns the table's number, and the `!` variant only marks strings (index.js:403) | `fw:bold!` gives `font-weight: 700` without `!important` | the keyword's weight is marked like every other value | not executed | Pipeline.WeightLosesImportant | Pipeline.BoldImportant |

The rule table uses the decoders as written: `Decoders.FlexStylesAsWritten`
(computed in place by `Decoders.HandleFlex`) and `Decoders.FontWeightAsWritten`,
so `Rules.Resolve` is the program as written. The corrected decoders,
`Decoders.FlexStyles` with the test on a missing align part and
`Decoders.FontWeight`, which prints the weight as a string, serve only the
corrected members of the table above.
