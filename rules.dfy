/**
 * The rule table of the preset: an ordered list of token shapes, each
 * anchored at both ends, with the handler that turns the captured groups
 * into a declaration. A token resolves to the declaration of the first rule
 * whose shape it has.
 *
 * Each regular expression of the source is written out as a literal prefix
 * followed by a check of the captured text against its character class;
 * the few shapes with several groups are parsed at their `|` separators.
 * A match yields the groups as JavaScript sees them, absent groups as
 * `undefined`.
 */
module Rules {
  import opened Options
  import opened JsString
  import opened JsNumber
  import opened Style
  import opened Decoders

  // ----- token shapes -----

  /** `\d+(?:\.\d+)?` */
  predicate DecimalLiteral(s: string) {
    var parts := Split(s, '.');
    (|parts| == 1 && Digits(s)) || (|parts| == 2 && Digits(parts[0]) && Digits(parts[1]))
  }

  /** `-?\d+` */
  predicate SignedDigits(s: string) {
    if |s| > 0 && s[0] == '-' then Digits(s[1..]) else Digits(s)
  }

  /** `-?\d+(?:\.\d+)?%?`, a translate amount. */
  predicate Amount(s: string) {
    var unsigned := if |s| > 0 && s[0] == '-' then s[1..] else s;
    var number := if |unsigned| > 0 && unsigned[|unsigned| - 1] == '%' then unsigned[..|unsigned| - 1] else unsigned;
    DecimalLiteral(number)
  }

  /** The character class of a single capture group. */
  datatype CaptureClass =
    | AnyPlus            // (.+)
    | DigitPlus          // (\d+)
    | WordPlus           // (\w+), and (\w+|\d+), which accepts the same strings
    | DecimalPlus        // (\d+(?:\.\d+)?)
    | OneOf(words: seq<string>)

  predicate InClass(c: CaptureClass, s: string) {
    match c
    case AnyPlus => AnyChars(s)
    case DigitPlus => Digits(s)
    case WordPlus => Word(s)
    case DecimalPlus => DecimalLiteral(s)
    case OneOf(words) => s in words
  }

  datatype Pattern =
    | Keyword(word: string)                             // ^word$
    | Prefixed(prefix: string, capture: CaptureClass)   // ^prefix(class)$
    | FlexShape          // ^flex(?:-?(col|inline))?(?::(.+))?$
    | RadiusShape        // ^r:(\d+)(?:\|(\d+))?(?:\|(\d+))?(?:\|(\d+))?$
    | ShadowShape        // ^shadow:(-?\d+)\|(-?\d+)\|(-?\d+)\|(-?\d+)\|\(([^)]+)\)$
    | AbsoluteShape      // ^abs:([^|]*)?(?:\|([^|]*)?(?:\|([^|]*)?(?:\|([^|]*))?)?)?$
    | FixedShape         // ^fixed:(\d+)?(?:\|(\d+))?(?:\|(\d+))?(?:\|(\d+))?$
    | TranslateShape     // ^translate:(-?\d+(?:\.\d+)?%?)?(\|(-?\d+(?:\.\d+)?%?))?$
    | StrokeShape        // ^stroke:([\w]+)(?:\|(\d+))?$

  /** The i-th field as an optional group: absent past the end. */
  function Field(fields: seq<string>, i: nat): Part {
    if i < |fields| then Text(fields[i]) else Undefined
  }

  /** The i-th field as a group of the form `(x*)?`: an empty field leaves
      the group unset, because the engine does not let an optional group
      match the empty string. */
  function NonEmptyField(fields: seq<string>, i: nat): Part {
    if i < |fields| && fields[i] != "" then Text(fields[i]) else Undefined
  }

  /** The text after `flex`: an optional direction, then an optional `:value`. */
  function FlexGroups(rest: string): Option<seq<Part>> {
    var (kind, tail) :=
      if "-col" <= rest then (Text("col"), rest[4..])
      else if "col" <= rest then (Text("col"), rest[3..])
      else if "-inline" <= rest then (Text("inline"), rest[7..])
      else if "inline" <= rest then (Text("inline"), rest[6..])
      else (Undefined, rest);
    if tail == "" then Some([kind, Undefined])
    else if tail[0] == ':' && AnyChars(tail[1..]) then Some([kind, Text(tail[1..])])
    else None
  }

  predicate RadiusFields(fields: seq<string>) {
    1 <= |fields| <= 4 && forall i :: 0 <= i < |fields| ==> Digits(fields[i])
  }

  predicate FixedFields(fields: seq<string>) {
    1 <= |fields| <= 4 && (fields[0] == "" || Digits(fields[0])) &&
    forall i :: 1 <= i < |fields| ==> Digits(fields[i])
  }

  predicate TranslateFields(fields: seq<string>) {
    1 <= |fields| <= 2 && (fields[0] == "" || Amount(fields[0])) && (|fields| == 2 ==> Amount(fields[1]))
  }

  predicate StrokeFields(fields: seq<string>) {
    1 <= |fields| <= 2 && Word(fields[0]) && (|fields| == 2 ==> Digits(fields[1]))
  }

  /** `(C)` with C non-empty and free of `)`. */
  predicate Parenthesised(s: string) {
    |s| >= 3 && s[0] == '(' && s[|s| - 1] == ')' && ')' !in s[1..|s| - 1]
  }

  predicate ShadowFields(fields: seq<string>) {
    |fields| >= 5 &&
    SignedDigits(fields[0]) && SignedDigits(fields[1]) && SignedDigits(fields[2]) && SignedDigits(fields[3]) &&
    Parenthesised(Join(fields[4..], "|"))
  }

  /** `token.match(pattern)`: the capture groups, or None for no match. */
  function Match(p: Pattern, t: string): (r: Option<seq<Part>>)
    ensures r.Some? && p.Prefixed? ==> p.prefix <= t && InClass(p.capture, t[|p.prefix|..])
  {
    match p
    case Keyword(w) => if t == w then Some([]) else None
    case Prefixed(prefix, c) =>
      if prefix <= t && InClass(c, t[|prefix|..]) then Some([Text(t[|prefix|..])]) else None
    case FlexShape =>
      if "flex" <= t then FlexGroups(t[4..]) else None
    case RadiusShape => if "r:" <= t then RadiusGroups(Split(t[2..], '|')) else None
    case ShadowShape => if "shadow:" <= t then ShadowGroups(Split(t[7..], '|')) else None
    case AbsoluteShape => if "abs:" <= t then AbsoluteGroups(Split(t[4..], '|')) else None
    case FixedShape => if "fixed:" <= t then FixedGroups(Split(t[6..], '|')) else None
    case TranslateShape => if "translate:" <= t then TranslateGroups(Split(t[10..], '|')) else None
    case StrokeShape => if "stroke:" <= t then StrokeGroups(Split(t[7..], '|')) else None
  }

  function RadiusGroups(f: seq<string>): Option<seq<Part>> {
    if RadiusFields(f) then Some([Field(f, 0), Field(f, 1), Field(f, 2), Field(f, 3)]) else None
  }

  function ShadowGroups(f: seq<string>): Option<seq<Part>> {
    if ShadowFields(f) then
      var color := Join(f[4..], "|");
      Some([Text(f[0]), Text(f[1]), Text(f[2]), Text(f[3]), Text(color[1..|color| - 1])])
    else None
  }

  function AbsoluteGroups(f: seq<string>): Option<seq<Part>> {
    if |f| <= 4 then Some([NonEmptyField(f, 0), NonEmptyField(f, 1), NonEmptyField(f, 2), Field(f, 3)]) else None
  }

  function FixedGroups(f: seq<string>): Option<seq<Part>> {
    if FixedFields(f) then Some([NonEmptyField(f, 0), Field(f, 1), Field(f, 2), Field(f, 3)]) else None
  }

  function TranslateGroups(f: seq<string>): Option<seq<Part>> {
    if TranslateFields(f) then
      var whole := if |f| == 2 then Text("|" + f[1]) else Undefined;
      Some([NonEmptyField(f, 0), whole, Field(f, 1)])
    else None
  }

  function StrokeGroups(f: seq<string>): Option<seq<Part>> {
    if StrokeFields(f) then Some([Field(f, 0), Field(f, 1)]) else None
  }

  // ----- handlers -----

  /** The decoder a single-group rule applies to its capture. */
  datatype Convert =
    | SideLength | Color | Spacing | Rem | Pixels | Verbatim | Family | LineHeight | Border

  datatype Handler =
    | Assigns(keys: seq<string>, convert: Convert)    // every key gets the converted capture
    | Constant(fields: seq<(string, string)>)          // a fixed object
    | FontWeightOf                                     // `font-weight`: the weight decoder, a number for a keyword
    | Flex | Radius | Shadow | Absolute | FixedOffsets | Translate | Stroke | ScrollHide

  datatype Rule = Rule(pattern: Pattern, handler: Handler)

  /** `Number.isInteger(Number(v))` for a decimal literal: the fraction is zero. */
  predicate IsIntegral(v: string) {
    match ParseNumber(v)
    case None => false
    case Some(d) => d.mantissa % Pow10(d.scale) == 0
  }

  /** The `lh:` value: pixels for a whole number, the literal itself otherwise. */
  function LineHeightValue(v: string): string {
    if IsIntegral(v) then v + "px" else v
  }

  /** The `ff:` value: `inherit`, or the theme's font variable with the name as fallback. */
  function FamilyValue(v: string): string {
    if v == "inherit" then "inherit" else "var(--font-" + v + ", " + v + ")"
  }

  function Converted(c: Convert, s: string): string {
    match c
    case SideLength => ParseSidelength(s)
    case Color => HandleColor(s)
    case Spacing => HandleSpacing(s)
    case Rem => PxToRem(s)
    case Pixels => s + "px"
    case Verbatim => s
    case Family => FamilyValue(s)
    case LineHeight => LineHeightValue(s)
    case Border => HandleBorder(s)
  }

  /** The i-th group, `undefined` past the end. */
  function Group(g: seq<Part>, i: nat): Part {
    if i < |g| then g[i] else Undefined
  }

  /** `${p}` of a group that the pattern guarantees to be set. */
  function GroupText(g: seq<Part>, i: nat): string {
    var p := Group(g, i);
    if p.Text? then p.s else ""
  }

  /** The radius handler's corner chain: top-right and bottom-right fall
      back to top-left, bottom-left to top-right. */
  function RadiusValue(tl: Part, tr: Part, br: Part, bl: Part): string {
    var topLeft := (if tl.Text? then tl.s else "") + "px";
    var topRight := if Truthy(tr) then tr.s + "px" else topLeft;
    var bottomRight := if Truthy(br) then br.s + "px" else topLeft;
    var bottomLeft := if Truthy(bl) then bl.s + "px" else topRight;
    topLeft + " " + topRight + " " + bottomRight + " " + bottomLeft
  }

  /** `abs:`'s `formatUnit`: unset for an empty or absent value, the value
      itself when it holds a `%`, pixels otherwise. */
  function OffsetUnit(p: Part): Value {
    if Truthy(p) then (if '%' in p.s then Str(p.s) else Str(p.s + "px")) else Absent
  }

  /** `fixed:`'s offsets: pixels when set, unset otherwise. */
  function OffsetPixels(p: Part): Value {
    if Truthy(p) then Str(p.s + "px") else Absent
  }

  /** `translate:`'s `formatValue`: `0` for an absent axis. */
  function AxisValue(p: Part): string {
    if Truthy(p) then (if '%' in p.s then p.s else p.s + "px") else "0"
  }

  function Apply(h: Handler, g: seq<Part>): Decl {
    match h
    case Assigns(keys, c) =>
      var v := Converted(c, GroupText(g, 0));
      Object(seq(|keys|, i requires 0 <= i < |keys| => Entry(keys[i], Str(v))))
    case Constant(fields) =>
      Object(seq(|fields|, i requires 0 <= i < |fields| => Entry(fields[i].0, Str(fields[i].1))))
    case FontWeightOf => [Entry("font-weight", FontWeightAsWritten(GroupText(g, 0)))]
    case Flex => FlexStylesAsWritten(Group(g, 1), Group(g, 0))
    case Radius =>
      [Entry("border-radius", Str(RadiusValue(Group(g, 0), Group(g, 1), Group(g, 2), Group(g, 3))))]
    case Shadow =>
      [Entry("box-shadow", Str(GroupText(g, 0) + "px " + GroupText(g, 1) + "px " + GroupText(g, 2) + "px " +
                               GroupText(g, 3) + "px rgba(" + GroupText(g, 4) + ")"))]
    case Absolute =>
      [Entry("position", Str("absolute")),
       Entry("top", OffsetUnit(Group(g, 0))), Entry("right", OffsetUnit(Group(g, 1))),
       Entry("bottom", OffsetUnit(Group(g, 2))), Entry("left", OffsetUnit(Group(g, 3)))]
    case FixedOffsets =>
      [Entry("position", Str("fixed")),
       Entry("top", OffsetPixels(Group(g, 0))), Entry("right", OffsetPixels(Group(g, 1))),
       Entry("bottom", OffsetPixels(Group(g, 2))), Entry("left", OffsetPixels(Group(g, 3)))]
    case Translate =>
      [Entry("transform", Str("translate(" + AxisValue(Group(g, 0)) + ", " + AxisValue(Group(g, 2)) + ")"))]
    case Stroke =>
      [Entry("stroke", Str(GroupText(g, 0))),
       Entry("stroke-width", if Truthy(Group(g, 1)) then Str(Group(g, 1).s + "px") else Absent)]
    case ScrollHide =>
      [Entry("&::-webkit-scrollbar", Nested([Entry("display", Str("none"))])),
       Entry("-ms-overflow-style", Str("none")),
       Entry("scrollbar-width", Str("none"))]
  }

  // ----- the table, in source order -----

  function One(pattern: Pattern, key: string, c: Convert): Rule {
    Rule(pattern, Assigns([key], c))
  }

  function Fixed(word: string, key: string, value: string): Rule {
    Rule(Keyword(word), Constant([(key, value)]))
  }

  // The table is written as consecutive runs; each rule with a shape of
  // its own stands in a run by itself.

  const SideRules: seq<Rule> := [
    One(Prefixed("h:", AnyPlus), "height", SideLength),
    One(Prefixed("min-h:", AnyPlus), "min-height", SideLength),
    One(Prefixed("max-h:", AnyPlus), "max-height", SideLength),
    One(Prefixed("w:", AnyPlus), "width", SideLength),
    One(Prefixed("min-w:", AnyPlus), "min-width", SideLength),
    One(Prefixed("max-w:", AnyPlus), "max-width", SideLength)
  ]

  const SizeRule: Rule := Rule(Prefixed("size:", AnyPlus), Assigns(["width", "height"], SideLength))

  const ColorRule: Rule := One(Prefixed("c:", AnyPlus), "color", Color)

  const ColorRules: seq<Rule> := [
    ColorRule,
    One(Prefixed("bg:", AnyPlus), "background-color", Color)
  ]

  const MarginRule: Rule := One(Prefixed("m:", AnyPlus), "margin", Spacing)

  const MarginRules: seq<Rule> := [
    MarginRule,
    Rule(Prefixed("mx:", AnyPlus), Assigns(["margin-left", "margin-right"], Rem)),
    Rule(Prefixed("my:", AnyPlus), Assigns(["margin-top", "margin-bottom"], Rem)),
    One(Prefixed("mt:", AnyPlus), "margin-top", Rem),
    One(Prefixed("mr:", AnyPlus), "margin-right", Rem),
    One(Prefixed("mb:", AnyPlus), "margin-bottom", Rem),
    One(Prefixed("ml:", AnyPlus), "margin-left", Rem)
  ]

  const PaddingRule: Rule := One(Prefixed("p:", AnyPlus), "padding", Spacing)

  const PaddingRules: seq<Rule> := [
    PaddingRule,
    Rule(Prefixed("px:", AnyPlus), Assigns(["padding-left", "padding-right"], Rem)),
    Rule(Prefixed("py:", AnyPlus), Assigns(["padding-top", "padding-bottom"], Rem)),
    One(Prefixed("pt:", AnyPlus), "padding-top", Rem),
    One(Prefixed("pr:", AnyPlus), "padding-right", Rem),
    One(Prefixed("pb:", AnyPlus), "padding-bottom", Rem),
    One(Prefixed("pl:", AnyPlus), "padding-left", Rem)
  ]

  const WeightRule: Rule := Rule(Prefixed("fw:", WordPlus), FontWeightOf)

  const TypeRules: seq<Rule> := [
    One(Prefixed("f:", DigitPlus), "font-size", Rem),
    One(Prefixed("lh:", DecimalPlus), "line-height", LineHeight),
    WeightRule,
    Fixed("bold", "font-weight", "bold"),
    Fixed("semi", "font-weight", "600"),
    Fixed("regular", "font-weight", "400"),
    Fixed("medium", "font-weight", "500"),
    One(Prefixed("ff:", WordPlus), "font-family", Family),
    Fixed("pre-wrap", "white-space", "pre-wrap")
  ]

  const FlexRule: Rule := Rule(FlexShape, Flex)

  const LayoutRules: seq<Rule> := [
    Fixed("flex-wrap", "flex-wrap", "wrap"),
    One(Prefixed("gap:", DigitPlus), "gap", Pixels),
    Fixed("block", "display", "block"),
    Fixed("inline", "display", "inline"),
    Fixed("inline-block", "display", "inline-block")
  ]

  const TransformRules: seq<Rule> := [
    One(Prefixed("tt:", WordPlus), "text-transform", Verbatim),
    Fixed("upper", "text-transform", "uppercase"),
    Fixed("lower", "text-transform", "lowercase"),
    Fixed("capitalize", "text-transform", "capitalize"),
    One(Prefixed("td:", WordPlus), "text-decoration", Verbatim),
    Fixed("underline", "text-decoration", "underline"),
    Fixed("line-through", "text-decoration", "line-through"),
    Fixed("no-underline", "text-decoration", "none")
  ]

  const CursorRules: seq<Rule> := [
    One(Prefixed("cursor:", WordPlus), "cursor", Verbatim),
    Fixed("pointer", "cursor", "pointer"),
    One(Prefixed("ta:", OneOf(["left", "right", "center", "justify"])), "text-align", Verbatim),
    Fixed("nowrap", "white-space", "nowrap"),
    Rule(Keyword("ellipsis"), Constant([("overflow", "hidden"), ("text-overflow", "ellipsis"), ("white-space", "nowrap")]))
  ]

  const BorderRule: Rule := One(Prefixed("b:", AnyPlus), "border", Border)

  const BorderRules: seq<Rule> := [
    BorderRule,
    One(Prefixed("bb:", AnyPlus), "border-bottom", Border),
    One(Prefixed("bt:", AnyPlus), "border-top", Border),
    One(Prefixed("br:", AnyPlus), "border-right", Border),
    One(Prefixed("bl:", AnyPlus), "border-left", Border)
  ]

  const RadiusRule: Rule := Rule(RadiusShape, Radius)

  const OverflowRules: seq<Rule> := [
    One(Prefixed("outline:", AnyPlus), "outline", Verbatim),
    One(Prefixed("o:", DecimalPlus), "opacity", Verbatim),
    One(Prefixed("of:", WordPlus), "overflow", Verbatim),
    One(Prefixed("ofx:", WordPlus), "overflow-x", Verbatim),
    One(Prefixed("ofy:", WordPlus), "overflow-y", Verbatim),
    Fixed("ofh", "overflow", "hidden")
  ]

  const ShadowRule: Rule := Rule(ShadowShape, Shadow)

  const MiscRules: seq<Rule> := [
    One(Prefixed("z:", DigitPlus), "z-index", Verbatim),
    One(Prefixed("appearance:", WordPlus), "appearance", Verbatim),
    Fixed("none", "appearance", "none"),
    Fixed("hide", "display", "none"),
    Fixed("rel", "position", "relative")
  ]

  const AbsoluteRule: Rule := Rule(AbsoluteShape, Absolute)

  const FixedRule: Rule := Rule(FixedShape, FixedOffsets)

  const OffsetRules: seq<Rule> := [
    One(Prefixed("bottom:", DigitPlus), "bottom", Pixels),
    One(Prefixed("top:", DigitPlus), "top", Pixels),
    One(Prefixed("left:", DigitPlus), "left", Pixels),
    One(Prefixed("right:", DigitPlus), "right", Pixels)
  ]

  const TranslateRule: Rule := Rule(TranslateShape, Translate)

  const StrokeRule: Rule := Rule(StrokeShape, Stroke)

  const ScrollRule: Rule := Rule(Keyword("scroll:hide"), ScrollHide)

  /** The runs in source order. */
  const Runs: seq<seq<Rule>> := [
    SideRules, [SizeRule], ColorRules, MarginRules, PaddingRules, TypeRules, [FlexRule], LayoutRules,
    TransformRules, CursorRules, BorderRules, [RadiusRule], OverflowRules, [ShadowRule], MiscRules,
    [AbsoluteRule], [FixedRule], OffsetRules, [TranslateRule], [StrokeRule], [ScrollRule]
  ]

  function Flatten(runs: seq<seq<Rule>>): seq<Rule> {
    if runs == [] then [] else runs[0] + Flatten(runs[1..])
  }

  /** The 78 rules in source order. */
  const Table: seq<Rule> := Flatten(Runs)

  // ----- resolution -----

  /** The declaration of the first rule in `rules` that matches `t`. */
  function FirstMatch(rules: seq<Rule>, t: string): Option<Decl> {
    if rules == [] then None
    else match Match(rules[0].pattern, t)
      case Some(g) => Some(Apply(rules[0].handler, g))
      case None => FirstMatch(rules[1..], t)
  }

  /** Resolving a token against the whole table. */
  function Resolve(t: string): Option<Decl> {
    FirstMatch(Table, t)
  }
}
