/**
 * The value decoders of the preset: total string functions that the rule
 * handlers use to turn a captured value into CSS text. None of them fails;
 * an input they do not recognise passes through unchanged.
 */
module Decoders {
  import opened Options
  import opened JsString
  import opened JsNumber
  import opened Style

  // ----- pxToRem -----

  /** `pxToRem`: a numeric value is divided by 16 and printed with `rem`;
      anything else is returned as it is. */
  function PxToRem(value: string): (r: string)
    ensures !IsNumeric(value) ==> r == value
  {
    match ParseNumber(value)
    case None => value
    case Some(d) => NumberText(Over16(d)) + "rem"
  }

  /** The arithmetic of chaining "e and q are the same number" with "q is a
      sixteenth of d". */
  lemma SixteenthChain(em: nat, qm: nat, dm: nat, pe: nat, pq: nat, pd: nat)
    requires em * pq == qm * pe && 16 * qm * pd == dm * pq && pq >= 1
    ensures 16 * em * pd == dm * pe
  {
    calc {
      (16 * em * pd) * pq;
      16 * pd * (em * pq);
      16 * pd * (qm * pe);
      pe * (16 * qm * pd);
      pe * (dm * pq);
      (dm * pe) * pq;
    }
  }

  /** A numeric value becomes a number followed by `rem`, and that number,
      read back, is exactly a sixteenth of the value ("16" gives "1rem", "8"
      gives "0.5rem", "-4" gives "-0.25rem"). */
  lemma PxToRemIsSixteenth(value: string)
    requires IsNumeric(value)
    ensures EndsWith(PxToRem(value), "rem")
    ensures var r := PxToRem(value);
            var n := ParseNumber(r[..|r| - 3]);
            var d := ParseNumber(value).value;
            n.Some? && 16 * n.value.mantissa * Pow10(d.scale) == d.mantissa * Pow10(n.value.scale) &&
            (n.value.mantissa == 0 || n.value.negative == d.negative)
  {
    var d := ParseNumber(value).value;
    var q := Over16(d);
    var t := NumberText(q);
    assert PxToRem(value) == t + "rem";
    assert (t + "rem")[..|t + "rem"| - 3] == t;
    NumberTextRoundTrip(q);
    var e := ParseNumber(t).value;
    SixteenthChain(e.mantissa, q.mantissa, d.mantissa, Pow10(e.scale), Pow10(q.scale), Pow10(d.scale));
  }

  /** Converting twice is converting once: the output of a conversion is not numeric. */
  lemma PxToRemIdempotent(value: string)
    ensures PxToRem(PxToRem(value)) == PxToRem(value)
  {
    if IsNumeric(value) {
      var r := PxToRem(value);
      PxToRemIsSixteenth(value);
      NonNumericWith(r, |r| - 3);
    }
  }

  // ----- handleColor -----

  /** A colour mixed with transparent at the printed percentage `pct`. */
  function MixTransparent(color: string, pct: string): string {
    "color-mix(in srgb, " + color + " " + pct + "%, transparent)"
  }

  /** `handleColor`: `base/opacity` mixes the base with transparent at the
      `parseInt` of the opacity; a `#` colour is kept as it is and any other
      name becomes the theme variable `--color-<name>` with the name as fallback. */
  function HandleColor(color: string): string {
    if '/' in color then
      var parts := Split(color, '/');
      var base := parts[0];
      var pct := ParseIntText(parts[1]);
      if "#" <= base then MixTransparent(base, pct)
      else MixTransparent("var(--color-" + base + ", " + base + ")", pct)
    else if "#" <= color then color
    else "var(--color-" + color + ", " + color + ")"
  }

  /** With an opacity, the mixed colour is exactly what the base alone
      resolves to: a `#` base verbatim, any other base as its theme variable. */
  lemma ColorOpacityMixesBase(color: string)
    requires '/' in color
    ensures var parts := Split(color, '/');
            HandleColor(color) == MixTransparent(HandleColor(parts[0]), ParseIntText(parts[1]))
  {
  }

  /** A colour without an opacity resolves to text starting with `#` exactly
      when the colour does. */
  lemma ColorHead(c: string)
    requires '/' !in c
    ensures HandleColor(c) != [] && (HandleColor(c)[0] == '#' <==> "#" <= c)
  {
  }

  /** Distinct colours without an opacity resolve to distinct values. */
  lemma ColorInjective(a: string, b: string)
    requires '/' !in a && '/' !in b
    requires HandleColor(a) == HandleColor(b)
    ensures a == b
  {
    ColorHead(a);
    ColorHead(b);
    if !("#" <= a) && !("#" <= b) {
      var ra, rb := HandleColor(a), HandleColor(b);
      assert |ra| == 15 + 2 * |a| && |rb| == 15 + 2 * |b|;
      assert ra[12..12 + |a|] == a;
      assert rb[12..12 + |b|] == b;
    }
  }

  // ----- handleSpacing -----

  /** An empty spacing segment stands for 0. */
  function FillEmpty(part: string): (r: string)
    ensures r != ""
  {
    if part == "" then "0" else part
  }

  /** The converted spacing segments of a `|`-separated value. */
  function SpacingItems(value: string): (items: seq<string>)
    ensures |items| == |Split(value, '|')|
    ensures forall i :: 0 <= i < |items| ==> items[i] == PxToRem(FillEmpty(Split(value, '|')[i]))
  {
    var parts := Split(value, '|');
    seq(|parts|, i requires 0 <= i < |parts| => PxToRem(FillEmpty(parts[i])))
  }

  /** `handleSpacing`: every `|`-separated segment, an empty one read as 0,
      converted by `pxToRem` and joined with spaces. */
  function HandleSpacing(value: string): string {
    Join(SpacingItems(value), " ")
  }

  /** The characters of a converted value: those of the input, or digits, a
      sign, a point and the letters of `rem`. */
  lemma PxToRemChars(value: string, c: char)
    requires c in PxToRem(value)
    ensures c in value || NumberChar(c) || c == 'r' || c == 'e' || c == 'm'
  {
    if IsNumeric(value) {
      var t := NumberText(Over16(ParseNumber(value).value));
      assert PxToRem(value) == t + "rem";
      if c in t {
        NumberTextRoundTrip(Over16(ParseNumber(value).value));
        NumericChars(t);
      }
    }
  }

  /** A converted segment contains no space and no `|` when its segment has none. */
  lemma SpacingItemClean(value: string, i: nat)
    requires i < |Split(value, '|')|
    requires ' ' !in value
    ensures ' ' !in SpacingItems(value)[i] && '|' !in SpacingItems(value)[i]
  {
    var part := Split(value, '|')[i];
    SplitPartChars(value, '|', i);
    if ' ' in SpacingItems(value)[i] {
      PxToRemChars(FillEmpty(part), ' ');
    }
    if '|' in SpacingItems(value)[i] {
      PxToRemChars(FillEmpty(part), '|');
    }
  }

  /** The output holds exactly one space-separated item per `|`-separated
      segment, in order: segment i converted, with an empty segment read as 0
      ("8|" gives "0.5rem 0rem"). */
  lemma SpacingOneItemPerSegment(value: string)
    requires ' ' !in value
    ensures var items := Split(HandleSpacing(value), ' ');
            var parts := Split(value, '|');
            |items| == |parts| &&
            forall i :: 0 <= i < |parts| ==> items[i] == PxToRem(if parts[i] == "" then "0" else parts[i])
  {
    var items := SpacingItems(value);
    forall i | 0 <= i < |items| ensures ' ' !in items[i] {
      SpacingItemClean(value, i);
    }
    SplitJoin(items, ' ');
  }

  /** Spacing a spaced value changes nothing. */
  lemma SpacingIdempotent(value: string)
    requires ' ' !in value
    ensures HandleSpacing(HandleSpacing(value)) == HandleSpacing(value)
  {
    var items := SpacingItems(value);
    var r := HandleSpacing(value);
    forall i | 0 <= i < |items| ensures '|' !in items[i] {
      SpacingItemClean(value, i);
    }
    if '|' in r {
      JoinChars(items, ' ', '|');
    }
    SplitWithoutSeparator(r, '|');
    if |items| >= 2 {
      JoinHasSeparator(items, ' ');
      var k :| 0 <= k < |r| && r[k] == ' ';
      NonNumericWith(r, k);
    } else {
      assert r == items[0];
      PxToRemIdempotent(FillEmpty(Split(value, '|')[0]));
    }
    assert SpacingItems(r) == [PxToRem(r)];
  }

  // ----- handleFontWeight -----

  /** The weight table: thin=100 through black=900. */
  function WeightNumber(w: string): Option<nat> {
    if w == "thin" then Some(100)
    else if w == "xlight" then Some(200)
    else if w == "light" then Some(300)
    else if w == "normal" then Some(400)
    else if w == "medium" then Some(500)
    else if w == "semibold" then Some(600)
    else if w == "bold" then Some(700)
    else if w == "xbold" then Some(800)
    else if w == "black" then Some(900)
    else None
  }

  /** `handleFontWeight` as written: a table keyword gives the table's number
      (a JavaScript number, not a string); anything else passes through. */
  function FontWeightAsWritten(w: string): Value {
    match WeightNumber(w)
    case Some(n) => Num(n)
    case None => Str(w)
  }

  /** The nine numbers of the weight table. */
  const WeightValues: set<nat> := {100, 200, 300, 400, 500, 600, 700, 800, 900}

  /** As written, a table keyword gives its number and only a keyword gives a
      number; every other word passes through as the same string. Printed,
      the result is the corrected string weight. */
  lemma FontWeightAsWrittenPrints(w: string)
    ensures FontWeightAsWritten(w).Num? <==> WeightNumber(w).Some?
    ensures FontWeightAsWritten(w).Num? ==> FontWeightAsWritten(w).n in WeightValues
    ensures FontWeightAsWritten(w).Str? ==> FontWeightAsWritten(w).s == w
    ensures Printed(FontWeightAsWritten(w)) == FontWeight(w)
  {
  }

  /** `handleFontWeight` with the table value printed as a string, which is
      what the CSS text shows in either case. */
  function FontWeight(w: string): string {
    match WeightNumber(w)
    case Some(n) => NatText(n)
    case None => w
  }

  /** Keywords map to the numeric weight of the table, everything else,
      numeric weights included, passes through; so a weight is a fixed point. */
  lemma FontWeightIdempotent(w: string)
    ensures var printed := Printed(FontWeightAsWritten(w));
            Printed(FontWeightAsWritten(printed)) == printed && FontWeightAsWritten(printed) == Str(printed)
    ensures FontWeight(FontWeight(w)) == FontWeight(w)
    ensures WeightNumber(w).Some? ==> DigitsValue(FontWeight(w)) == WeightNumber(w).value
  {
    FontWeightAsWrittenPrints(w);
    FontWeightAsWrittenPrints(FontWeight(w));
    if WeightNumber(w).Some? {
      NatTextValue(WeightNumber(w).value);
      assert Digits(FontWeight(w));
    }
  }

  // ----- handleFlex -----

  function JustifyOption(justify: string): Option<string> {
    if justify == "start" then Some("flex-start")
    else if justify == "end" then Some("flex-end")
    else if justify == "center" then Some("center")
    else if justify == "between" then Some("space-between")
    else if justify == "around" then Some("space-around")
    else if justify == "evenly" then Some("space-evenly")
    else None
  }

  /** `alignOptions[align]`; an absent align part is looked up as the key
      "undefined", which the table does not have. */
  function AlignOption(align: Part): Option<string> {
    if align == Text("start") then Some("flex-start")
    else if align == Text("end") then Some("flex-end")
    else if align == Text("center") then Some("center")
    else if align == Text("stretch") then Some("stretch")
    else if align == Text("baseline") then Some("baseline")
    else None
  }

  /** The container part: display and direction from the rule's modifier. */
  function FlexBase(kind: Part): Decl {
    [Entry("display", Str(if kind == Text("inline") then "inline-flex" else "flex")),
     Entry("flex-direction", Str(if kind == Text("col") then "column" else "row"))]
  }

  /** The align part of a flex value: the second `|` field, absent if there is none. */
  function AlignPart(value: string): Part {
    var parts := Split(value, '|');
    if |parts| >= 2 then Text(parts[1]) else Undefined
  }

  /** The container after the `justify-content` lookup. */
  function FlexJustified(value: string, kind: Part): Decl {
    match JustifyOption(Split(value, '|')[0])
    case Some(j) => Assign(FlexBase(kind), "justify-content", Str(j))
    case None => FlexBase(kind)
  }

  /** The container after both table lookups. */
  function FlexAligned(value: string, kind: Part): Decl {
    match AlignOption(AlignPart(value))
    case Some(a) => Assign(FlexJustified(value, kind), "align-items", Str(a))
    case None => FlexJustified(value, kind)
  }

  /** `handleFlex`, with the lone-centre test comparing the align part
      against `unset`. */
  function FlexWith(value: Part, kind: Part, unset: Part): Decl {
    if !Truthy(value) then FlexBase(kind)
    else if IsNumeric(value.s) then [Entry("flex", Str(Join(Split(value.s, '|'), " ")))]
    else if Split(value.s, '|')[0] == "center" && AlignPart(value.s) == unset then
      Assign(Assign(FlexAligned(value.s, kind), "justify-content", Str("center")), "align-items", Str("center"))
    else FlexAligned(value.s, kind)
  }

  /** `handleFlex` as written: the lone-centre test compares the align part
      with `null`, which a split never yields. */
  function FlexStylesAsWritten(value: Part, kind: Part): Decl {
    FlexWith(value, kind, Null)
  }

  /** `handleFlex` with the lone-centre test as intended: a missing align part. */
  function FlexStyles(value: Part, kind: Part): Decl {
    FlexWith(value, kind, Undefined)
  }

  /** `handleFlex` as the source writes it: it builds the display and
      direction object and then assigns the alignment properties in place. */
  method HandleFlex(value: Part, kind: Part) returns (styles: Decl)
    ensures styles == FlexStylesAsWritten(value, kind)
  {
    var direction := if kind == Text("col") then "column" else "row";
    var display := if kind == Text("inline") then "inline-flex" else "flex";
    styles := [Entry("display", Str(display)), Entry("flex-direction", Str(direction))];
    if !Truthy(value) {
      return;
    }
    if IsNumeric(value.s) {
      return [Entry("flex", Str(Join(Split(value.s, '|'), " ")))];
    }
    var parts := Split(value.s, '|');
    var justify := parts[0];
    var align := if |parts| >= 2 then Text(parts[1]) else Undefined;
    var j := JustifyOption(justify);
    if j.Some? {
      styles := Assign(styles, "justify-content", Str(j.value));
    }
    var a := AlignOption(align);
    if a.Some? {
      styles := Assign(styles, "align-items", Str(a.value));
    }
    if justify == "center" && align == Null {
      styles := Assign(styles, "justify-content", Str("center"));
      styles := Assign(styles, "align-items", Str("center"));
    }
  }

  /** Without a value the result is exactly display and direction: `col`
      gives column, `inline` gives inline-flex. */
  lemma FlexWithoutValue(value: Part, kind: Part)
    requires !Truthy(value)
    ensures Keys(FlexStyles(value, kind)) == ["display", "flex-direction"]
    ensures Lookup(FlexStyles(value, kind), "display") == Some(Str(if kind == Text("inline") then "inline-flex" else "flex"))
    ensures Lookup(FlexStyles(value, kind), "flex-direction") == Some(Str(if kind == Text("col") then "column" else "row"))
  {
  }

  /** A numeric value gives only a `flex` property, holding the value itself:
      a numeric string has no `|`, so the split and join change nothing. */
  lemma FlexNumeric(value: string, kind: Part)
    requires IsNumeric(value)
    ensures FlexStyles(Text(value), kind) == [Entry("flex", Str(value))]
  {
    if '|' in value {
      var k :| 0 <= k < |value| && value[k] == '|';
      NonNumericWith(value, k);
    }
    SplitWithoutSeparator(value, '|');
  }

  /** A table entry as a property value. */
  function OptStr(o: Option<string>): Option<Value> {
    match o
    case Some(t) => Some(Str(t))
    case None => None
  }

  /** The container properties come first, in the order the source sets them. */
  predicate ContainerFirst(d: Decl) {
    |d| >= 2 && d[0].key == "display" && d[1].key == "flex-direction"
  }

  /** Assignment keeps the first entries' keys in place. */
  lemma AssignContainerFirst(d: Decl, k: string, v: Value)
    requires ContainerFirst(d)
    ensures ContainerFirst(Assign(d, k, v))
  {
    var r := Assign(d, k, v);
    assert Keys(r)[0] == Keys(d)[0] && Keys(r)[1] == Keys(d)[1];
  }

  /** After the justify lookup: display and direction first, distinct keys,
      `justify-content` from the table and no `align-items` yet. */
  lemma FlexJustifiedLookups(value: string, kind: Part)
    ensures var d := FlexJustified(value, kind);
            DistinctKeys(d) && ContainerFirst(d) &&
            Lookup(d, "justify-content") == OptStr(JustifyOption(Split(value, '|')[0])) &&
            Lookup(d, "align-items") == None
  {
    var j := JustifyOption(Split(value, '|')[0]);
    if j.Some? {
      JustifyAssigned(kind, j.value);
    }
  }

  /** The container with `justify-content` set to j. */
  lemma JustifyAssigned(kind: Part, j: string)
    ensures var d := Assign(FlexBase(kind), "justify-content", Str(j));
            DistinctKeys(d) && ContainerFirst(d) &&
            Lookup(d, "justify-content") == Some(Str(j)) && Lookup(d, "align-items") == None
  {
    var base := FlexBase(kind);
    AssignLookup(base, "justify-content", Str(j), "align-items");
    AssignLookup(base, "justify-content", Str(j), "justify-content");
    AssignDistinct(base, "justify-content", Str(j));
    AssignContainerFirst(base, "justify-content", Str(j));
  }

  /** After both lookups, each of the two alignment keys holds its table's entry. */
  lemma FlexAlignedLookups(value: string, kind: Part)
    ensures var d := FlexAligned(value, kind);
            DistinctKeys(d) && ContainerFirst(d) &&
            Lookup(d, "justify-content") == OptStr(JustifyOption(Split(value, '|')[0])) &&
            Lookup(d, "align-items") == OptStr(AlignOption(AlignPart(value)))
  {
    FlexJustifiedLookups(value, kind);
    var d := FlexJustified(value, kind);
    var a := AlignOption(AlignPart(value));
    if a.Some? {
      AssignLookup(d, "align-items", Str(a.value), "justify-content");
      AssignLookup(d, "align-items", Str(a.value), "align-items");
      AssignDistinct(d, "align-items", Str(a.value));
      AssignContainerFirst(d, "align-items", Str(a.value));
    }
  }

  /** Setting both alignment keys to `center` keeps the container keys first. */
  lemma CentreBoth(d: Decl)
    requires DistinctKeys(d) && ContainerFirst(d)
    ensures var r := Assign(Assign(d, "justify-content", Str("center")), "align-items", Str("center"));
            DistinctKeys(r) && ContainerFirst(r) &&
            Lookup(r, "justify-content") == Some(Str("center")) &&
            Lookup(r, "align-items") == Some(Str("center"))
  {
    var once := Assign(d, "justify-content", Str("center"));
    AssignLookup(d, "justify-content", Str("center"), "justify-content");
    AssignDistinct(d, "justify-content", Str("center"));
    AssignContainerFirst(d, "justify-content", Str("center"));
    AssignLookup(once, "align-items", Str("center"), "justify-content");
    AssignLookup(once, "align-items", Str("center"), "align-items");
    AssignDistinct(once, "align-items", Str("center"));
    AssignContainerFirst(once, "align-items", Str("center"));
  }

  /** With the lone-centre test as intended (a missing align part), a
      non-numeric value keeps display and direction first, and a lone
      `center` centres both axes; otherwise the two table lookups decide. */
  lemma FlexKeywordsIntended(value: string, kind: Part)
    requires value != "" && !IsNumeric(value)
    ensures var d := FlexStyles(Text(value), kind);
            var lone := Split(value, '|')[0] == "center" && AlignPart(value) == Undefined;
            DistinctKeys(d) &&
            ContainerFirst(d) &&
            Lookup(d, "justify-content") == (if lone then Some(Str("center")) else OptStr(JustifyOption(Split(value, '|')[0]))) &&
            Lookup(d, "align-items") == (if lone then Some(Str("center")) else OptStr(AlignOption(AlignPart(value))))
  {
    var aligned := FlexAligned(value, kind);
    FlexAlignedLookups(value, kind);
    assert Truthy(Text(value));
    if Split(value, '|')[0] == "center" && AlignPart(value) == Undefined {
      CentreBoth(aligned);
      assert FlexStyles(Text(value), kind) ==
        Assign(Assign(aligned, "justify-content", Str("center")), "align-items", Str("center"));
    } else {
      assert FlexStyles(Text(value), kind) == aligned;
    }
  }

  /** As written, a non-numeric value gives display and direction, then
      `justify-content` exactly when the justify part is a key of its table
      and `align-items` exactly when the align part is a key of its table,
      and nothing else: the `null` test never holds, so no value is ever
      centred on both axes. */
  lemma FlexKeywords(value: string, kind: Part)
    requires value != "" && !IsNumeric(value)
    ensures var d := FlexStylesAsWritten(Text(value), kind);
            var j := JustifyOption(Split(value, '|')[0]);
            var a := AlignOption(AlignPart(value));
            DistinctKeys(d) && ContainerFirst(d) &&
            Keys(d) == ["display", "flex-direction"] +
                       (if j.Some? then ["justify-content"] else []) + (if a.Some? then ["align-items"] else []) &&
            Lookup(d, "justify-content") == OptStr(j) &&
            Lookup(d, "align-items") == OptStr(a)
  {
    FlexAlignedLookups(value, kind);
    FlexAlignedKeys(value, kind);
    FlexNotNull(value);
    assert Truthy(Text(value));
    assert FlexStylesAsWritten(Text(value), kind) == FlexAligned(value, kind);
  }

  /** The keys after both lookups: the container's, then each alignment key
      whose table has the part. */
  lemma FlexAlignedKeys(value: string, kind: Part)
    ensures var j := JustifyOption(Split(value, '|')[0]);
            var a := AlignOption(AlignPart(value));
            Keys(FlexAligned(value, kind)) == ["display", "flex-direction"] +
              (if j.Some? then ["justify-content"] else []) + (if a.Some? then ["align-items"] else [])
  {
    var base := FlexBase(kind);
    assert Keys(base) == ["display", "flex-direction"];
    var d := FlexJustified(value, kind);
    var j := JustifyOption(Split(value, '|')[0]);
    assert Keys(d) == ["display", "flex-direction"] + (if j.Some? then ["justify-content"] else []);
    assert "align-items" !in Keys(d);
  }

  lemma FlexNotNull(value: string)
    ensures AlignPart(value) != Null
  {
  }

  /** `center` alone: one `|` field, not numeric, no align part. */
  lemma CenterAlone()
    ensures Split("center", '|') == ["center"] && !IsNumeric("center") && AlignPart("center") == Undefined
  {
    SplitWithoutSeparator("center", '|');
    NonNumericWith("center", 0);
  }

  /** As written, `flex:center` centres the main axis only: `align-items`
      is never set. */
  lemma FlexCenterAsWritten(kind: Part)
    ensures Lookup(FlexStylesAsWritten(Text("center"), kind), "justify-content") == Some(Str("center"))
    ensures Lookup(FlexStylesAsWritten(Text("center"), kind), "align-items") == None
  {
    CenterAlone();
    FlexKeywords("center", kind);
    assert OptStr(JustifyOption("center")) == Some(Str("center"));
    NoAlignOption();
  }

  lemma NoAlignOption()
    ensures OptStr(AlignOption(Undefined)) == None
  {
  }

  /** With the intended test, `flex:center` centres along both axes. */
  lemma FlexCenterCentersBoth(kind: Part)
    ensures Lookup(FlexStyles(Text("center"), kind), "justify-content") == Some(Str("center"))
    ensures Lookup(FlexStyles(Text("center"), kind), "align-items") == Some(Str("center"))
  {
    CenterAlone();
    FlexKeywordsIntended("center", kind);
  }

  // ----- handleBorder -----

  /** `handleBorder`: `0` and `none` give `none`; otherwise `color|width|style`
      with width 1 and style solid when those fields are absent (an empty
      field stays empty). */
  function HandleBorder(value: string): string {
    if value == "0" || value == "none" then "none"
    else
      BorderWidth(value) + "px " + BorderStyle(value) + " " + HandleColor(Split(value, '|')[0])
  }

  /** Two space-free fields, then the rest, split back at the spaces. */
  lemma TwoFieldsThenRest(a: string, b: string, c: string)
    requires ' ' !in a && ' ' !in b
    ensures var fields := Split(a + " " + b + " " + c, ' ');
            |fields| >= 3 && fields[0] == a && fields[1] == b && Join(fields[2..], " ") == c
  {
    assert a + " " + b + " " + c == a + [' '] + (b + [' '] + c);
    SplitAfterField(a, b + [' '] + c, ' ');
    SplitAfterField(b, c, ' ');
    var fields := Split(a + " " + b + " " + c, ' ');
    assert fields == [a, b] + Split(c, ' ');
    assert fields[2..] == Split(c, ' ');
    JoinSplit(c, ' ');
  }

  /** The width field of a border value: the second `|` field, 1 when absent. */
  function BorderWidth(value: string): string {
    var parts := Split(value, '|');
    if |parts| >= 2 then parts[1] else "1"
  }

  /** The style field of a border value: the third `|` field, solid when absent. */
  function BorderStyle(value: string): string {
    var parts := Split(value, '|');
    if |parts| >= 3 then parts[2] else "solid"
  }

  /** The width and style fields hold no space when the value has none. */
  lemma BorderFieldsSpaceFree(value: string)
    requires ' ' !in value
    ensures ' ' !in BorderWidth(value) + "px" && ' ' !in BorderStyle(value)
  {
    var parts := Split(value, '|');
    if |parts| >= 2 { SplitPartChars(value, '|', 1); }
    if |parts| >= 3 { SplitPartChars(value, '|', 2); }
  }

  /** Splitting the border text at its spaces gives back the width with `px`,
      the style, and the resolved colour: defaults stand in only for absent
      fields. */
  lemma BorderFields(value: string)
    requires value != "0" && value != "none" && ' ' !in value
    ensures var fields := Split(HandleBorder(value), ' ');
            |fields| >= 3 &&
            fields[0] == BorderWidth(value) + "px" &&
            fields[1] == BorderStyle(value) &&
            Join(fields[2..], " ") == HandleColor(Split(value, '|')[0])
  {
    var color := HandleColor(Split(value, '|')[0]);
    var width, style := BorderWidth(value), BorderStyle(value);
    BorderFieldsSpaceFree(value);
    assert HandleBorder(value) == width + "px " + style + " " + color;
    assert width + "px " == (width + "px") + " ";
    TwoFieldsThenRest(width + "px", style, color);
  }

  // ----- parseSidelength -----

  /** `parseSidelength`: three keywords, pixels for a digit run, and the value
      itself otherwise. */
  function ParseSidelength(value: string): (r: string)
    ensures value == "full" ==> r == "100%"
    ensures value == "screen" ==> r == "100vh"
    ensures value == "fit" ==> r == "fit-content"
    ensures Digits(value) ==> r == value + "px"
    ensures value != "full" && value != "screen" && value != "fit" && !Digits(value) ==> r == value
  {
    if value == "full" then assert !IsDigit(value[0]); "100%"
    else if value == "screen" then assert !IsDigit(value[0]); "100vh"
    else if value == "fit" then assert !IsDigit(value[0]); "fit-content"
    else if Digits(value) then value + "px"
    else value
  }

  /** A parsed side length is neither a keyword nor a bare digit run, so
      parsing it again changes nothing. */
  lemma SidelengthIdempotent(value: string)
    ensures var r := ParseSidelength(value);
            r != "full" && r != "screen" && r != "fit" && !Digits(r) &&
            ParseSidelength(r) == r
  {
    var r := ParseSidelength(value);
    if Digits(value) {
      assert r[|r| - 1] == 'x';
    } else if value == "full" {
      assert r[3] == '%';
    } else if value == "screen" {
      assert r[3] == 'v';
    } else if value == "fit" {
      assert r[0] == 'f' && r[1] == 'i' && r[3] == '-';
    }
  }
}
