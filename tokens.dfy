/**
 * What whole tokens resolve to: for each rule with a shape of its own, and
 * for the first rule of several runs, the declaration a well-shaped token
 * produces, stated against an independent description of the shape.
 */
module Tokens {
  import opened Options
  import opened JsString
  import opened JsNumber
  import opened Style
  import opened Decoders
  import opened Rules
  import opened Resolution

  lemma DigitsFieldsFree(fs: seq<string>)
    requires forall i :: 0 <= i < |fs| ==> AllDigits(fs[i])
    ensures forall i :: 0 <= i < |fs| ==> '|' !in fs[i]
  {
    forall i | 0 <= i < |fs| ensures '|' !in fs[i] {
      AllDigitsBarFree(fs[i]);
    }
  }

  // ----- border-radius -----

  /** The CSS `border-radius` shorthand expanded to its four corners, in
      the order top-left, top-right, bottom-right, bottom-left: top-right
      and bottom-right default to top-left, bottom-left to top-right. */
  function CssCorners(vs: seq<string>): (corners: seq<string>)
    requires 1 <= |vs| <= 4
    ensures |corners| == 4
  {
    if |vs| == 1 then [vs[0], vs[0], vs[0], vs[0]]
    else if |vs| == 2 then [vs[0], vs[1], vs[0], vs[1]]
    else if |vs| == 3 then [vs[0], vs[1], vs[2], vs[1]]
    else vs
  }

  function Pixels(fs: seq<string>): (ps: seq<string>)
    ensures |ps| == |fs|
  {
    seq(|fs|, i requires 0 <= i < |fs| => fs[i] + "px")
  }

  lemma Join4(a: string, b: string, c: string, d: string)
    ensures Join([a, b, c, d], " ") == a + " " + b + " " + c + " " + d
  {
    assert [a, b, c, d][1..] == [b, c, d];
    assert [b, c, d][1..] == [c, d];
    assert [c, d][1..] == [d];
    assert Join([c, d], " ") == c + " " + d;
    assert Join([a, b, c, d], " ") == a + " " + (b + " " + (c + " " + d));
  }

  /** The radius handler's fallback chain is the CSS shorthand. */
  lemma RadiusValueCorners(fs: seq<string>)
    requires RadiusFields(fs)
    ensures RadiusValue(Field(fs, 0), Field(fs, 1), Field(fs, 2), Field(fs, 3)) == Join(CssCorners(Pixels(fs)), " ")
  {
    var c := CssCorners(Pixels(fs));
    Join4(c[0], c[1], c[2], c[3]);
    assert [c[0], c[1], c[2], c[3]] == c;
  }

  /** `r:` and one to four whole numbers give the numbers as the groups. */
  lemma RadiusMatch(fs: seq<string>)
    requires RadiusFields(fs)
    ensures Match(RadiusShape, "r:" + Join(fs, "|")) == Some([Field(fs, 0), Field(fs, 1), Field(fs, 2), Field(fs, 3)])
  {
    var t := "r:" + Join(fs, "|");
    assert "r:" <= t && t[2..] == Join(fs, "|");
    DigitsFieldsFree(fs);
    SplitJoin(fs, '|');
  }

  /** What the radius rule makes of `r:` and one to four whole numbers. */
  lemma RadiusRuleCorners(fs: seq<string>)
    requires RadiusFields(fs)
    ensures RuleResult(RadiusRule, "r:" + Join(fs, "|")) == Some([Entry("border-radius", Str(Join(CssCorners(Pixels(fs)), " ")))])
  {
    RadiusMatch(fs);
    RadiusValueCorners(fs);
    var g := [Field(fs, 0), Field(fs, 1), Field(fs, 2), Field(fs, 3)];
    assert RuleResult(RadiusRule, "r:" + Join(fs, "|")) == Some(Apply(Radius, g));
    RadiusApply(g);
  }

  lemma RadiusApply(g: seq<Part>)
    requires |g| == 4
    ensures Apply(Radius, g) == [Entry("border-radius", Str(RadiusValue(g[0], g[1], g[2], g[3])))]
  {
  }

  /** `r:` followed by one to four whole numbers sets `border-radius` to
      the CSS shorthand of those numbers in pixels. */
  lemma RadiusIsShorthand(fs: seq<string>)
    requires RadiusFields(fs)
    ensures Resolve("r:" + Join(fs, "|")) == Some([Entry("border-radius", Str(Join(CssCorners(Pixels(fs)), " ")))])
  {
    RadiusRuleCorners(fs);
    ResolveRadius("r:" + Join(fs, "|"));
  }

  // ----- single-capture rules -----

  /** A rule that assigns one key the converted capture yields exactly that
      key, whatever the value. */
  lemma OneApplied(prefix: string, cls: CaptureClass, key: string, c: Convert, v: string)
    requires InClass(cls, v)
    ensures RuleResult(One(Prefixed(prefix, cls), key, c), prefix + v) == Some([Entry(key, Str(Converted(c, v)))])
  {
    var t := prefix + v;
    assert prefix <= t && t[|prefix|..] == v;
    assert Object([Entry(key, Str(Converted(c, v)))]) == [Entry(key, Str(Converted(c, v)))];
  }

  /** `m:` sets `margin` to the spacing decoder's value. */
  lemma MarginToken(v: string)
    requires AnyChars(v)
    ensures Resolve("m:" + v) == Some([Entry("margin", Str(HandleSpacing(v)))])
  {
    OneApplied("m:", AnyPlus, "margin", Spacing, v);
    ReachMargin("m:" + v);
  }

  /** `p:` sets `padding` to the spacing decoder's value. */
  lemma PaddingToken(v: string)
    requires AnyChars(v)
    ensures Resolve("p:" + v) == Some([Entry("padding", Str(HandleSpacing(v)))])
  {
    OneApplied("p:", AnyPlus, "padding", Spacing, v);
    ReachPadding("p:" + v);
  }

  /** `c:` sets `color` to the color decoder's value. */
  lemma ColorToken(v: string)
    requires AnyChars(v)
    ensures Resolve("c:" + v) == Some([Entry("color", Str(HandleColor(v)))])
  {
    OneApplied("c:", AnyPlus, "color", Color, v);
    ReachColor("c:" + v);
  }

  /** `b:` sets `border` to the border decoder's value. */
  lemma BorderToken(v: string)
    requires AnyChars(v)
    ensures Resolve("b:" + v) == Some([Entry("border", Str(HandleBorder(v)))])
  {
    OneApplied("b:", AnyPlus, "border", Border, v);
    ReachBorder("b:" + v);
  }

  /** The weight rule sets `font-weight` to the weight decoder's value. */
  lemma WeightApplied(w: string)
    requires Word(w)
    ensures RuleResult(WeightRule, "fw:" + w) == Some([Entry("font-weight", FontWeightAsWritten(w))])
  {
    var t := "fw:" + w;
    assert "fw:" <= t && t[3..] == w;
  }

  /** `fw:` and a word sets `font-weight` to the weight decoder's value: the
      table number for a keyword, the word itself otherwise. */
  lemma FontWeightToken(w: string)
    requires Word(w)
    ensures Resolve("fw:" + w) == Some([Entry("font-weight", FontWeightAsWritten(w))])
    ensures WeightNumber(w).Some? ==> Resolve("fw:" + w) == Some([Entry("font-weight", Num(WeightNumber(w).value))])
    ensures WeightNumber(w).None? ==> Resolve("fw:" + w) == Some([Entry("font-weight", Str(w))])
  {
    WeightApplied(w);
    ReachFontWeight("fw:" + w);
  }

  /** `size:` sets `width` and `height`, both to the side length of the value. */
  lemma SizeToken(v: string)
    requires AnyChars(v)
    ensures Resolve("size:" + v) == Some([Entry("width", Str(ParseSidelength(v))), Entry("height", Str(ParseSidelength(v)))])
  {
    SizeRuleValue(v);
    ReachSize("size:" + v);
  }

  lemma SizeRuleValue(v: string)
    requires AnyChars(v)
    ensures RuleResult(SizeRule, "size:" + v) == Some([Entry("width", Str(ParseSidelength(v))), Entry("height", Str(ParseSidelength(v)))])
  {
    var t := "size:" + v;
    assert "size:" <= t && t[5..] == v;
    var d := [Entry("width", Str(ParseSidelength(v))), Entry("height", Str(ParseSidelength(v)))];
    assert seq(2, i requires 0 <= i < 2 => Entry(["width", "height"][i], Str(ParseSidelength(v)))) == d;
    ObjectDistinct(d);
  }

  /** `scroll:hide` hides the scrollbar in all three engines' ways. */
  lemma ScrollToken()
    ensures Resolve("scroll:hide") == Some([
      Entry("&::-webkit-scrollbar", Nested([Entry("display", Str("none"))])),
      Entry("-ms-overflow-style", Str("none")),
      Entry("scrollbar-width", Str("none"))])
  {
    ReachScroll("scroll:hide");
  }

  // ----- fields free of the separator -----

  lemma WordBarFree(s: string)
    requires Word(s)
    ensures '|' !in s
  {
    forall j | 0 <= j < |s| ensures s[j] != '|' {
      assert IsWordChar(s[j]);
    }
  }

  lemma AllDigitsBarFree(s: string)
    requires AllDigits(s)
    ensures '|' !in s
  {
    forall j | 0 <= j < |s| ensures s[j] != '|' {
      assert IsDigit(s[j]);
    }
  }

  lemma SignedDigitsBarFree(s: string)
    requires SignedDigits(s)
    ensures '|' !in s
  {
    if |s| > 0 && s[0] == '-' {
      AllDigitsBarFree(s[1..]);
      assert s == [s[0]] + s[1..];
    } else {
      AllDigitsBarFree(s);
    }
  }

  lemma DecimalBarFree(s: string)
    requires DecimalLiteral(s)
    ensures '|' !in s
  {
    var parts := Split(s, '.');
    JoinSplit(s, '.');
    if '|' in s {
      JoinChars(parts, '.', '|');
      var i :| 0 <= i < |parts| && '|' in parts[i];
      AllDigitsBarFree(parts[i]);
    }
  }

  lemma AmountBarFree(s: string)
    requires Amount(s)
    ensures '|' !in s
  {
    var unsigned := if |s| > 0 && s[0] == '-' then s[1..] else s;
    var number := if |unsigned| > 0 && unsigned[|unsigned| - 1] == '%' then unsigned[..|unsigned| - 1] else unsigned;
    DecimalBarFree(number);
    assert unsigned == number || unsigned == number + [unsigned[|unsigned| - 1]];
    assert s == unsigned || s == [s[0]] + unsigned;
  }

  // ----- positioned boxes: `abs:` and `fixed:` -----

  const SideNames: seq<string> := ["top", "right", "bottom", "left"]

  /** `position` set, then the four offsets in CSS box order. */
  function Positioned(position: string, offsets: seq<Value>): (d: Decl)
    requires |offsets| == 4
    ensures |d| == 5 && d[0] == Entry("position", Str(position))
    ensures forall i :: 0 <= i < 4 ==> d[i + 1] == Entry(SideNames[i], offsets[i])
  {
    [Entry("position", Str(position))] + seq(4, i requires 0 <= i < 4 => Entry(SideNames[i], offsets[i]))
  }

  /** The i-th `|`-separated field, when it is there and not empty. */
  function Given(fs: seq<string>, i: nat): Option<string> {
    if i < |fs| && fs[i] != "" then Some(fs[i]) else None
  }

  function PixelsIfGiven(fs: seq<string>, i: nat): Value {
    match Given(fs, i)
    case Some(x) => Str(x + "px")
    case None => Absent
  }

  function PercentOrPixels(x: string): string {
    if '%' in x then x else x + "px"
  }

  function AbsoluteOffset(fs: seq<string>, i: nat): Value {
    match Given(fs, i)
    case Some(x) => Str(PercentOrPixels(x))
    case None => Absent
  }

  function FixedSides(fs: seq<string>): (vs: seq<Value>)
    ensures |vs| == 4
  {
    [PixelsIfGiven(fs, 0), PixelsIfGiven(fs, 1), PixelsIfGiven(fs, 2), PixelsIfGiven(fs, 3)]
  }

  function AbsoluteSides(fs: seq<string>): (vs: seq<Value>)
    ensures |vs| == 4
  {
    [AbsoluteOffset(fs, 0), AbsoluteOffset(fs, 1), AbsoluteOffset(fs, 2), AbsoluteOffset(fs, 3)]
  }

  predicate BarFree(fs: seq<string>) {
    forall i :: 0 <= i < |fs| ==> '|' !in fs[i]
  }

  lemma FixedBarFree(fs: seq<string>)
    requires FixedFields(fs)
    ensures BarFree(fs)
  {
    forall i | 0 <= i < |fs| ensures '|' !in fs[i] {
      AllDigitsBarFree(fs[i]);
    }
  }

  /** A prefix and `|`-separated fields free of `|` split back into the fields. */
  lemma SplitFields(prefix: string, fs: seq<string>)
    requires |fs| >= 1 && BarFree(fs)
    ensures prefix <= prefix + Join(fs, "|")
    ensures Split((prefix + Join(fs, "|"))[|prefix|..], '|') == fs
  {
    assert (prefix + Join(fs, "|"))[|prefix|..] == Join(fs, "|");
    SplitJoin(fs, '|');
  }

  lemma FixedShapeSplits(t: string)
    requires "fixed:" <= t
    ensures Match(FixedShape, t) == FixedGroups(Split(t[6..], '|'))
  {
  }

  lemma FixedMatch(fs: seq<string>)
    requires FixedFields(fs)
    ensures Match(FixedShape, "fixed:" + Join(fs, "|")) == FixedGroups(fs)
  {
    FixedBarFree(fs);
    SplitFields("fixed:", fs);
    FixedShapeSplits("fixed:" + Join(fs, "|"));
  }

  lemma FixedRuleSides(fs: seq<string>)
    requires FixedFields(fs)
    ensures RuleResult(FixedRule, "fixed:" + Join(fs, "|")) == Some(Positioned("fixed", FixedSides(fs)))
  {
    FixedMatch(fs);
    var g := [NonEmptyField(fs, 0), Field(fs, 1), Field(fs, 2), Field(fs, 3)];
    assert FixedGroups(fs) == Some(g);
    assert RuleResult(FixedRule, "fixed:" + Join(fs, "|")) == Some(Apply(Handler.FixedOffsets, g));
    FixedApply(fs);
  }

  lemma FixedApply(fs: seq<string>)
    requires FixedFields(fs)
    ensures Apply(Handler.FixedOffsets, [NonEmptyField(fs, 0), Field(fs, 1), Field(fs, 2), Field(fs, 3)]) == Positioned("fixed", FixedSides(fs))
  {
  }

  /** `fixed:` and up to four `|`-separated whole numbers: fixed
      positioning, each offset in pixels when given, unset when missing or
      (the first one only) empty. */
  lemma FixedToken(fs: seq<string>)
    requires FixedFields(fs)
    ensures Resolve("fixed:" + Join(fs, "|")) == Some(Positioned("fixed", FixedSides(fs)))
  {
    FixedRuleSides(fs);
    ReachFixed("fixed:" + Join(fs, "|"));
  }

  lemma AbsoluteShapeSplits(t: string)
    requires "abs:" <= t
    ensures Match(AbsoluteShape, t) == AbsoluteGroups(Split(t[4..], '|'))
  {
  }

  lemma AbsoluteMatch(fs: seq<string>)
    requires 1 <= |fs| <= 4 && BarFree(fs)
    ensures Match(AbsoluteShape, "abs:" + Join(fs, "|")) == AbsoluteGroups(fs)
  {
    SplitFields("abs:", fs);
    AbsoluteShapeSplits("abs:" + Join(fs, "|"));
  }

  lemma AbsoluteRuleSides(fs: seq<string>)
    requires 1 <= |fs| <= 4 && BarFree(fs)
    ensures RuleResult(AbsoluteRule, "abs:" + Join(fs, "|")) == Some(Positioned("absolute", AbsoluteSides(fs)))
  {
    AbsoluteMatch(fs);
    var g := [NonEmptyField(fs, 0), NonEmptyField(fs, 1), NonEmptyField(fs, 2), Field(fs, 3)];
    assert AbsoluteGroups(fs) == Some(g);
    assert RuleResult(AbsoluteRule, "abs:" + Join(fs, "|")) == Some(Apply(Absolute, g));
    AbsoluteApply(fs);
  }

  lemma AbsoluteApply(fs: seq<string>)
    ensures Apply(Absolute, [NonEmptyField(fs, 0), NonEmptyField(fs, 1), NonEmptyField(fs, 2), Field(fs, 3)]) == Positioned("absolute", AbsoluteSides(fs))
  {
  }

  lemma ResolvesAbsolute(t: string, d: Decl)
    requires "abs:" <= t && RuleResult(AbsoluteRule, t) == Some(d)
    ensures Resolve(t) == Some(d)
  {
    ReachAbsolute(t);
  }

  /** `abs:` and up to four `|`-separated fields: absolute positioning,
      each offset taken as it is when it holds `%`, in pixels otherwise,
      and unset when missing or empty. */
  lemma AbsoluteToken(fs: seq<string>)
    requires 1 <= |fs| <= 4 && BarFree(fs)
    ensures Resolve("abs:" + Join(fs, "|")) == Some(Positioned("absolute", AbsoluteSides(fs)))
  {
    AbsoluteRuleSides(fs);
    ResolvesAbsolute("abs:" + Join(fs, "|"), Positioned("absolute", AbsoluteSides(fs)));
  }

  // ----- `translate:` -----

  /** An axis of `translate()`: the amount as it is when it holds `%`, in
      pixels otherwise, and `0` when missing or empty. */
  function TranslateAxis(fs: seq<string>, i: nat): string {
    match Given(fs, i)
    case Some(x) => PercentOrPixels(x)
    case None => "0"
  }

  lemma TranslateBarFree(fs: seq<string>)
    requires TranslateFields(fs)
    ensures BarFree(fs)
  {
    if fs[0] != "" {
      AmountBarFree(fs[0]);
    }
    if |fs| == 2 {
      AmountBarFree(fs[1]);
    }
  }

  lemma TranslateShapeSplits(t: string)
    requires "translate:" <= t
    ensures Match(TranslateShape, t) == TranslateGroups(Split(t[10..], '|'))
  {
  }

  lemma TranslateMatch(fs: seq<string>)
    requires TranslateFields(fs)
    ensures Match(TranslateShape, "translate:" + Join(fs, "|")) == TranslateGroups(fs)
  {
    TranslateBarFree(fs);
    SplitFields("translate:", fs);
    TranslateShapeSplits("translate:" + Join(fs, "|"));
  }

  function TranslateParts(fs: seq<string>): seq<Part> {
    [NonEmptyField(fs, 0), if |fs| == 2 then Text("|" + fs[1]) else Undefined, Field(fs, 1)]
  }

  lemma TranslateApply(fs: seq<string>)
    ensures Apply(Translate, TranslateParts(fs)) == [Entry("transform", Str("translate(" + TranslateAxis(fs, 0) + ", " + TranslateAxis(fs, 1) + ")"))]
  {
  }

  lemma TranslateRuleAxes(fs: seq<string>)
    requires TranslateFields(fs)
    ensures RuleResult(TranslateRule, "translate:" + Join(fs, "|")) == Some([Entry("transform", Str("translate(" + TranslateAxis(fs, 0) + ", " + TranslateAxis(fs, 1) + ")"))])
  {
    TranslateMatch(fs);
    assert TranslateGroups(fs) == Some(TranslateParts(fs));
    assert RuleResult(TranslateRule, "translate:" + Join(fs, "|")) == Some(Apply(Translate, TranslateParts(fs)));
    TranslateApply(fs);
  }

  lemma ResolvesTranslate(t: string, d: Decl)
    requires "translate:" <= t && RuleResult(TranslateRule, t) == Some(d)
    ensures Resolve(t) == Some(d)
  {
    ReachTranslate(t);
  }

  /** `translate:X` or `translate:X|Y` sets `transform` to `translate(X, Y)`,
      an axis that is missing or empty becoming `0`. */
  lemma TranslateToken(fs: seq<string>)
    requires TranslateFields(fs)
    ensures Resolve("translate:" + Join(fs, "|")) == Some([Entry("transform", Str("translate(" + TranslateAxis(fs, 0) + ", " + TranslateAxis(fs, 1) + ")"))])
  {
    TranslateRuleAxes(fs);
    ResolvesTranslate("translate:" + Join(fs, "|"), [Entry("transform", Str("translate(" + TranslateAxis(fs, 0) + ", " + TranslateAxis(fs, 1) + ")"))]);
  }

  // ----- `stroke:` -----

  lemma StrokeShapeSplits(t: string)
    requires "stroke:" <= t
    ensures Match(StrokeShape, t) == StrokeGroups(Split(t[7..], '|'))
  {
  }

  lemma StrokeMatch(fs: seq<string>)
    requires StrokeFields(fs)
    ensures Match(StrokeShape, "stroke:" + Join(fs, "|")) == StrokeGroups(fs)
  {
    WordBarFree(fs[0]);
    if |fs| == 2 {
      AllDigitsBarFree(fs[1]);
    }
    SplitFields("stroke:", fs);
    StrokeShapeSplits("stroke:" + Join(fs, "|"));
  }

  /** The stroke word, and the width in pixels when one is given. */
  function StrokeDecl(fs: seq<string>): Decl
    requires |fs| >= 1
  {
    [Entry("stroke", Str(fs[0])), Entry("stroke-width", if |fs| == 2 then Str(fs[1] + "px") else Absent)]
  }

  lemma StrokeRuleDecl(fs: seq<string>)
    requires StrokeFields(fs)
    ensures RuleResult(StrokeRule, "stroke:" + Join(fs, "|")) == Some(StrokeDecl(fs))
  {
    StrokeMatch(fs);
    var g := [Field(fs, 0), Field(fs, 1)];
    assert StrokeGroups(fs) == Some(g);
    assert RuleResult(StrokeRule, "stroke:" + Join(fs, "|")) == Some(Apply(Stroke, g));
  }

  lemma ResolvesStroke(t: string, d: Decl)
    requires "stroke:" <= t && RuleResult(StrokeRule, t) == Some(d)
    ensures Resolve(t) == Some(d)
  {
    ReachStroke(t);
  }

  /** `stroke:W` sets the stroke to the word W and leaves the width unset;
      `stroke:W|N` also sets `stroke-width` to N pixels. */
  lemma StrokeToken(fs: seq<string>)
    requires StrokeFields(fs)
    ensures Resolve("stroke:" + Join(fs, "|")) == Some(StrokeDecl(fs))
  {
    StrokeRuleDecl(fs);
    ResolvesStroke("stroke:" + Join(fs, "|"), StrokeDecl(fs));
  }

  // ----- `shadow:` -----

  /** `box-shadow` of four offsets in pixels and an `rgba()` color. */
  function ShadowValue(xs: seq<string>, color: string): string
    requires |xs| == 4
  {
    Join(Pixels(xs), " ") + " rgba(" + color + ")"
  }

  predicate ShadowArgs(xs: seq<string>, color: string) {
    |xs| == 4 && (forall i :: 0 <= i < 4 ==> SignedDigits(xs[i])) && color != "" && ')' !in color
  }

  function ShadowToken(xs: seq<string>, color: string): string {
    "shadow:" + Join(xs + ["(" + color + ")"], "|")
  }

  lemma ShadowShapeSplits(t: string)
    requires "shadow:" <= t
    ensures Match(ShadowShape, t) == ShadowGroups(Split(t[7..], '|'))
  {
  }

  lemma ShadowSplit(xs: seq<string>, color: string)
    requires ShadowArgs(xs, color)
    ensures "shadow:" <= ShadowToken(xs, color)
    ensures Split(ShadowToken(xs, color)[7..], '|') == xs + Split("(" + color + ")", '|')
  {
    var t := ShadowToken(xs, color);
    assert t[7..] == Join(xs + ["(" + color + ")"], "|");
    forall i | 0 <= i < |xs| ensures '|' !in xs[i] {
      SignedDigitsBarFree(xs[i]);
    }
    SplitJoinFront(xs, "(" + color + ")", '|');
  }

  lemma ShadowFieldsOf(xs: seq<string>, color: string)
    requires ShadowArgs(xs, color)
    ensures ShadowGroups(xs + Split("(" + color + ")", '|')) == Some([Text(xs[0]), Text(xs[1]), Text(xs[2]), Text(xs[3]), Text(color)])
  {
    var r := "(" + color + ")";
    var f := xs + Split(r, '|');
    assert f[4..] == Split(r, '|');
    JoinSplit(r, '|');
    assert r[1..|r| - 1] == color;
    assert Parenthesised(Join(f[4..], "|"));
  }

  lemma ShadowApply(xs: seq<string>, color: string)
    requires |xs| == 4
    ensures Apply(Shadow, [Text(xs[0]), Text(xs[1]), Text(xs[2]), Text(xs[3]), Text(color)]) == [Entry("box-shadow", Str(ShadowValue(xs, color)))]
  {
    var ps := Pixels(xs);
    Join4(ps[0], ps[1], ps[2], ps[3]);
    assert [ps[0], ps[1], ps[2], ps[3]] == ps;
    PixelsSpaced(xs[0], xs[1], xs[2], xs[3], color);
  }

  lemma PixelsSpaced(a: string, b: string, c: string, d: string, color: string)
    ensures a + "px " + b + "px " + c + "px " + d + "px rgba(" + color + ")" ==
            (a + "px") + " " + (b + "px") + " " + (c + "px") + " " + (d + "px") + " rgba(" + color + ")"
  {
    assert a + "px " == (a + "px") + " ";
    assert a + "px " + b + "px " == (a + "px") + " " + (b + "px") + " ";
    assert a + "px " + b + "px " + c + "px " == (a + "px") + " " + (b + "px") + " " + (c + "px") + " ";
    assert a + "px " + b + "px " + c + "px " + d + "px rgba(" == (a + "px") + " " + (b + "px") + " " + (c + "px") + " " + (d + "px") + " rgba(";
  }

  lemma ShadowRuleValue(xs: seq<string>, color: string)
    requires ShadowArgs(xs, color)
    ensures RuleResult(ShadowRule, ShadowToken(xs, color)) == Some([Entry("box-shadow", Str(ShadowValue(xs, color)))])
  {
    ShadowSplit(xs, color);
    ShadowShapeSplits(ShadowToken(xs, color));
    ShadowFieldsOf(xs, color);
    ShadowApply(xs, color);
  }

  lemma ResolvesShadow(t: string, d: Decl)
    requires "shadow:" <= t && RuleResult(ShadowRule, t) == Some(d)
    ensures Resolve(t) == Some(d)
  {
    ReachShadow(t);
  }

  /** `shadow:X|Y|B|S|(C)` sets `box-shadow` to the four lengths in pixels
      and the color C inside `rgba()`; C may itself hold `|`. */
  lemma ShadowIsBoxShadow(xs: seq<string>, color: string)
    requires ShadowArgs(xs, color)
    ensures Resolve(ShadowToken(xs, color)) == Some([Entry("box-shadow", Str(ShadowValue(xs, color)))])
  {
    ShadowRuleValue(xs, color);
    ShadowSplit(xs, color);
    ResolvesShadow(ShadowToken(xs, color), [Entry("box-shadow", Str(ShadowValue(xs, color)))]);
  }

  // ----- `flex` -----

  /** The direction modifiers the flex shape accepts, as captured. */
  predicate FlexKind(kind: Part) {
    kind == Undefined || kind == Text("col") || kind == Text("inline")
  }

  /** How a token spells its direction modifier. */
  function FlexSuffix(kind: Part): string {
    if kind == Text("col") then "-col" else if kind == Text("inline") then "-inline" else ""
  }

  lemma FlexShapeSplits(t: string)
    requires "flex" <= t
    ensures Match(FlexShape, t) == FlexGroups(t[4..])
  {
  }

  lemma FlexGroupsValue(kind: Part, v: string)
    requires FlexKind(kind) && AnyChars(v)
    ensures FlexGroups(FlexSuffix(kind) + ":" + v) == Some([kind, Text(v)])
  {
    var rest := FlexSuffix(kind) + ":" + v;
    assert (":" + v)[1..] == v;
    if kind == Text("col") {
      assert "-col" <= rest && rest[4..] == ":" + v;
    } else if kind == Text("inline") {
      assert rest[0] == '-' && rest[1] == 'i';
      assert "-inline" <= rest && rest[7..] == ":" + v;
    } else {
      assert rest == ":" + v && rest[0] == ':';
    }
  }

  lemma FlexGroupsBare(kind: Part)
    requires FlexKind(kind)
    ensures FlexGroups(FlexSuffix(kind)) == Some([kind, Undefined])
  {
    var rest := FlexSuffix(kind);
    if kind == Text("col") {
      assert "-col" <= rest && rest[4..] == "";
    } else if kind == Text("inline") {
      assert rest[1] == 'i';
      assert "-inline" <= rest && rest[7..] == "";
    }
  }

  /** The flex rule hands its two groups, direction then value, to the flex decoder. */
  lemma FlexRuleGroups(t: string, g: seq<Part>)
    requires Match(FlexShape, t) == Some(g) && |g| == 2
    ensures RuleResult(FlexRule, t) == Some(FlexStylesAsWritten(g[1], g[0]))
  {
  }

  lemma FlexRuleValue(kind: Part, v: string)
    requires FlexKind(kind) && AnyChars(v)
    ensures RuleResult(FlexRule, "flex" + FlexSuffix(kind) + ":" + v) == Some(FlexStylesAsWritten(Text(v), kind))
  {
    var t := "flex" + FlexSuffix(kind) + ":" + v;
    assert "flex" <= t && t[4..] == FlexSuffix(kind) + ":" + v;
    FlexShapeSplits(t);
    FlexGroupsValue(kind, v);
    FlexRuleGroups(t, [kind, Text(v)]);
  }

  lemma FlexRuleBare(kind: Part)
    requires FlexKind(kind)
    ensures RuleResult(FlexRule, "flex" + FlexSuffix(kind)) == Some(FlexStylesAsWritten(Undefined, kind))
  {
    var t := "flex" + FlexSuffix(kind);
    assert "flex" <= t && t[4..] == FlexSuffix(kind);
    FlexShapeSplits(t);
    FlexGroupsBare(kind);
    FlexRuleGroups(t, [kind, Undefined]);
  }

  lemma ResolvesFlex(t: string, d: Decl)
    requires "flex" <= t && RuleResult(FlexRule, t) == Some(d)
    ensures Resolve(t) == Some(d)
  {
    ReachFlex(t);
  }

  /** `flex`, `flex-col` or `flex-inline` and `:value` lay out by the flex
      decoder with that value and direction. */
  lemma FlexToken(kind: Part, v: string)
    requires FlexKind(kind) && AnyChars(v)
    ensures Resolve("flex" + FlexSuffix(kind) + ":" + v) == Some(FlexStylesAsWritten(Text(v), kind))
  {
    FlexRuleValue(kind, v);
    ResolvesFlex("flex" + FlexSuffix(kind) + ":" + v, FlexStylesAsWritten(Text(v), kind));
  }

  /** `flex`, `flex-col` and `flex-inline` alone give the container only. */
  lemma FlexBareToken(kind: Part)
    requires FlexKind(kind)
    ensures Resolve("flex" + FlexSuffix(kind)) == Some(FlexBase(kind))
  {
    FlexRuleBare(kind);
    assert FlexStylesAsWritten(Undefined, kind) == FlexBase(kind);
    ResolvesFlex("flex" + FlexSuffix(kind), FlexStylesAsWritten(Undefined, kind));
  }
}
