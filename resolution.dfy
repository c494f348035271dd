/**
 * Properties of resolving a token against the rule table: the first
 * matching rule decides, every declaration is well formed, and each rule
 * with a shape of its own is the one that resolves the tokens of that
 * shape.
 */
module Resolution {
  import opened Options
  import opened JsString
  import opened JsNumber
  import opened Style
  import opened Decoders
  import opened Rules

  // ----- first match -----

  /** Rule i accepts the token and no rule before it does. */
  predicate FirstAccepting(rules: seq<Rule>, t: string, i: int) {
    0 <= i < |rules| && Match(rules[i].pattern, t).Some? &&
    forall j :: 0 <= j < i ==> Match(rules[j].pattern, t).None?
  }

  /** A declaration comes out exactly when some rule matches and no rule
      before it does; it is that rule's declaration. */
  lemma FirstMatchIsFirst(rules: seq<Rule>, t: string, d: Decl)
    ensures FirstMatch(rules, t) == Some(d) <==>
            exists i :: FirstAccepting(rules, t, i) && d == Apply(rules[i].handler, Match(rules[i].pattern, t).value)
  {
    if FirstMatch(rules, t) == Some(d) {
      FirstMatchFound(rules, t, d);
    }
    if exists i :: FirstAccepting(rules, t, i) && d == Apply(rules[i].handler, Match(rules[i].pattern, t).value) {
      var i :| FirstAccepting(rules, t, i) && d == Apply(rules[i].handler, Match(rules[i].pattern, t).value);
      FirstAcceptingDecides(rules, t, i);
    }
  }

  /** A declaration that comes out is the first accepting rule's. */
  lemma {:induction false} FirstMatchFound(rules: seq<Rule>, t: string, d: Decl)
    requires FirstMatch(rules, t) == Some(d)
    ensures exists i :: FirstAccepting(rules, t, i) && d == Apply(rules[i].handler, Match(rules[i].pattern, t).value)
  {
    if Match(rules[0].pattern, t).Some? {
      assert FirstAccepting(rules, t, 0);
    } else {
      FirstMatchFound(rules[1..], t, d);
      var i :| FirstAccepting(rules[1..], t, i) && d == Apply(rules[1..][i].handler, Match(rules[1..][i].pattern, t).value);
      assert rules[i + 1] == rules[1..][i];
      assert forall j :: 1 <= j < i + 1 ==> rules[j] == rules[1..][j - 1];
      assert FirstAccepting(rules, t, i + 1);
    }
  }

  /** The first accepting rule's declaration is what comes out. */
  lemma {:induction false} FirstAcceptingDecides(rules: seq<Rule>, t: string, i: int)
    requires FirstAccepting(rules, t, i)
    ensures FirstMatch(rules, t) == Some(Apply(rules[i].handler, Match(rules[i].pattern, t).value))
  {
    if i > 0 {
      assert rules[1..][i - 1] == rules[i];
      assert forall j :: 0 <= j < i - 1 ==> rules[1..][j] == rules[j + 1];
      assert FirstAccepting(rules[1..], t, i - 1);
      FirstAcceptingDecides(rules[1..], t, i - 1);
    }
  }

  /** Nothing comes out exactly when no rule matches. */
  lemma {:induction false} FirstMatchNone(rules: seq<Rule>, t: string)
    ensures FirstMatch(rules, t) == None <==> forall i :: 0 <= i < |rules| ==> Match(rules[i].pattern, t).None?
  {
    if rules != [] {
      FirstMatchNone(rules[1..], t);
      if Match(rules[0].pattern, t).None? {
        assert (forall i :: 0 <= i < |rules| ==> Match(rules[i].pattern, t).None?) <==>
               (forall i :: 0 <= i < |rules[1..]| ==> Match(rules[1..][i].pattern, t).None?) by {
          forall i | 0 <= i < |rules[1..]| ensures rules[1..][i] == rules[i + 1] { }
        }
      }
    }
  }

  /** The first match in a concatenation: the first part's, when it has one,
      the second part's otherwise. */
  lemma {:induction false} FirstMatchAppend(a: seq<Rule>, b: seq<Rule>, t: string)
    ensures FirstMatch(a + b, t) == if FirstMatch(a, t).Some? then FirstMatch(a, t) else FirstMatch(b, t)
  {
    if a == [] {
      assert a + b == b;
    } else {
      FirstMatchAppend(a[1..], b, t);
      assert (a + b)[1..] == a[1..] + b;
      assert (a + b)[0] == a[0];
    }
  }

  /** Resolving against the table is first-match: a declaration comes out
      exactly when some rule accepts the token and no earlier one does. */
  lemma ResolveIsFirstMatch(t: string, d: Decl)
    ensures Resolve(t) == Some(d) <==>
            exists i :: FirstAccepting(Table, t, i) && d == Apply(Table[i].handler, Match(Table[i].pattern, t).value)
    ensures Resolve(t) == None <==> forall i :: 0 <= i < |Table| ==> Match(Table[i].pattern, t).None?
  {
    FirstMatchIsFirst(Table, t, d);
    FirstMatchNone(Table, t);
  }

  // ----- every declaration is well formed -----

  /** The flex container after its table lookups holds each key once and only strings. */
  lemma FlexAlignedGood(v: string, kind: Part)
    ensures DistinctKeys(FlexAligned(v, kind)) && AllGood(FlexAligned(v, kind))
  {
    var base := FlexBase(kind);
    var j := JustifyOption(Split(v, '|')[0]);
    if j.Some? {
      AssignDistinct(base, "justify-content", Str(j.value));
      AssignGood(base, "justify-content", Str(j.value));
    }
    var a := AlignOption(AlignPart(v));
    if a.Some? {
      AssignDistinct(FlexJustified(v, kind), "align-items", Str(a.value));
      AssignGood(FlexJustified(v, kind), "align-items", Str(a.value));
    }
  }

  /** The flex declaration, whichever lone-centre test it uses, holds each
      key once and only strings. */
  lemma FlexGood(value: Part, kind: Part, unset: Part)
    ensures DistinctKeys(FlexWith(value, kind, unset)) && AllGood(FlexWith(value, kind, unset))
  {
    if Truthy(value) && !IsNumeric(value.s) {
      var withAlign := FlexAligned(value.s, kind);
      FlexAlignedGood(value.s, kind);
      AssignDistinct(withAlign, "justify-content", Str("center"));
      AssignGood(withAlign, "justify-content", Str("center"));
      var once := Assign(withAlign, "justify-content", Str("center"));
      AssignDistinct(once, "align-items", Str("center"));
      AssignGood(once, "align-items", Str("center"));
    }
  }

  /** The only numbers a declaration holds are `font-weight` values taken
      from the weight table. */
  predicate WeightNumbersOnly(d: Decl) {
    forall i :: 0 <= i < |d| && d[i].value.Num? ==> d[i].key == "font-weight" && d[i].value.n in WeightValues
  }

  /** Every handler builds a well-formed declaration, and only the weight
      handler ever puts a number in it, a table weight under `font-weight`. */
  lemma ApplyGood(h: Handler, g: seq<Part>)
    ensures WellFormed(Apply(h, g)) && WeightNumbersOnly(Apply(h, g))
    ensures !NoNumbers(Apply(h, g)) ==> h == FontWeightOf
  {
    match h
    case Assigns(keys, c) =>
      var v := Converted(c, GroupText(g, 0));
      ObjectWellFormed(seq(|keys|, i requires 0 <= i < |keys| => Entry(keys[i], Str(v))));
    case Constant(fields) =>
      ObjectWellFormed(seq(|fields|, i requires 0 <= i < |fields| => Entry(fields[i].0, Str(fields[i].1))));
    case Flex =>
      FlexGood(Group(g, 1), Group(g, 0), Null);
    case FontWeightOf =>
      FontWeightAsWrittenPrints(GroupText(g, 0));
    case ScrollHide =>
      var d := Apply(h, g);
      assert WellFormed(d[0].value.body);
    case Absolute => AbsoluteGood(g);
    case FixedOffsets => FixedGood(g);
    case _ =>
  }

  /** The four sides of the two positioning handlers are distinct keys. */
  lemma AbsoluteGood(g: seq<Part>)
    ensures WellFormed(Apply(Absolute, g)) && NoNumbers(Apply(Absolute, g))
  {
    SidesDistinct(Apply(Absolute, g), "absolute");
  }

  lemma FixedGood(g: seq<Part>)
    ensures WellFormed(Apply(FixedOffsets, g)) && NoNumbers(Apply(FixedOffsets, g))
  {
    SidesDistinct(Apply(FixedOffsets, g), "fixed");
  }

  /** A position followed by the four sides holds each key once. */
  lemma SidesDistinct(d: Decl, position: string)
    requires |d| == 5 && d[0] == Entry("position", Str(position))
    requires d[1].key == "top" && d[2].key == "right" && d[3].key == "bottom" && d[4].key == "left"
    requires forall i :: 1 <= i < 5 ==> !d[i].value.Num? && !d[i].value.Nested?
    ensures WellFormed(d) && NoNumbers(d)
  {
  }

  /** Whatever a list of rules resolves a token to is well formed. */
  lemma {:induction false} FirstMatchGood(rules: seq<Rule>, t: string)
    ensures FirstMatch(rules, t).Some? ==> WellFormed(FirstMatch(rules, t).value) && WeightNumbersOnly(FirstMatch(rules, t).value)
  {
    if rules != [] {
      match Match(rules[0].pattern, t)
      case Some(g) => ApplyGood(rules[0].handler, g);
      case None => FirstMatchGood(rules[1..], t);
    }
  }

  /** Every resolved declaration holds each key once, in nested objects
      too, and its only numbers are table weights under `font-weight`;
      every other value is a string, unset or a nested object. */
  lemma ResolveWellFormed(t: string)
    ensures Resolve(t).Some? ==> WellFormed(Resolve(t).value) && WeightNumbersOnly(Resolve(t).value)
  {
    FirstMatchGood(Table, t);
  }

  // ----- which rule a token reaches -----

  /** The declaration a single rule makes of a token, if it matches. */
  function RuleResult(rule: Rule, t: string): Option<Decl> {
    match Match(rule.pattern, t)
    case Some(g) => Some(Apply(rule.handler, g))
    case None => None
  }

  /** The literal text every token a pattern accepts starts with. */
  function Head(p: Pattern): string {
    match p
    case Keyword(w) => w
    case Prefixed(prefix, _) => prefix
    case FlexShape => "flex"
    case RadiusShape => "r:"
    case ShadowShape => "shadow:"
    case AbsoluteShape => "abs:"
    case FixedShape => "fixed:"
    case TranslateShape => "translate:"
    case StrokeShape => "stroke:"
  }

  lemma MatchHead(p: Pattern, t: string)
    ensures Match(p, t).Some? ==> Head(p) <= t
  {
  }

  /** The first two characters of a token. */
  function Lead(s: string): (char, char)
    requires |s| >= 2
  {
    (s[0], s[1])
  }

  /** Every rule of the run has a head whose first two characters are in keys. */
  predicate Keyed(rules: seq<Rule>, keys: set<(char, char)>) {
    forall i :: 0 <= i < |rules| ==> |Head(rules[i].pattern)| >= 2 && Lead(Head(rules[i].pattern)) in keys
  }

  predicate AllKeyed(runs: seq<seq<Rule>>, leads: seq<set<(char, char)>>) {
    |runs| == |leads| && forall k :: 0 <= k < |runs| ==> Keyed(runs[k], leads[k])
  }

  /** The first two characters of the heads of each run of the table. */
  const Leads: seq<set<(char, char)>> := [
    {('h', ':'), ('m', 'i'), ('m', 'a'), ('w', ':')},
    {('s', 'i')},
    {('c', ':'), ('b', 'g')},
    {('m', ':'), ('m', 'x'), ('m', 'y'), ('m', 't'), ('m', 'r'), ('m', 'b'), ('m', 'l')},
    {('p', ':'), ('p', 'x'), ('p', 'y'), ('p', 't'), ('p', 'r'), ('p', 'b'), ('p', 'l')},
    {('f', ':'), ('l', 'h'), ('f', 'w'), ('b', 'o'), ('s', 'e'), ('r', 'e'), ('m', 'e'), ('f', 'f'), ('p', 'r')},
    {('f', 'l')},
    {('f', 'l'), ('g', 'a'), ('b', 'l'), ('i', 'n')},
    {('t', 't'), ('u', 'p'), ('l', 'o'), ('c', 'a'), ('t', 'd'), ('u', 'n'), ('l', 'i'), ('n', 'o')},
    {('c', 'u'), ('p', 'o'), ('t', 'a'), ('n', 'o'), ('e', 'l')},
    {('b', ':'), ('b', 'b'), ('b', 't'), ('b', 'r'), ('b', 'l')},
    {('r', ':')},
    {('o', 'u'), ('o', ':'), ('o', 'f')},
    {('s', 'h')},
    {('z', ':'), ('a', 'p'), ('n', 'o'), ('h', 'i'), ('r', 'e')},
    {('a', 'b')},
    {('f', 'i')},
    {('b', 'o'), ('t', 'o'), ('l', 'e'), ('r', 'i')},
    {('t', 'r')},
    {('s', 't')},
    {('s', 'c')}
  ]

  lemma SideKeyed() ensures Keyed(SideRules, Leads[0]) { }
  lemma ColorKeyed() ensures Keyed(ColorRules, Leads[2]) { }
  lemma MarginKeyed() ensures Keyed(MarginRules, Leads[3]) { }
  lemma PaddingKeyed() ensures Keyed(PaddingRules, Leads[4]) { }
  lemma TypeKeyed() ensures Keyed(TypeRules, Leads[5]) { }
  lemma LayoutKeyed() ensures Keyed(LayoutRules, Leads[7]) { }
  lemma TransformKeyed() ensures Keyed(TransformRules, Leads[8]) { }
  lemma CursorKeyed() ensures Keyed(CursorRules, Leads[9]) { }
  lemma BorderKeyed() ensures Keyed(BorderRules, Leads[10]) { }
  lemma OverflowKeyed() ensures Keyed(OverflowRules, Leads[12]) { }
  lemma MiscKeyed() ensures Keyed(MiscRules, Leads[14]) { }
  lemma OffsetKeyed() ensures Keyed(OffsetRules, Leads[17]) { }

  lemma FrontKeyed()
    ensures forall k :: 0 <= k < 10 ==> Keyed(Runs[k], Leads[k])
  {
    forall k | 0 <= k < 10 ensures Keyed(Runs[k], Leads[k]) {
      if k == 0 { SideKeyed(); }
      else if k == 2 { ColorKeyed(); }
      else if k == 3 { MarginKeyed(); }
      else if k == 4 { PaddingKeyed(); }
      else if k == 5 { TypeKeyed(); }
      else if k == 7 { LayoutKeyed(); }
      else if k == 8 { TransformKeyed(); }
      else if k == 9 { CursorKeyed(); }
    }
  }

  lemma BackKeyed()
    ensures forall k :: 10 <= k < |Runs| ==> Keyed(Runs[k], Leads[k])
  {
    forall k | 10 <= k < |Runs| ensures Keyed(Runs[k], Leads[k]) {
      if k == 10 { BorderKeyed(); }
      else if k == 12 { OverflowKeyed(); }
      else if k == 14 { MiscKeyed(); }
      else if k == 17 { OffsetKeyed(); }
    }
  }

  /** Every rule of the table sits in a run whose lead pairs include its head's. */
  lemma TableKeyed()
    ensures AllKeyed(Runs, Leads)
  {
    FrontKeyed();
    BackKeyed();
  }

  /** A run whose heads all start otherwise than the token matches nothing. */
  lemma {:induction false} KeyedMisses(rules: seq<Rule>, keys: set<(char, char)>, t: string)
    requires Keyed(rules, keys) && |t| >= 2 && Lead(t) !in keys
    ensures FirstMatch(rules, t) == None
  {
    if rules != [] {
      MatchHead(rules[0].pattern, t);
      assert Keyed(rules[1..], keys) by {
        forall i | 0 <= i < |rules[1..]| ensures rules[1..][i] == rules[i + 1] { }
      }
      KeyedMisses(rules[1..], keys, t);
    }
  }

  /** Lead pair p starts no rule of any run but r. */
  predicate AloneIn(leads: seq<set<(char, char)>>, p: (char, char), r: nat) {
    forall k :: 0 <= k < |leads| && k != r ==> p !in leads[k]
  }

  /** Runs before run r that match nothing are skipped. */
  lemma {:induction false} SkipRuns(runs: seq<seq<Rule>>, t: string, r: nat)
    requires r <= |runs|
    requires forall k :: 0 <= k < r ==> FirstMatch(runs[k], t) == None
    ensures FirstMatch(Flatten(runs), t) == FirstMatch(Flatten(runs[r..]), t)
  {
    if r > 0 {
      FirstMatchAppend(runs[0], Flatten(runs[1..]), t);
      assert forall k :: 0 <= k < r - 1 ==> runs[1..][k] == runs[k + 1];
      SkipRuns(runs[1..], t, r - 1);
      assert runs[1..][r - 1..] == runs[r..];
    }
  }

  /** When every other run misses, run r decides. */
  lemma ByRun(runs: seq<seq<Rule>>, t: string, r: nat)
    requires r < |runs|
    requires forall k :: 0 <= k < |runs| && k != r ==> FirstMatch(runs[k], t) == None
    ensures FirstMatch(Flatten(runs), t) == FirstMatch(runs[r], t)
  {
    SkipRuns(runs, t, r);
    var tail := runs[r + 1..];
    assert forall k :: 0 <= k < |tail| ==> tail[k] == runs[r + 1 + k];
    SkipRuns(tail, t, |tail|);
    assert tail[|tail|..] == [];
    assert runs[r..][1..] == tail;
    FirstMatchAppend(runs[r], Flatten(tail), t);
  }

  /** Runs whose lead pairs do not hold the token's lead miss it. */
  lemma KeyedRunsMiss(runs: seq<seq<Rule>>, leads: seq<set<(char, char)>>, t: string, lo: nat, hi: nat, r: int)
    requires AllKeyed(runs, leads) && |t| >= 2 && lo <= hi <= |runs|
    requires forall k :: lo <= k < hi && k != r ==> Lead(t) !in leads[k]
    ensures forall k :: lo <= k < hi && k != r ==> FirstMatch(runs[k], t) == None
  {
    forall k | lo <= k < hi && k != r ensures FirstMatch(runs[k], t) == None {
      KeyedMisses(runs[k], leads[k], t);
    }
  }

  /** With every run keyed, a token whose lead no run but r has is decided by run r. */
  lemma DecidedBy(runs: seq<seq<Rule>>, leads: seq<set<(char, char)>>, t: string, r: nat)
    requires AllKeyed(runs, leads) && r < |runs| && |t| >= 2 && AloneIn(leads, Lead(t), r)
    ensures FirstMatch(Flatten(runs), t) == FirstMatch(runs[r], t)
  {
    KeyedRunsMiss(runs, leads, t, 0, |runs|, r);
    ByRun(runs, t, r);
  }

  /** With every run keyed, a token whose lead no run has matches nothing. */
  lemma DecidedByNone(runs: seq<seq<Rule>>, leads: seq<set<(char, char)>>, t: string)
    requires AllKeyed(runs, leads) && |t| >= 2 && forall k :: 0 <= k < |leads| ==> Lead(t) !in leads[k]
    ensures FirstMatch(Flatten(runs), t) == None
  {
    KeyedRunsMiss(runs, leads, t, 0, |runs|, -1);
    SkipRuns(runs, t, |runs|);
    assert runs[|runs|..] == [];
  }

  /** A token whose first two characters start no rule resolves to nothing. */
  lemma UnknownLead(t: string)
    requires |t| >= 2 && forall k :: 0 <= k < |Leads| ==> Lead(t) !in Leads[k]
    ensures Resolve(t) == None
  {
    TableKeyed();
    DecidedByNone(Runs, Leads, t);
  }

  /** A token that only run r can start is decided by run r alone. */
  lemma OnlyRun(t: string, r: nat)
    requires r < |Runs| && |t| >= 2 && Alone(Lead(t), r)
    ensures Resolve(t) == FirstMatch(Runs[r], t)
  {
    TableKeyed();
    DecidedBy(Runs, Leads, t, r);
  }

  /** A rule list that starts with a single matching rule yields that rule's declaration. */
  lemma FirstRule(rules: seq<Rule>, t: string)
    requires rules != [] && RuleResult(rules[0], t).Some?
    ensures FirstMatch(rules, t) == RuleResult(rules[0], t)
  {
  }

  lemma OneRule(rule: Rule, t: string)
    ensures FirstMatch([rule], t) == RuleResult(rule, t)
  {
    assert [rule][1..] == [];
  }

  /** Lead pair p starts no rule outside run r. */
  predicate Alone(p: (char, char), r: nat) {
    AloneIn(Leads, p, r)
  }

  /** A token that only run r can start, and that the run's first rule
      accepts, resolves by that rule. */
  lemma OnlyFirst(t: string, r: nat, rule: Rule)
    requires r < |Runs| && |t| >= 2 && Alone(Lead(t), r)
    requires Runs[r] != [] && Runs[r][0] == rule && RuleResult(rule, t).Some?
    ensures Resolve(t) == RuleResult(rule, t)
  {
    OnlyRun(t, r);
    FirstRule(Runs[r], t);
  }

  // Which run each family of tokens reaches. The first two characters
  // of the token name the run, and `Leads` shows that no other run starts so.

  lemma SizeAlone()
    ensures Alone(('s', 'i'), 1)
  {
  }

  lemma SizeHeads()
    ensures Runs[1] != [] && Runs[1][0] == SizeRule
  {
  }

  lemma ReachSize(t: string)
    requires |t| >= 2 && Lead(t) == ('s', 'i') && RuleResult(SizeRule, t).Some?
    ensures Resolve(t) == RuleResult(SizeRule, t)
  {
    SizeAlone();
    SizeHeads();
    OnlyFirst(t, 1, SizeRule);
  }

  lemma ColorAlone()
    ensures Alone(('c', ':'), 2)
  {
  }

  lemma ColorHeads()
    ensures Runs[2] != [] && Runs[2][0] == ColorRule
  {
  }

  lemma ReachColor(t: string)
    requires |t| >= 2 && Lead(t) == ('c', ':') && RuleResult(ColorRule, t).Some?
    ensures Resolve(t) == RuleResult(ColorRule, t)
  {
    ColorAlone();
    ColorHeads();
    OnlyFirst(t, 2, ColorRule);
  }

  lemma MarginAlone()
    ensures Alone(('m', ':'), 3)
  {
  }

  lemma MarginHeads()
    ensures Runs[3] != [] && Runs[3][0] == MarginRule
  {
  }

  lemma ReachMargin(t: string)
    requires |t| >= 2 && Lead(t) == ('m', ':') && RuleResult(MarginRule, t).Some?
    ensures Resolve(t) == RuleResult(MarginRule, t)
  {
    MarginAlone();
    MarginHeads();
    OnlyFirst(t, 3, MarginRule);
  }

  lemma PaddingAlone()
    ensures Alone(('p', ':'), 4)
  {
  }

  lemma PaddingHeads()
    ensures Runs[4] != [] && Runs[4][0] == PaddingRule
  {
  }

  lemma ReachPadding(t: string)
    requires |t| >= 2 && Lead(t) == ('p', ':') && RuleResult(PaddingRule, t).Some?
    ensures Resolve(t) == RuleResult(PaddingRule, t)
  {
    PaddingAlone();
    PaddingHeads();
    OnlyFirst(t, 4, PaddingRule);
  }

  lemma BorderAlone()
    ensures Alone(('b', ':'), 10)
  {
  }

  lemma BorderHeads()
    ensures Runs[10] != [] && Runs[10][0] == BorderRule
  {
  }

  lemma ReachBorder(t: string)
    requires |t| >= 2 && Lead(t) == ('b', ':') && RuleResult(BorderRule, t).Some?
    ensures Resolve(t) == RuleResult(BorderRule, t)
  {
    BorderAlone();
    BorderHeads();
    OnlyFirst(t, 10, BorderRule);
  }

  lemma ShadowAlone()
    ensures Alone(('s', 'h'), 13)
  {
  }

  lemma ShadowHeads()
    ensures Runs[13] != [] && Runs[13][0] == ShadowRule
  {
  }

  lemma ReachShadow(t: string)
    requires |t| >= 2 && Lead(t) == ('s', 'h') && RuleResult(ShadowRule, t).Some?
    ensures Resolve(t) == RuleResult(ShadowRule, t)
  {
    ShadowAlone();
    ShadowHeads();
    OnlyFirst(t, 13, ShadowRule);
  }

  lemma AbsoluteAlone()
    ensures Alone(('a', 'b'), 15)
  {
  }

  lemma AbsoluteHeads()
    ensures Runs[15] != [] && Runs[15][0] == AbsoluteRule
  {
  }

  lemma ReachAbsolute(t: string)
    requires |t| >= 2 && Lead(t) == ('a', 'b') && RuleResult(AbsoluteRule, t).Some?
    ensures Resolve(t) == RuleResult(AbsoluteRule, t)
  {
    AbsoluteAlone();
    AbsoluteHeads();
    OnlyFirst(t, 15, AbsoluteRule);
  }

  lemma FixedAlone()
    ensures Alone(('f', 'i'), 16)
  {
  }

  lemma FixedHeads()
    ensures Runs[16] != [] && Runs[16][0] == FixedRule
  {
  }

  lemma ReachFixed(t: string)
    requires |t| >= 2 && Lead(t) == ('f', 'i') && RuleResult(FixedRule, t).Some?
    ensures Resolve(t) == RuleResult(FixedRule, t)
  {
    FixedAlone();
    FixedHeads();
    OnlyFirst(t, 16, FixedRule);
  }

  lemma TranslateAlone()
    ensures Alone(('t', 'r'), 18)
  {
  }

  lemma TranslateHeads()
    ensures Runs[18] != [] && Runs[18][0] == TranslateRule
  {
  }

  lemma ReachTranslate(t: string)
    requires |t| >= 2 && Lead(t) == ('t', 'r') && RuleResult(TranslateRule, t).Some?
    ensures Resolve(t) == RuleResult(TranslateRule, t)
  {
    TranslateAlone();
    TranslateHeads();
    OnlyFirst(t, 18, TranslateRule);
  }

  lemma StrokeAlone()
    ensures Alone(('s', 't'), 19)
  {
  }

  lemma StrokeHeads()
    ensures Runs[19] != [] && Runs[19][0] == StrokeRule
  {
  }

  lemma ReachStroke(t: string)
    requires |t| >= 2 && Lead(t) == ('s', 't') && RuleResult(StrokeRule, t).Some?
    ensures Resolve(t) == RuleResult(StrokeRule, t)
  {
    StrokeAlone();
    StrokeHeads();
    OnlyFirst(t, 19, StrokeRule);
  }

  lemma ScrollAlone()
    ensures Alone(('s', 'c'), 20)
  {
  }

  lemma ScrollHeads()
    ensures Runs[20] != [] && Runs[20][0] == ScrollRule
  {
  }

  lemma ReachScroll(t: string)
    requires |t| >= 2 && Lead(t) == ('s', 'c') && RuleResult(ScrollRule, t).Some?
    ensures Resolve(t) == RuleResult(ScrollRule, t)
  {
    ScrollAlone();
    ScrollHeads();
    OnlyFirst(t, 20, ScrollRule);
  }

  lemma ReachFontWeight(t: string)
    requires |t| >= 2 && Lead(t) == ('f', 'w') && RuleResult(WeightRule, t).Some?
    ensures Resolve(t) == RuleResult(WeightRule, t)
  {
    WeightAlone();
    WeightHeads();
    OnlyRun(t, 5);
    FontWeightFirst(t);
  }

  lemma WeightAlone()
    ensures Alone(('f', 'w'), 5)
  {
  }

  lemma WeightHeads()
    ensures Runs[5] == TypeRules
  {
  }

  /** In its run, a `fw:` token passes the font size and line height rules. */
  lemma FontWeightFirst(t: string)
    requires |t| >= 2 && Lead(t) == ('f', 'w') && RuleResult(WeightRule, t).Some?
    ensures FirstMatch(TypeRules, t) == RuleResult(WeightRule, t)
  {
    MatchHead(TypeRules[0].pattern, t);
    MatchHead(TypeRules[1].pattern, t);
    assert TypeRules[1..][1..] == TypeRules[2..];
    FirstRule(TypeRules[2..], t);
  }

  /** Every token that the flex shape accepts takes the flex rule: the runs
      before it start otherwise. */
  lemma ReachFlex(t: string)
    requires |t| >= 2 && Lead(t) == ('f', 'l') && RuleResult(FlexRule, t).Some?
    ensures Resolve(t) == RuleResult(FlexRule, t)
  {
    TableKeyed();
    FlexLeadLater();
    KeyedRunsMiss(Runs, Leads, t, 0, 6, -1);
    SkipRuns(Runs, t, 6);
    FlexFrom(t);
  }

  /** No run before the flex rule starts with `fl`. */
  lemma FlexLeadLater()
    ensures forall k :: 0 <= k < 6 ==> ('f', 'l') !in Leads[k]
  {
  }

  /** From the flex rule on, the flex rule decides. */
  lemma FlexFrom(t: string)
    requires RuleResult(FlexRule, t).Some?
    ensures FirstMatch(Flatten(Runs[6..]), t) == RuleResult(FlexRule, t)
  {
    assert Runs[6..][0] == [FlexRule];
    assert Runs[6..][1..] == Runs[7..];
    FirstMatchAppend([FlexRule], Flatten(Runs[7..]), t);
    OneRule(FlexRule, t);
  }

  lemma RadiusAlone()
    ensures Alone(('r', ':'), 11)
  {
  }

  lemma RadiusHeads()
    ensures Runs[11] == [RadiusRule]
  {
  }

  /** Every token that starts with `r:` is decided by the radius rule alone. */
  lemma ResolveRadius(t: string)
    requires "r:" <= t
    ensures Resolve(t) == RuleResult(RadiusRule, t)
  {
    assert Lead(t) == ('r', ':');
    RadiusAlone();
    RadiusHeads();
    OnlyRun(t, 11);
    OneRule(RadiusRule, t);
  }
}
