/**
 * The three variants of the preset. Each looks at the end of a token; when
 * its suffix is there it returns the token without the suffix and the hook
 * that the host applies to the result: a selector rewrite, a body rewrite
 * or a rewrite of the context the rule renders in.
 */
module Variants {
  import opened Options
  import opened JsString
  import opened Style

  /** The post-processing a variant registers. The breakpoint hook keeps the
      theme's breakpoint table it closes over. */
  datatype Hook =
    | Selector(pseudo: string)
    | Important
    | Media(breakpoints: map<string, string>, breakpoint: string)

  /** What a variant returns: `undefined`, the token itself as a string
      (which the host reads as "no change"), or `{matcher, hook}`. */
  datatype VariantResult =
    | Pass
    | Kept(token: string)
    | Rewrite(matcher: string, hook: Hook)

  // ----- pseudo classes -----

  const PseudoClasses: seq<string> := ["hover", "focus", "active", "visited", "disabled", "focus-within"]

  /** The first name of the list, from position i on, whose `:name` ends the token. */
  function FirstSuffix(token: string, names: seq<string>, i: nat): (r: Option<nat>)
    decreases |names| - i
  {
    if i >= |names| then None
    else if EndsWith(token, ":" + names[i]) then Some(i)
    else FirstSuffix(token, names, i + 1)
  }

  /** What the pseudo-class variant returns. */
  function PseudoResult(token: string): VariantResult {
    match FirstSuffix(token, PseudoClasses, 0)
    case Some(j) => Rewrite(token[..|token| - (|PseudoClasses[j]| + 1)], Selector(PseudoClasses[j]))
    case None => Kept(token)
  }

  /** The pseudo-class variant: the list is tried in order and the first
      suffix that ends the token is stripped. */
  method PseudoVariant(token: string) returns (r: VariantResult)
    ensures r == PseudoResult(token)
  {
    var i := 0;
    while i < |PseudoClasses|
      invariant 0 <= i <= |PseudoClasses|
      invariant FirstSuffix(token, PseudoClasses, 0) == FirstSuffix(token, PseudoClasses, i)
    {
      var pseudo := PseudoClasses[i];
      if EndsWith(token, ":" + pseudo) {
        return Rewrite(token[..|token| - (|pseudo| + 1)], Selector(pseudo));
      }
      i := i + 1;
    }
    return Kept(token);
  }

  /** The search finds the first listed suffix from i on, or there is none. */
  lemma {:induction false} FirstSuffixIsFirst(token: string, names: seq<string>, i: nat)
    ensures match FirstSuffix(token, names, i)
            case Some(j) =>
              i <= j < |names| && EndsWith(token, ":" + names[j]) &&
              forall k :: i <= k < j ==> !EndsWith(token, ":" + names[k])
            case None => forall k :: i <= k < |names| ==> !EndsWith(token, ":" + names[k])
    decreases |names| - i
  {
    if i < |names| && !EndsWith(token, ":" + names[i]) {
      FirstSuffixIsFirst(token, names, i + 1);
    }
  }

  /** Stripping the first listed suffix found and putting it back gives the token. */
  lemma SuffixStrips(token: string, names: seq<string>)
    ensures match FirstSuffix(token, names, 0)
            case Some(j) =>
              j < |names| && EndsWith(token, ":" + names[j]) &&
              token[..|token| - (|names[j]| + 1)] + ":" + names[j] == token &&
              forall k :: 0 <= k < j ==> !EndsWith(token, ":" + names[k])
            case None => forall k :: 0 <= k < |names| ==> !EndsWith(token, ":" + names[k])
  {
    FirstSuffixIsFirst(token, names, 0);
    match FirstSuffix(token, names, 0)
    case Some(j) =>
      var suffix := ":" + names[j];
      assert token[..|token| - |suffix|] + suffix == token;
    case None =>
  }

  /** A token ending in `:name` for a listed name loses exactly that suffix,
      the first listed one, and gains the selector hook for it; any other
      token comes back unchanged. */
  lemma PseudoStrips(token: string)
    ensures match PseudoResult(token)
            case Rewrite(m, h) =>
              exists j :: 0 <= j < |PseudoClasses| && h == Selector(PseudoClasses[j]) &&
                m + ":" + PseudoClasses[j] == token &&
                forall k :: 0 <= k < j ==> !EndsWith(token, ":" + PseudoClasses[k])
            case Kept(t) => t == token && forall k :: 0 <= k < |PseudoClasses| ==> !EndsWith(token, ":" + PseudoClasses[k])
            case Pass => false
  {
    SuffixStrips(token, PseudoClasses);
  }

  /** A base followed by `:name` for a listed name, when no earlier-listed
      suffix also ends it, is taken apart into the base and that name. */
  lemma PseudoRoundTrip(base: string, j: nat)
    requires j < |PseudoClasses|
    requires forall k :: 0 <= k < j ==> !EndsWith(base + ":" + PseudoClasses[j], ":" + PseudoClasses[k])
    ensures PseudoResult(base + ":" + PseudoClasses[j]) == Rewrite(base, Selector(PseudoClasses[j]))
  {
    SuffixRoundTrip(base, PseudoClasses, j);
    var token := base + ":" + PseudoClasses[j];
    assert token[..|token| - (|PseudoClasses[j]| + 1)] == base;
  }

  lemma SuffixRoundTrip(base: string, names: seq<string>, j: nat)
    requires j < |names|
    requires forall k :: 0 <= k < j ==> !EndsWith(base + ":" + names[j], ":" + names[k])
    ensures FirstSuffix(base + ":" + names[j], names, 0) == Some(j)
  {
    var token := base + ":" + names[j];
    var suffix := ":" + names[j];
    assert token == base + suffix;
    assert EndsWith(token, suffix);
    FirstSuffixIsFirst(token, names, 0);
  }

  /** The selector hook appends the pseudo class. */
  function SelectorHook(pseudo: string, selector: string): (s: string)
    ensures |s| == |selector| + |pseudo| + 1
    ensures s[..|selector|] == selector && s[|selector|..] == ":" + pseudo
  {
    selector + ":" + pseudo
  }

  /** The pseudo-class variant and its selector hook undo each other: the
      hook appends to a selector exactly the suffix the variant stripped
      from the token, so applied to the stripped token it gives the token
      back. */
  lemma HookRestoresSuffix(token: string, selector: string)
    ensures match PseudoResult(token)
            case Rewrite(m, h) =>
              h.Selector? && |m| < |token| &&
              SelectorHook(h.pseudo, selector) == selector + token[|m|..] &&
              SelectorHook(h.pseudo, m) == token
            case _ => true
  {
    FirstSuffixIsFirst(token, PseudoClasses, 0);
    match FirstSuffix(token, PseudoClasses, 0)
    case Some(j) => StripThenAppend(token, PseudoClasses[j], selector);
    case None =>
  }

  /** Cutting `:p` off a token that ends with it and handing the rest to the
      hook for p gives the token back. */
  lemma StripThenAppend(token: string, p: string, selector: string)
    requires EndsWith(token, ":" + p)
    ensures var m := token[..|token| - (|p| + 1)];
            |m| < |token| && SelectorHook(p, selector) == selector + token[|m|..] && SelectorHook(p, m) == token
  {
    var suffix := ":" + p;
    var m := token[..|token| - |suffix|];
    assert token[|m|..] == suffix;
    assert m + suffix == token;
    assert selector + ":" + p == selector + suffix;
    assert m + ":" + p == m + suffix;
  }

  // ----- `!important` -----

  /** The `!` variant. */
  function ImportantVariant(token: string): (r: VariantResult)
    ensures r.Rewrite? <==> EndsWith(token, "!")
    ensures r.Rewrite? ==> r.matcher + "!" == token && r.hook == Important
    ensures !r.Kept?
  {
    if EndsWith(token, "!") then Rewrite(token[..|token| - 1], Important) else Pass
  }

  /** A body as the hook may see it: a string, an array of `[key, value]`
      pairs, or an object. */
  datatype Body = StringBody(s: string) | EntryList(entries: Decl) | ObjectBody(fields: Decl)

  /** `addImportant`: only strings are marked. */
  function AddImportant(v: Value): Value {
    if v.Str? then Str(v.s + " !important") else v
  }

  function ImportantEntries(d: Decl): (r: Decl)
    ensures |r| == |d| && Keys(r) == Keys(d)
  {
    seq(|d|, i requires 0 <= i < |d| => Entry(d[i].key, AddImportant(d[i].value)))
  }

  /** The body hook: the pairs of an array are mapped one by one; an
      object's entries are mapped and rebuilt with `Object.fromEntries`. */
  function ImportantBody(b: Body): Body {
    match b
    case StringBody(s) => StringBody(s + " !important")
    case EntryList(d) => EntryList(ImportantEntries(d))
    case ObjectBody(d) => ObjectBody(Object(ImportantEntries(d)))
  }

  /** Every key keeps its place; a string value gains ` !important`, and
      anything else, `undefined`, numbers and nested objects, stays as it was. */
  lemma {:induction false} ImportantLookup(d: Decl, k: string)
    ensures Lookup(ImportantEntries(d), k) == match Lookup(d, k) case Some(v) => Some(AddImportant(v)) case None => None
  {
    if d != [] && d[0].key != k {
      ImportantLookup(d[1..], k);
      assert ImportantEntries(d)[1..] == ImportantEntries(d[1..]);
    }
  }

  /** Rebuilding an object from its own entries changes nothing, so the
      object and the array forms agree. */
  lemma ImportantObject(d: Decl)
    requires DistinctKeys(d)
    ensures ImportantBody(ObjectBody(d)) == ObjectBody(ImportantEntries(d))
  {
    var r := ImportantEntries(d);
    assert DistinctKeys(r) by {
      forall i, j | 0 <= i < j < |r| ensures r[i].key != r[j].key {
        assert Keys(r)[i] == Keys(d)[i] && Keys(r)[j] == Keys(d)[j];
      }
    }
    ObjectDistinct(r);
  }

  /** The hook keeps an object well formed: keys and nested bodies are untouched. */
  lemma ImportantWellFormed(d: Decl)
    requires WellFormed(d)
    ensures WellFormed(ImportantEntries(d))
  {
    var r := ImportantEntries(d);
    forall i, j | 0 <= i < j < |r| ensures r[i].key != r[j].key {
      assert Keys(r)[i] == Keys(d)[i] && Keys(r)[j] == Keys(d)[j];
    }
  }

  // ----- breakpoints -----

  const Breakpoints: seq<string> := ["sm", "md", "lg", "xl"]

  /** The theme's breakpoint table. */
  const DefaultBreakpoints: map<string, string> := map["sm" := "640px", "md" := "768px", "lg" := "1024px", "xl" := "1280px"]

  /** The breakpoint variant: `^(.+)@(sm|md|lg|xl)$`. Every breakpoint name
      has two letters, so the suffix is the last three characters. */
  function BreakpointVariant(token: string, breakpoints: map<string, string>): (r: VariantResult)
    ensures !r.Kept?
    ensures r.Rewrite? ==> r.hook.Media? && r.hook.breakpoints == breakpoints && r.hook.breakpoint in Breakpoints &&
                           AnyChars(r.matcher) && r.matcher + "@" + r.hook.breakpoint == token
  {
    if |token| >= 4 && token[|token| - 3] == '@' && token[|token| - 2..] in Breakpoints && AnyChars(token[..|token| - 3]) then
      assert token[..|token| - 3] + "@" + token[|token| - 2..] == token;
      Rewrite(token[..|token| - 3], Media(breakpoints, token[|token| - 2..]))
    else Pass
  }

  /** A class name of characters `.` accepts, `@` and a breakpoint name are
      taken apart again. */
  lemma BreakpointStrips(name: string, bp: string, breakpoints: map<string, string>)
    requires AnyChars(name) && bp in Breakpoints
    ensures BreakpointVariant(name + "@" + bp, breakpoints) == Rewrite(name, Media(breakpoints, bp))
  {
    var token := name + "@" + bp;
    assert |bp| == 2;
    assert token[|token| - 3] == '@' && token[|token| - 2..] == bp && token[..|token| - 3] == name;
  }

  /** The rendering context the host passes to `handle`: the parent rule
      and everything else, which the hook passes on unchanged. */
  datatype Context = Context(parent: Part, rest: seq<(string, string)>)

  /** `@media (min-width: bp)`; a name missing from the table prints as `undefined`. */
  function MediaQuery(breakpoints: map<string, string>, bp: string): string {
    "@media (min-width: " + (if bp in breakpoints then breakpoints[bp] else "undefined") + ")"
  }

  /** The breakpoint hook's `{...input, parent}`: the media query, after the
      existing parent and ` $$ ` when there is one. */
  function MediaHandle(breakpoints: map<string, string>, bp: string, input: Context): (out: Context)
    ensures out.rest == input.rest
    ensures !Truthy(input.parent) ==> out.parent == Text(MediaQuery(breakpoints, bp))
    ensures Truthy(input.parent) ==> out.parent == Text(input.parent.s + " $$ " + MediaQuery(breakpoints, bp))
  {
    var prefix := if Truthy(input.parent) then input.parent.s + " $$ " else "";
    assert !Truthy(input.parent) ==> prefix + MediaQuery(breakpoints, bp) == MediaQuery(breakpoints, bp);
    input.(parent := Text(prefix + MediaQuery(breakpoints, bp)))
  }

  /** Two breakpoint hooks in a row chain their queries with ` $$ `, the
      first one's query first. */
  lemma MediaChain(breakpoints: map<string, string>, a: string, b: string, input: Context)
    requires !Truthy(input.parent)
    ensures MediaHandle(breakpoints, b, MediaHandle(breakpoints, a, input)).parent ==
            Text(MediaQuery(breakpoints, a) + " $$ " + MediaQuery(breakpoints, b))
  {
    var q := MediaQuery(breakpoints, a);
    assert |q| > 0;
  }

  /** The theme's breakpoints as the queries show them. */
  lemma DefaultQueries()
    ensures MediaQuery(DefaultBreakpoints, "sm") == "@media (min-width: 640px)"
    ensures MediaQuery(DefaultBreakpoints, "md") == "@media (min-width: 768px)"
    ensures MediaQuery(DefaultBreakpoints, "lg") == "@media (min-width: 1024px)"
    ensures MediaQuery(DefaultBreakpoints, "xl") == "@media (min-width: 1280px)"
  {
  }
}
