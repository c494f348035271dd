/**
 * Variants and rules together, for the `!` variant on font weights: the
 * variant strips the `!`, the rule table resolves the rest, and the body
 * hook marks the string values.
 */
module Pipeline {
  import opened Options
  import opened JsString
  import opened Style
  import opened Decoders
  import opened Rules
  import opened Resolution
  import opened Tokens
  import opened Variants

  /** Every weight keyword is a word, so `fw:` and a keyword reaches the weight rule. */
  lemma KeywordIsWord(w: string)
    requires WeightNumber(w).Some?
    ensures Word(w)
  {
    assert forall i :: 0 <= i < |w| ==> 'a' <= w[i] <= 'z';
  }

  /** As written, `fw:` and a weight keyword resolves to a number, which the
      body hook passes over: `fw:bold!` loses its `!important`. */
  lemma WeightLosesImportant(w: string)
    requires WeightNumber(w).Some?
    ensures Resolve("fw:" + w) == Some([Entry("font-weight", Num(WeightNumber(w).value))])
    ensures ImportantVariant("fw:" + w + "!") == Rewrite("fw:" + w, Important)
    ensures ImportantBody(EntryList(Resolve("fw:" + w).value)) == EntryList(Resolve("fw:" + w).value)
  {
    KeywordIsWord(w);
    FontWeightToken(w);
    var token := "fw:" + w + "!";
    assert EndsWith(token, "!") && token[..|token| - 1] == "fw:" + w;
  }

  lemma BoldIsSevenHundred()
    ensures FontWeight("bold") == "700"
  {
    assert NatText(7) == "7";
    assert NatText(70) == NatText(7) + "0";
    assert NatText(700) == NatText(70) + "0";
  }

  /** `fw:bold` resolves to the weight 700, a number, which prints as `700`. */
  lemma BoldToken()
    ensures Resolve("fw:bold") == Some([Entry("font-weight", Num(700))])
    ensures Printed(Num(700)) == "700"
  {
    WeightLosesImportant("bold");
    assert "fw:" + "bold" == "fw:bold";
    BoldIsSevenHundred();
    FontWeightAsWrittenPrints("bold");
  }

  /** With the weight decoded to text, `fw:W!` is the `!` variant on `fw:W`,
      and its body hook marks the weight important, keywords included. */
  lemma ImportantWeight(w: string, d: Decl)
    requires d == [Entry("font-weight", Str(FontWeight(w)))]
    ensures ImportantVariant("fw:" + w + "!") == Rewrite("fw:" + w, Important)
    ensures ImportantBody(EntryList(d)) == EntryList([Entry("font-weight", Str(FontWeight(w) + " !important"))])
  {
    var token := "fw:" + w + "!";
    assert EndsWith(token, "!") && token[..|token| - 1] == "fw:" + w;
  }

  /** `fw:bold!` with the weight decoded to text: the variant leaves
      `fw:bold`, whose weight prints as `700`, and the hook makes it
      `700 !important`. */
  lemma BoldImportant()
    ensures ImportantVariant("fw:bold!") == Rewrite("fw:bold", Important)
    ensures ImportantBody(EntryList([Entry("font-weight", Str("700"))])) == EntryList([Entry("font-weight", Str("700 !important"))])
  {
    BoldIsSevenHundred();
    ImportantWeight("bold", [Entry("font-weight", Str("700"))]);
    assert "fw:" + "bold" + "!" == "fw:bold!";
    assert "700" + " !important" == "700 !important";
  }
}
