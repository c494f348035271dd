/**
 * The declaration objects that rule handlers return: an ordered list of
 * properties, each a CSS property name (or a nested selector) and its value.
 * A JavaScript object keeps its keys in insertion order and holds each key
 * once; `Assign` is property assignment on such an object.
 */
module Style {
  import opened Options
  import opened JsString

  /** A property value: a string, a number, `undefined` (the property is left
      out of the CSS), or a nested declaration under a selector fragment. */
  datatype Value = Str(s: string) | Num(n: nat) | Absent | Nested(body: seq<Entry>)

  datatype Entry = Entry(key: string, value: Value)

  /** `${v}`: a string as itself, a number in decimal. */
  function Printed(v: Value): string {
    match v
    case Str(s) => s
    case Num(n) => NatText(n)
    case Absent => "undefined"
    case Nested(_) => "[object Object]"
  }

  type Decl = seq<Entry>

  function Keys(d: Decl): (ks: seq<string>)
    ensures |ks| == |d| && forall i :: 0 <= i < |d| ==> ks[i] == d[i].key
  {
    seq(|d|, i requires 0 <= i < |d| => d[i].key)
  }

  predicate DistinctKeys(d: Decl) {
    forall i, j :: 0 <= i < j < |d| ==> d[i].key != d[j].key
  }

  /** Every object in the declaration, nested ones included, holds each key once. */
  predicate WellFormed(d: Decl) {
    DistinctKeys(d) &&
    forall i :: 0 <= i < |d| ==> (d[i].value.Nested? ==> WellFormed(d[i].value.body))
  }

  /** No value anywhere at the top level is a number. */
  predicate NoNumbers(d: Decl) {
    forall i :: 0 <= i < |d| ==> !d[i].value.Num?
  }

  /** `d[k]`: the value stored under key k, if any. */
  function Lookup(d: Decl, k: string): (r: Option<Value>)
    ensures r.Some? <==> k in Keys(d)
  {
    if d == [] then None
    else if d[0].key == k then Some(d[0].value)
    else Lookup(d[1..], k)
  }

  /** `d[k] = v`: an existing key keeps its place and takes the new value; a
      new key goes at the end. */
  function Assign(d: Decl, k: string, v: Value): (r: Decl)
    ensures Keys(r) == if k in Keys(d) then Keys(d) else Keys(d) + [k]
  {
    if d == [] then [Entry(k, v)]
    else if d[0].key == k then
      var r := [Entry(k, v)] + d[1..];
      assert Keys(r) == Keys(d);
      r
    else
      var rest := Assign(d[1..], k, v);
      var r := [d[0]] + rest;
      assert Keys(d) == [d[0].key] + Keys(d[1..]);
      assert Keys(r) == [d[0].key] + Keys(rest);
      r
  }

  /** After `d[k] = v`, key k holds v and every other key holds what it held. */
  lemma {:induction false} AssignLookup(d: Decl, k: string, v: Value, k': string)
    ensures Lookup(Assign(d, k, v), k') == if k' == k then Some(v) else Lookup(d, k')
  {
    if d != [] && d[0].key != k {
      AssignLookup(d[1..], k, v, k');
      assert Assign(d, k, v)[1..] == Assign(d[1..], k, v);
    }
  }

  /** Assignment keeps an object's keys distinct. */
  lemma AssignDistinct(d: Decl, k: string, v: Value)
    requires DistinctKeys(d)
    ensures DistinctKeys(Assign(d, k, v))
  {
    var r := Assign(d, k, v);
    forall i, j | 0 <= i < j < |r| ensures r[i].key != r[j].key {
      assert Keys(r)[i] == r[i].key && Keys(r)[j] == r[j].key;
      if k !in Keys(d) && j == |d| {
        assert Keys(r)[i] == Keys(d)[i];
      } else {
        assert Keys(r)[i] == Keys(d)[i] && Keys(r)[j] == Keys(d)[j];
      }
    }
  }

  /** A value the rules may produce: never a number, and a nested body is
      itself well formed. */
  predicate GoodValue(v: Value) {
    !v.Num? && (v.Nested? ==> WellFormed(v.body))
  }

  predicate AllGood(d: Decl) {
    forall i :: 0 <= i < |d| ==> GoodValue(d[i].value)
  }

  /** Assignment stores v and keeps every other value, so it keeps all values good. */
  lemma {:induction false} AssignGood(d: Decl, k: string, v: Value)
    requires AllGood(d) && GoodValue(v)
    ensures AllGood(Assign(d, k, v))
  {
    if d != [] && d[0].key != k {
      AssignGood(d[1..], k, v);
      assert Assign(d, k, v) == [d[0]] + Assign(d[1..], k, v);
    }
  }

  /** The object literal `{k1: v1, ..., kn: vn}`: the fields assigned in
      order, so a repeated key keeps its first place and its last value. */
  function Object(fields: seq<Entry>): Decl {
    if fields == [] then []
    else Assign(Object(fields[..|fields| - 1]), fields[|fields| - 1].key, fields[|fields| - 1].value)
  }

  /** An object literal of good values is well formed and holds no number. */
  lemma {:induction false} ObjectWellFormed(fields: seq<Entry>)
    requires forall i :: 0 <= i < |fields| ==> GoodValue(fields[i].value)
    ensures WellFormed(Object(fields)) && NoNumbers(Object(fields)) && AllGood(Object(fields))
  {
    if fields != [] {
      var init := fields[..|fields| - 1];
      ObjectWellFormed(init);
      AssignDistinct(Object(init), fields[|fields| - 1].key, fields[|fields| - 1].value);
      AssignGood(Object(init), fields[|fields| - 1].key, fields[|fields| - 1].value);
    }
  }

  /** With distinct keys, an object literal is exactly its fields. */
  lemma {:induction false} ObjectDistinct(fields: seq<Entry>)
    requires DistinctKeys(fields)
    ensures Object(fields) == fields
  {
    if fields != [] {
      var init := fields[..|fields| - 1];
      ObjectDistinct(init);
      var last := fields[|fields| - 1];
      assert last.key !in Keys(init) by {
        forall i | 0 <= i < |init| ensures Keys(init)[i] != last.key {
          assert init[i] == fields[i];
        }
      }
      AppendNew(init, last.key, last.value);
      assert init + [last] == fields;
    }
  }

  /** Assigning a new key appends it. */
  lemma {:induction false} AppendNew(d: Decl, k: string, v: Value)
    requires k !in Keys(d)
    ensures Assign(d, k, v) == d + [Entry(k, v)]
  {
    if d != [] {
      assert Keys(d) == [d[0].key] + Keys(d[1..]);
      AppendNew(d[1..], k, v);
      assert [d[0]] + (d[1..] + [Entry(k, v)]) == d + [Entry(k, v)];
    }
  }
}
