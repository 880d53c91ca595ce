/** The top-products component: it unwraps the list it is given from the
    envelopes the agent layer puts around it, and turns each product into a
    row with a unique key, a display name, a value text and a bar width
    relative to the largest value. */
module TopProducts {
  import opened JsText
  import opened JsValues

  /** `unwrap`: at most one array layer (its first element, undefined when
      empty), then at most one object layer holding a `value` key, whatever
      that value is. */
  function Unwrap(input: Value): (v: Value)
    ensures input.Arr? && input.items == [] ==> v == Undefined
    ensures input.Arr? && input.items != [] && !Has(input.items[0], "value") ==> v == input.items[0]
    ensures input.Arr? && input.items != [] && Has(input.items[0], "value") ==> v == Get(input.items[0], "value")
    ensures Has(input, "value") ==> v == Get(input, "value")
    ensures !input.Arr? && !Has(input, "value") ==> v == input
  {
    var first := if input.Arr? then (if input.items == [] then Undefined else input.items[0]) else input;
    if IsObjectLike(first) && Has(first, "value") then Get(first, "value") else first
  }

  /** Deeper wrapping is left in place: a nested array, a nested `value`
      wrapper, and a `value` wrapper inside a wrapper inside an array. */
  lemma UnwrapIsShallow(x: Value)
    ensures Unwrap(Arr([Arr([x])])) == Arr([x])
    ensures Unwrap(Obj(map["value" := Obj(map["value" := x])])) == Obj(map["value" := x])
    ensures Unwrap(Arr([Obj(map["value" := Obj(map["value" := x])])])) == Obj(map["value" := x])
  {
    var inner := Obj(map["value" := x]);
    assert Has(Obj(map["value" := inner]), "value");
  }

  /** `v?.k ?? d` */
  function Coalesce(a: Value, d: Value): Value {
    if a.Null? || a.Undefined? then d else a
  }

  /** `payload`: the unwrapped input's `topProducts` when that key is
      present, the unwrapped input itself otherwise. */
  function Payload(data: Value): (p: Value)
    ensures var u := Unwrap(data); p == if Has(u, "topProducts") then Get(u, "topProducts") else u
  {
    var v := Unwrap(data);
    if IsObjectLike(v) && Has(v, "topProducts") then Get(v, "topProducts")
    else Coalesce(if v.Null? || v.Undefined? then Undefined else Get(v, "topProducts"), v)
  }

  /** `title`: the payload's title when truthy, "Top Products" otherwise. */
  function Title(data: Value): (r: Value)
    ensures Truthy(r)
    ensures !Truthy(Get(Payload(data), "title")) ==> r == Str("Top Products")
    ensures Truthy(Get(Payload(data), "title")) ==> r == Get(Payload(data), "title")
  {
    OrElse(Get(Payload(data), "title"), Str("Top Products"))
  }

  /** `subtitle`: the payload's subtitle when truthy, "" otherwise. */
  function Subtitle(data: Value): (r: Value)
    ensures !Truthy(Get(Payload(data), "subtitle")) ==> r == Str("")
    ensures Truthy(Get(Payload(data), "subtitle")) ==> r == Get(Payload(data), "subtitle")
  {
    OrElse(Get(Payload(data), "subtitle"), Str(""))
  }

  /** `products`: the payload's `products` when it is an array, the empty
      list in every other case. */
  function Products(data: Value): (ps: seq<Value>)
    ensures Get(Payload(data), "products").Arr? ==> ps == Get(Payload(data), "products").items
    ensures !Get(Payload(data), "products").Arr? ==> ps == []
  {
    var p := Get(Payload(data), "products");
    if p.Arr? then p.items else []
  }

  /** `hasProducts` */
  function HasProducts(data: Value): (b: bool)
    ensures b <==> Get(Payload(data), "products").Arr? && Get(Payload(data), "products").items != []
  {
    |Products(data)| > 0
  }

  /** `Number(p?.value) || 0`: missing, zero and non-numeric values all count
      as 0, any other value as its number. */
  function Coerce(p: Value, host: Host): (r: real)
    ensures NumberOf(Get(p, "value"), host).None? ==> r == 0.0
    ensures NumberOf(Get(p, "value"), host).Some? ==> r == NumberOf(Get(p, "value"), host).value
  {
    var n := NumberOf(Get(p, "value"), host);
    if n.Some? && n.value != 0.0 then n.value else 0.0
  }

  /** `Math.max(0, ...vals)` */
  function LargestCoerced(ps: seq<Value>, host: Host): (m: real)
    ensures m >= 0.0
    ensures forall i :: 0 <= i < |ps| ==> Coerce(ps[i], host) <= m
    ensures m == 0.0 || exists i :: 0 <= i < |ps| && Coerce(ps[i], host) == m
  {
    if ps == [] then 0.0
    else
      var rest := LargestCoerced(ps[1..], host);
      assert forall i :: 1 <= i < |ps| ==> Coerce(ps[i], host) == Coerce(ps[1..][i - 1], host);
      Max(Coerce(ps[0], host), rest)
  }

  /** `maxValue`: always positive; the largest value when some value is
      positive, 1 otherwise. It bounds every value from above. */
  function MaxValue(data: Value, host: Host): (m: real)
    ensures m > 0.0
    ensures var ps := Products(data); forall i :: 0 <= i < |ps| ==> Coerce(ps[i], host) <= m
    ensures var ps := Products(data);
      (exists i :: 0 <= i < |ps| && Coerce(ps[i], host) > 0.0) ==> exists i :: 0 <= i < |ps| && Coerce(ps[i], host) == m
    ensures var ps := Products(data);
      (forall i :: 0 <= i < |ps| ==> Coerce(ps[i], host) <= 0.0) ==> m == 1.0
  {
    var max := LargestCoerced(Products(data), host);
    if max > 0.0 then max else 1.0
  }

  /** `formatValue`: the placeholder when `Number(v)` is NaN, else the
      rounded number. */
  function FormatValue(v: Value, host: Host): (r: string)
    ensures NumberOf(v, host).None? ==> r == Dash
    ensures NumberOf(v, host).Some? && -ExponentThreshold < Round(NumberOf(v, host).value) as real < ExponentThreshold
      ==> r == IntToString(Round(NumberOf(v, host).value))
  {
    var n := NumberOf(v, host);
    if n.None? then Dash else NumberText(Round(n.value) as real, host)
  }

  /** The value text shows the placeholder exactly when `Number(v)` is NaN. */
  lemma FormatValueDashIffNaN(v: Value, host: Host)
    requires NeverPrintsDash(host)
    ensures FormatValue(v, host) == Dash <==> NumberOf(v, host).None?
  {
    var n := NumberOf(v, host);
    if n.Some? {
      var k := Round(n.value);
      if -ExponentThreshold < k as real < ExponentThreshold {
        assert FormatValue(v, host) == IntToString(k);
        assert IntToString(k)[0] != Dash[0];
      } else {
        assert FormatValue(v, host) == host.numberToString(k as real);
        assert forall y :: host.numberToString(y) != Dash;
      }
    }
  }

  datatype Row = Row(key: string, name: Value, valueText: string, width: int)

  /** `Math.max(0, Math.min(100, Math.round((val / max) * 100)))` for a value
      that max bounds: the clamp only cuts off negative values. */
  function BarPercent(val: real, max: real): (pct: int)
    requires max > 0.0
    ensures 0 <= pct <= 100
    ensures val <= 0.0 ==> pct == 0
    ensures val == max ==> pct == 100
    ensures 0.0 <= val <= max ==> pct == Round(val / max * 100.0)
  {
    var r := Round(val / max * 100.0);
    assert 0.0 <= val <= max ==> 0.0 <= val / max * 100.0 <= 100.0;
    assert val <= 0.0 ==> val / max * 100.0 <= 0.0;
    assert val == max ==> val / max * 100.0 == 100.0;
    Max(0.0, Min(100.0, r as real)).Floor
  }

  /** `${idx}-${p?.name || "item"}`: the index's digits, a hyphen, then the
      name's text. */
  function RowKey(idx: nat, name: Value, host: Host): (k: string)
    ensures var d := NatToString(idx); |k| > |d| && k[..|d|] == d && k[|d|] == '-'
    ensures DigitsValue(k[..|NatToString(idx)|]) == idx
    ensures !Truthy(name) ==> k == NatToString(idx) + "-item"
    ensures name.Str? && name.s != "" ==> k == NatToString(idx) + "-" + name.s
  {
    NatToStringRoundTrip(idx);
    NatToString(idx) + "-" + JsString(OrElse(name, Str("item")), host)
  }

  /** Keys of different positions differ, whatever the names: each starts
      with its own index, and the first hyphen ends the index. */
  lemma RowKeyInjective(i: nat, j: nat, x: Value, y: Value, host: Host)
    requires i != j
    ensures RowKey(i, x, host) != RowKey(j, y, host)
  {
    var a, b := NatToString(i), NatToString(j);
    var ki, kj := RowKey(i, x, host), RowKey(j, y, host);
    assert ki[..|a|] == a && ki[|a|] == '-';
    assert kj[..|b|] == b && kj[|b|] == '-';
    if |a| < |b| {
      assert IsDigit(kj[|a|]) && ki[|a|] != kj[|a|];
    } else if |b| < |a| {
      assert IsDigit(ki[|b|]) && ki[|b|] != kj[|b|];
    } else {
      NatToStringInjective(i, j);
      assert ki[..|a|] != kj[..|b|];
    }
  }

  /** One product at position idx, measured against max. */
  function MakeRow(p: Value, idx: nat, max: real, host: Host): (row: Row)
    requires max > 0.0
    ensures 0 <= row.width <= 100
  {
    var pct := BarPercent(Coerce(p, host), max);
    Row(RowKey(idx, Get(p, "name"), host),
        OrElse(Get(p, "name"), Str(Dash)),
        FormatValue(Get(p, "value"), host),
        pct)
  }

  /** `rows`: one row per product, in the products' order, each with a width
      in [0, 100] and its name defaulting to the placeholder. */
  function Rows(data: Value, host: Host): (rs: seq<Row>)
    ensures |rs| == |Products(data)|
    ensures forall i :: 0 <= i < |rs| ==> rs[i].width == BarPercent(Coerce(Products(data)[i], host), MaxValue(data, host))
    ensures forall i :: 0 <= i < |rs| ==> rs[i].key == RowKey(i, Get(Products(data)[i], "name"), host)
    ensures forall i :: 0 <= i < |rs| ==> rs[i].name == OrElse(Get(Products(data)[i], "name"), Str(Dash))
    ensures forall i :: 0 <= i < |rs| ==> rs[i].valueText == FormatValue(Get(Products(data)[i], "value"), host)
  {
    var ps := Products(data);
    var max := MaxValue(data, host);
    seq(|ps|, i requires 0 <= i < |ps| => MakeRow(ps[i], i, max, host))
  }

  /** Row keys are pairwise distinct, even for repeated or missing names. */
  lemma RowKeysDistinct(data: Value, host: Host, i: nat, j: nat)
    requires i < j < |Rows(data, host)|
    ensures Rows(data, host)[i].key != Rows(data, host)[j].key
  {
    var ps := Products(data);
    RowKeyInjective(i, j, Get(ps[i], "name"), Get(ps[j], "name"), host);
  }

  /** The width of a row: its value as a rounded percentage of the largest,
      which is 100 for a row holding the largest positive value and 0 for a
      row whose value is zero, negative, missing or not a number. */
  lemma RowWidth(data: Value, host: Host, i: nat)
    requires i < |Products(data)|
    ensures var p := Products(data)[i]; var w := Rows(data, host)[i].width;
      && (Coerce(p, host) == MaxValue(data, host) ==> w == 100)
      && (Coerce(p, host) <= 0.0 ==> w == 0)
      && (Coerce(p, host) >= 0.0 ==> w == Round(Coerce(p, host) / MaxValue(data, host) * 100.0))
  {
  }

  /** A product without a value shows the placeholder, yet its bar is
      computed from 0 and is empty. */
  lemma MissingValueShowsDashWithEmptyBar(data: Value, host: Host, i: nat)
    requires i < |Products(data)|
    requires !Has(Products(data)[i], "value")
    ensures Rows(data, host)[i].valueText == Dash
    ensures Rows(data, host)[i].width == 0
  {
    RowWidth(data, host, i);
  }

  /** The envelope `[{value: {topProducts: {products: [A:10, B:5]}}}]`. */
  const ProductA: Value := Obj(map["name" := Str("A"), "value" := Num(10.0)])
  const ProductB: Value := Obj(map["name" := Str("B"), "value" := Num(5.0)])
  const ProductList: Value := Obj(map["products" := Arr([ProductA, ProductB])])
  const WrappedList: Value := Arr([Obj(map["value" := Obj(map["topProducts" := ProductList])])])

  lemma WrappedListUnwraps(host: Host)
    ensures Products(WrappedList) == [ProductA, ProductB]
    ensures Coerce(ProductA, host) == 10.0 && Coerce(ProductB, host) == 5.0
    ensures MaxValue(WrappedList, host) == 10.0
  {
    assert Unwrap(WrappedList) == Obj(map["topProducts" := ProductList]);
    assert Payload(WrappedList) == ProductList;
    assert Get(ProductA, "value") == Num(10.0) && Get(ProductB, "value") == Num(5.0);
    var ps := [ProductA, ProductB];
    assert ps[1..] == [ProductB] && [ProductB][1..] == [];
    assert LargestCoerced([ProductB], host) == 5.0;
    assert LargestCoerced(ps, host) == 10.0;
  }

  /** The envelope above gives two rows, A then B. */
  lemma WrappedListNames(host: Host)
    ensures |Rows(WrappedList, host)| == 2
    ensures Rows(WrappedList, host)[0].name == Str("A") && Rows(WrappedList, host)[1].name == Str("B")
  {
    WrappedListUnwraps(host);
    assert Get(ProductA, "name") == Str("A") && Get(ProductB, "name") == Str("B");
  }

  /** Their bars have widths 100 and 50. */
  lemma WrappedListWidths(host: Host)
    ensures |Rows(WrappedList, host)| == 2
    ensures Rows(WrappedList, host)[0].width == 100 && Rows(WrappedList, host)[1].width == 50
  {
    WrappedListUnwraps(host);
    var rs := Rows(WrappedList, host);
    assert rs[0].width == BarPercent(10.0, 10.0);
    assert Round(5.0 / 10.0 * 100.0) == 50;
    assert rs[1].width == BarPercent(5.0, 10.0);
  }
}
