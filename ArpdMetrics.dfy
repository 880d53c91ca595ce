/** The ARPD metrics component: it finds a metrics record in whichever of
    its four inputs carries one, and derives the title, the headline and
    three percentage-change tiles with proportional bar widths from it. */
module ArpdMetrics {
  import opened JsText
  import opened JsValues

  /** The component's four inputs. */
  datatype Props = Props(value: Value, data: Value, output: Value, payload: Value)

  /** What the resolver returns when no candidate holds a record: `{}`. */
  const EmptyRecord: Value := Obj(map[])

  /** The ten places a record may sit, in the order they are tried: the four
      inputs, then the `value` of value, data and output, then their `output`. */
  function Candidates(props: Props): (cs: seq<Value>)
    ensures |cs| == 10
    ensures cs[..4] == [props.payload, props.value, props.data, props.output]
    ensures forall i :: 4 <= i < 10 ==>
      cs[i] == Get([props.value, props.data, props.output][(i - 4) % 3], if i < 7 then "value" else "output")
  {
    [ props.payload, props.value, props.data, props.output,
      Get(props.value, "value"), Get(props.data, "value"), Get(props.output, "value"),
      Get(props.value, "output"), Get(props.data, "output"), Get(props.output, "output") ]
  }

  /** `typeof c.json === "string" && c.json.trim().startsWith("{")` */
  predicate HasJsonText(c: Value): (b: bool)
    ensures b ==> c.Obj? && Get(c, "json").Str?
  {
    var j := Get(c, "json");
    j.Str? && |Trim(j.s)| > 0 && Trim(j.s)[0] == '{'
  }

  /** The keys whose presence marks a metrics record. */
  const RecognizedKeys: set<string> := {"momPercent", "qoqPercent", "yoyPercent", "metricName", "headline"}

  /** A metrics record is recognised by the presence of one of its keys,
      whatever the value under it. */
  predicate IsRecognized(c: Value) {
    || Has(c, "momPercent") || Has(c, "qoqPercent") || Has(c, "yoyPercent")
    || Has(c, "metricName") || Has(c, "headline")
  }

  /** Recognition is membership of some recognised key among the object's
      own keys. */
  lemma RecognizedByKeySet(c: Value)
    ensures IsRecognized(c) <==> c.Obj? && exists k :: k in RecognizedKeys && k in c.fields
  {
    if c.Obj? && exists k :: k in RecognizedKeys && k in c.fields {
      var k :| k in RecognizedKeys && k in c.fields;
      assert Has(c, k);
    }
  }

  /** The JSON rule fires exactly when the `json` text's first character
      that is not white space is an opening brace. */
  lemma JsonTextRule(c: Value)
    ensures HasJsonText(c) <==> (c.Obj? && Get(c, "json").Str?
      && exists k :: 0 <= k < |Get(c, "json").s| && Get(c, "json").s[k] == '{'
           && forall i :: 0 <= i < k ==> IsJsSpace(Get(c, "json").s[i]))
  {
    if Get(c, "json").Str? {
      TrimmedStartsWith(Get(c, "json").s, '{');
    }
  }

  /** The embedded JSON text, parsed: the parsed value when it is an object
      or an array, and the carrier itself when parsing throws or yields
      anything else. */
  function FromJsonText(c: Value, host: Host): (r: Value)
    requires HasJsonText(c)
    ensures IsObjectLike(r)
    ensures r == c || host.parse(Get(c, "json").s) == Some(r)
  {
    var parsed := host.parse(Get(c, "json").s);
    if parsed.Some? && IsObjectLike(parsed.value) then parsed.value else c
  }

  /** The two rules tried on one object, in order: the embedded JSON text,
      then a recognised key. */
  function MatchRecord(c: Value, host: Host): (r: Option<Value>)
    ensures r.Some? <==> HasJsonText(c) || IsRecognized(c)
    ensures r.Some? ==> IsObjectLike(r.value)
    ensures !HasJsonText(c) && IsRecognized(c) ==> r == Some(c)
  {
    if HasJsonText(c) then Some(FromJsonText(c, host))
    else if IsRecognized(c) then Some(c)
    else None
  }

  /** One candidate: nothing unless it is an object or array; otherwise the
      two rules on it, and failing those the two rules on its `value` when
      that is an object or array, and no deeper. */
  function Probe(c: Value, host: Host): (r: Option<Value>)
    ensures r.Some? ==> IsObjectLike(r.value)
    ensures !IsObjectLike(c) ==> r == None
  {
    if !IsObjectLike(c) then None
    else
      var direct := MatchRecord(c, host);
      if direct.Some? then direct
      else
        var inner := Get(c, "value");
        if IsObjectLike(inner) then MatchRecord(inner, host) else None
  }

  /** The search loop: the first candidate that yields a record decides;
      `{}` when none does. */
  function FirstMatch(cs: seq<Value>, host: Host): (r: Value)
    ensures IsObjectLike(r)
  {
    if cs == [] then EmptyRecord
    else
      var hit := Probe(cs[0], host);
      if hit.Some? then hit.value else FirstMatch(cs[1..], host)
  }

  /** `resolvedPayload`: never fails and is always an object or an array. */
  function ResolvedPayload(props: Props, host: Host): (r: Value)
    ensures IsObjectLike(r)
  {
    FirstMatch(Candidates(props), host)
  }

  /** First-match semantics: if candidate k is the first that yields a record,
      the result is that record; if none does, it is `{}`. */
  lemma {:induction false} FirstMatchIsFirstHit(cs: seq<Value>, host: Host, k: nat)
    requires k <= |cs|
    requires forall j :: 0 <= j < k ==> Probe(cs[j], host).None?
    requires k < |cs| ==> Probe(cs[k], host).Some?
    ensures FirstMatch(cs, host) == if k < |cs| then Probe(cs[k], host).value else EmptyRecord
  {
    if k > 0 {
      assert Probe(cs[0], host).None?;
      assert forall j :: 0 <= j < k - 1 ==> cs[1..][j] == cs[j + 1];
      FirstMatchIsFirstHit(cs[1..], host, k - 1);
    }
  }

  /** A candidate that is not an object or array never stops the search. */
  lemma NonObjectSkipped(c: Value, rest: seq<Value>, host: Host)
    requires !IsObjectLike(c)
    ensures FirstMatch([c] + rest, host) == FirstMatch(rest, host)
  {
    assert ([c] + rest)[1..] == rest;
  }

  /** An object whose `json` text starts with a brace decides the search on
      its own: the parsed object or array if there is one, else the object
      itself, whatever other keys it has and whatever later candidates hold. */
  lemma JsonTextDecides(c: Value, rest: seq<Value>, host: Host)
    requires HasJsonText(c)
    ensures var p := host.parse(Get(c, "json").s);
      FirstMatch([c] + rest, host) == if p.Some? && IsObjectLike(p.value) then p.value else c
  {
  }

  /** An object that carries a recognised key and no `json` text is the
      result itself, unchanged. */
  lemma RecognizedIsReturned(c: Value, rest: seq<Value>, host: Host)
    requires c.Obj? && !HasJsonText(c) && IsRecognized(c)
    ensures FirstMatch([c] + rest, host) == c
  {
  }

  /** Resolving an already canonical record returns it unchanged: passed as
      `payload`, or as `value` when `payload` holds no object. */
  lemma CanonicalRecordResolvesToItself(props: Props, record: Value, host: Host)
    requires record.Obj? && !HasJsonText(record) && IsRecognized(record)
    requires props.payload == record || (!IsObjectLike(props.payload) && props.value == record)
    ensures ResolvedPayload(props, host) == record
  {
    var cs := Candidates(props);
    if props.payload == record {
      FirstMatchIsFirstHit(cs, host, 0);
    } else {
      assert Probe(cs[0], host).None?;
      FirstMatchIsFirstHit(cs, host, 1);
    }
  }

  /** The unwrap looks into `value` once: an object that matches neither rule
      yields what its `value` matches, and when that matches nothing either,
      the search goes on with the next candidate. */
  lemma UnwrapIsOneLevel(c: Value, rest: seq<Value>, host: Host)
    requires IsObjectLike(c) && !HasJsonText(c) && !IsRecognized(c)
    ensures var inner := Get(c, "value");
      FirstMatch([c] + rest, host) ==
        if IsObjectLike(inner) && (HasJsonText(inner) || IsRecognized(inner))
        then MatchRecord(inner, host).value
        else FirstMatch(rest, host)
  {
    assert ([c] + rest)[1..] == rest;
  }

  /** A record wrapped twice in `value` does not stop the search. */
  lemma DoublyWrappedRecordIsSkipped(record: Value, rest: seq<Value>, host: Host)
    ensures FirstMatch([Obj(map["value" := Obj(map["value" := record])])] + rest, host) == FirstMatch(rest, host)
  {
    var once := Obj(map["value" := record]);
    var twice := Obj(map["value" := once]);
    assert !HasJsonText(once) && !IsRecognized(once);
    assert !HasJsonText(twice) && !IsRecognized(twice);
    assert Probe(twice, host) == None;
    assert ([twice] + rest)[1..] == rest;
  }

  /** The text `{"headline":"x"}` and an input object carrying it as `json`. */
  const HeadlineJson: string := "{\"headline\":\"x\"}"
  const HeadlineCarrier: Value := Obj(map["json" := Str(HeadlineJson)])

  lemma HeadlineCarrierHasJsonText()
    ensures HasJsonText(HeadlineCarrier)
  {
    var text := HeadlineJson;
    assert Get(HeadlineCarrier, "json") == Str(text);
    assert !IsJsSpace(text[0]) && !IsJsSpace(text[|text| - 1]);
    assert TrimStart(text) == text;
    assert Trim(text) == text;
  }

  /** An input `{json: '{"headline":"x"}'}` resolves to what the text parses to. */
  lemma EmbeddedJsonExample(host: Host)
    requires host.parse(HeadlineJson) == Some(Obj(map["headline" := Str("x")]))
    ensures ResolvedPayload(Props(Undefined, Undefined, Undefined, HeadlineCarrier), host)
         == Obj(map["headline" := Str("x")])
  {
    HeadlineCarrierHasJsonText();
    assert Get(HeadlineCarrier, "json").s == HeadlineJson;
    assert Probe(HeadlineCarrier, host) == Some(Obj(map["headline" := Str("x")]));
    var cs := Candidates(Props(Undefined, Undefined, Undefined, HeadlineCarrier));
    assert cs[0] == HeadlineCarrier;
    FirstMatchIsFirstHit(cs, host, 0);
  }

  // ---------- helpers ----------

  /** `toNumber`: null, undefined and the empty string are "no value";
      anything else is `Number(x)` when that is a finite number. */
  function ToNumber(x: Value, host: Host): (n: Option<real>)
    ensures x.Null? || x.Undefined? || x == Str("") ==> n == None
    ensures x.Num? ==> n == Some(x.n)
    ensures n.Some? ==> NumberOf(x, host) == n
    ensures !(x.Null? || x.Undefined? || x == Str("")) ==> n == NumberOf(x, host)
    ensures x.Obj? ==> n == None
  {
    if x.Null? || x.Undefined? || x == Str("") then None else NumberOf(x, host)
  }

  /** Null, undefined and "" are no value, while a numeric text is read
      through the runtime's number parser. */
  lemma ToNumberExamples(host: Host)
    requires host.numericLiteral("12.5") == Some(12.5)
    ensures ToNumber(Str(""), host) == None && ToNumber(Null, host) == None && ToNumber(Undefined, host) == None
    ensures ToNumber(Str("12.5"), host) == Some(12.5)
  {
    assert !IsJsSpace('1') && !IsJsSpace('5');
    assert Trim("12.5") == "12.5";
  }

  /** Values within this distance of an integer print as that integer. */
  const IntegerTolerance: real := 0.000000001

  /** `formatPercent` */
  function FormatPercent(x: Value, host: Host): (r: string)
    ensures ToNumber(x, host).None? ==> r == Dash
  {
    var n := ToNumber(x, host);
    if n.None? then Dash
    else if Abs(n.value - Round(n.value) as real) < IntegerTolerance then NumberText(Round(n.value) as real, host)
    else ToFixed1(n.value, host)
  }

  /** `formatUSD`: the placeholder for no value; otherwise the runtime's
      currency format, or `"$"` and the rounded amount when that is not
      available. */
  function FormatUSD(x: Value, host: Host): (r: string)
    ensures ToNumber(x, host).None? ==> r == Dash
    ensures ToNumber(x, host).Some? && !host.hasIntl ==> |r| > 0 && r[0] == '$'
    ensures ToNumber(x, host).Some? && !host.hasIntl
      && -ExponentThreshold < Round(ToNumber(x, host).value) as real < ExponentThreshold
      ==> r == "$" + IntToString(Round(ToNumber(x, host).value))
  {
    var n := ToNumber(x, host);
    if n.None? then Dash
    else if host.hasIntl then host.currency(n.value)
    else "$" + NumberText(Round(n.value) as real, host)
  }

  /** The percentage shows the placeholder exactly when there is no value. */
  lemma FormatPercentDashIffNoValue(x: Value, host: Host)
    requires NeverPrintsDash(host)
    ensures FormatPercent(x, host) == Dash <==> ToNumber(x, host).None?
  {
    var n := ToNumber(x, host);
    if n.Some? {
      var r := FormatPercent(x, host);
      assert |r| == 0 || r[0] != Dash[0] || r != Dash;
    }
  }

  /** An amount shows the placeholder exactly when there is no value. */
  lemma FormatUSDDashIffNoValue(x: Value, host: Host)
    requires NeverPrintsDash(host)
    ensures FormatUSD(x, host) == Dash <==> ToNumber(x, host).None?
  {
    var n := ToNumber(x, host);
    if n.Some? {
      var r := FormatUSD(x, host);
      if host.hasIntl {
        assert r == host.currency(n.value);
        assert forall y :: host.currency(y) != Dash;
        assert host.currency(n.value) != Dash;
      } else {
        assert r != Dash by {
          assert r[0] == '$';
          assert Dash[0] == '\U{2014}';
        }
      }
    }
  }

  /** An input whose number is an integer (`5`, `"5"`, `[5]`, `true`) prints
      as that integer, without a point. */
  lemma IntegerPercentPrintsAsInteger(x: Value, k: int, host: Host)
    requires ToNumber(x, host) == Some(k as real)
    requires -ExponentThreshold < k as real < ExponentThreshold
    ensures FormatPercent(x, host) == IntToString(k)
  {
    assert Round(k as real) == k;
  }

  /** The text "5" prints as the integer 5. */
  lemma IntegerTextPercentExample(host: Host)
    requires host.numericLiteral("5") == Some(5.0)
    ensures FormatPercent(Str("5"), host) == "5"
  {
    assert !IsJsSpace('5');
    assert Trim("5") == "5";
    IntegerPercentPrintsAsInteger(Str("5"), 5, host);
  }

  /** The rendering examples: values within 10^-9 of an integer print as it,
      others with one decimal, no value as the placeholder. */
  lemma FormatPercentExamples(host: Host)
    ensures FormatPercent(Num(5.0000000001), host) == "5"
    ensures FormatPercent(Num(5.4), host) == "5.4"
    ensures FormatPercent(Null, host) == Dash
  {
    assert Round(5.0000000001) == 5;
    assert Round(5.4) == 5;
    assert (5.4 * 10.0 + 0.5).Floor == 54;
    assert NatToString(5) == "5";
  }

  /** Without `Intl` the amount is "$" and the rounded number. */
  lemma FormatUSDFallbackExample(host: Host)
    requires !host.hasIntl
    ensures FormatUSD(Num(1500.6), host) == "$1501"
  {
    assert Round(1500.6) == 1501;
    assert NatToString(1501) == "1501" by {
      assert NatToString(1) == "1";
      assert NatToString(15) == "15";
      assert NatToString(150) == "150";
    }
  }

  // ---------- text ----------

  /** `metricTitle` */
  function MetricTitle(p: Value, host: Host): (r: string)
    ensures !Truthy(Get(p, "metricName")) ==> r == "ARPD Metrics"
    ensures Get(p, "metricName").Str? && Get(p, "metricName").s != "" ==> r == Get(p, "metricName").s + " Metrics"
  {
    var name := Get(p, "metricName");
    if Truthy(name) then JsString(name, host) + " Metrics" else "ARPD Metrics"
  }

  /** `headline`: the record's headline when truthy, else the empty string. */
  function Headline(p: Value): (r: Value)
    ensures !Truthy(Get(p, "headline")) ==> r == Str("")
    ensures Truthy(Get(p, "headline")) ==> r == Get(p, "headline")
  {
    OrElse(Get(p, "headline"), Str(""))
  }

  // ---------- tiles ----------

  /** One tile; `caption` holds the source's `label` field, whose name is a
      reserved word here. */
  datatype Tile = Tile(key: string, caption: string, percentText: string, fromText: string, toText: string, width: real)

  /** The parsed percentages of the three periods, in tile order. */
  function Percents(p: Value, host: Host): seq<Option<real>> {
    [ ToNumber(Get(p, "momPercent"), host),
      ToNumber(Get(p, "qoqPercent"), host),
      ToNumber(Get(p, "yoyPercent"), host) ]
  }

  /** `filter((v) => v !== null)` */
  function Present(ps: seq<Option<real>>): (xs: seq<real>)
    ensures forall x :: x in xs <==> Some(x) in ps
  {
    if ps == [] then []
    else (if ps[0].Some? then [ps[0].value] else []) + Present(ps[1..])
  }

  /** `Math.max(...xs)` over a non-empty list of finite numbers. */
  function Largest(xs: seq<real>): (m: real)
    requires xs != []
    ensures m in xs
    ensures forall x :: x in xs ==> x <= m
  {
    if |xs| == 1 then xs[0]
    else
      var rest := Largest(xs[1..]);
      assert forall x :: x in xs ==> x == xs[0] || x in xs[1..];
      if xs[0] >= rest then xs[0] else rest
  }

  /** The largest present percentage, if any is present. */
  function MaxPercent(ps: seq<Option<real>>): (m: Option<real>)
    ensures m.None? <==> forall i :: 0 <= i < |ps| ==> ps[i].None?
    ensures m.Some? ==> m in ps
    ensures m.Some? ==> forall i :: 0 <= i < |ps| && ps[i].Some? ==> ps[i].value <= m.value
  {
    var xs := Present(ps);
    if xs == [] then
      assert forall i :: 0 <= i < |ps| ==> ps[i].None? by {
        forall i | 0 <= i < |ps| ensures ps[i].None? {
          assert ps[i] in ps;
        }
      }
      None
    else
      var m := Largest(xs);
      assert forall i :: 0 <= i < |ps| && ps[i].Some? ==> ps[i].value in xs;
      Some(m)
  }

  /** `barWidth`: no bar without an own value or a positive largest value;
      otherwise the own value as a share of the largest, clamped to [0, 100]. */
  function BarWidth(own: Option<real>, maxPercent: Option<real>): (w: real)
    ensures 0.0 <= w <= 100.0
    ensures own.None? || maxPercent.None? || maxPercent.value <= 0.0 ==> w == 0.0
    ensures own.Some? && maxPercent.Some? && own.value <= 0.0 ==> w == 0.0
    ensures own.Some? && own == maxPercent && own.value > 0.0 ==> w == 100.0
    ensures own.Some? && maxPercent.Some? && 0.0 < own.value <= maxPercent.value
      ==> w == own.value / maxPercent.value * 100.0
  {
    if own.None? || maxPercent.None? || maxPercent.value <= 0.0 then 0.0
    else
      var pct := Max(0.0, own.value / maxPercent.value * 100.0);
      assert own.value <= maxPercent.value ==> own.value / maxPercent.value * 100.0 <= 100.0;
      Min(100.0, pct)
  }

  function MakeTile(key: string, caption: string, percent: Value, from: Value, to: Value,
                    own: Option<real>, maxPercent: Option<real>, host: Host): Tile {
    Tile(key, caption, FormatPercent(percent, host), FormatUSD(from, host), FormatUSD(to, host),
         BarWidth(own, maxPercent))
  }

  /** `tiles`: always three, month, quarter and year over the previous one,
      in that order, whatever the record holds; each bar is its period's
      value measured against the largest present one. */
  function Tiles(p: Value, host: Host): (ts: seq<Tile>)
    ensures |ts| == 3
    ensures ts[0].key == "mom" && ts[1].key == "qoq" && ts[2].key == "yoy"
    ensures ts[0].caption == "MoM" && ts[1].caption == "QoQ" && ts[2].caption == "YoY"
    ensures 0.0 <= ts[0].width <= 100.0 && 0.0 <= ts[1].width <= 100.0 && 0.0 <= ts[2].width <= 100.0
    ensures ts[0].percentText == FormatPercent(Get(p, "momPercent"), host)
         && ts[0].fromText == FormatUSD(Get(p, "momFrom"), host) && ts[0].toText == FormatUSD(Get(p, "momTo"), host)
    ensures ts[1].percentText == FormatPercent(Get(p, "qoqPercent"), host)
         && ts[1].fromText == FormatUSD(Get(p, "qoqFrom"), host) && ts[1].toText == FormatUSD(Get(p, "qoqTo"), host)
    ensures ts[2].percentText == FormatPercent(Get(p, "yoyPercent"), host)
         && ts[2].fromText == FormatUSD(Get(p, "yoyFrom"), host) && ts[2].toText == FormatUSD(Get(p, "yoyTo"), host)
    ensures var ps := Percents(p, host); var m := MaxPercent(ps);
      ts[0].width == BarWidth(ps[0], m) && ts[1].width == BarWidth(ps[1], m) && ts[2].width == BarWidth(ps[2], m)
  {
    var ps := Percents(p, host);
    var maxPercent := MaxPercent(ps);
    [ MakeTile("mom", "MoM", Get(p, "momPercent"), Get(p, "momFrom"), Get(p, "momTo"), ps[0], maxPercent, host),
      MakeTile("qoq", "QoQ", Get(p, "qoqPercent"), Get(p, "qoqFrom"), Get(p, "qoqTo"), ps[1], maxPercent, host),
      MakeTile("yoy", "YoY", Get(p, "yoyPercent"), Get(p, "yoyFrom"), Get(p, "yoyTo"), ps[2], maxPercent, host) ]
  }

  /** Each bar is its period's share of the largest present percentage: 0
      without an own value, for a non-positive own value and when the largest
      value is not positive; 100 for the period holding the largest value; and
      the plain ratio otherwise, since no own value exceeds the largest. */
  lemma {:induction false} BarIsShareOfLargest(ps: seq<Option<real>>, i: nat)
    requires i < |ps|
    ensures var w := BarWidth(ps[i], MaxPercent(ps));
      && (ps[i].None? ==> w == 0.0)
      && (ps[i].Some? && ps[i].value <= 0.0 ==> w == 0.0)
      && (ps[i].Some? && (forall j :: 0 <= j < |ps| && ps[j].Some? ==> ps[j].value <= 0.0) ==> w == 0.0)
      && ((ps[i].Some? && ps[i].value > 0.0
           && forall j :: 0 <= j < |ps| && ps[j].Some? ==> ps[j].value <= ps[i].value) ==> w == 100.0)
      && (ps[i].Some? && ps[i].value > 0.0 ==>
            exists j :: 0 <= j < |ps| && ps[j].Some?
              && (forall l :: 0 <= l < |ps| && ps[l].Some? ==> ps[l].value <= ps[j].value)
              && w == ps[i].value / ps[j].value * 100.0)
  {
    var m := MaxPercent(ps);
    if ps[i].Some? {
      var j :| 0 <= j < |ps| && ps[j] == m;
      assert ps[i].value <= ps[j].value;
      if forall l :: 0 <= l < |ps| && ps[l].Some? ==> ps[l].value <= ps[i].value {
        assert m == ps[i];
      }
    }
  }

  /** With no percentage present every bar is empty. */
  lemma NoPercentNoBars(p: Value, host: Host)
    requires forall i :: 0 <= i < 3 ==> Percents(p, host)[i].None?
    ensures forall i :: 0 <= i < 3 ==> Tiles(p, host)[i].width == 0.0
  {
  }

  /** Percentages 10, 5 and 20 give bars 50, 25 and 100. */
  lemma TileWidthExample(host: Host)
    ensures var p := Obj(map["momPercent" := Num(10.0), "qoqPercent" := Num(5.0), "yoyPercent" := Num(20.0)]);
      var ts := Tiles(p, host);
      ts[0].width == 50.0 && ts[1].width == 25.0 && ts[2].width == 100.0
  {
    var p := Obj(map["momPercent" := Num(10.0), "qoqPercent" := Num(5.0), "yoyPercent" := Num(20.0)]);
    var ps := Percents(p, host);
    assert ps == [Some(10.0), Some(5.0), Some(20.0)];
    var m := MaxPercent(ps);
    assert m.Some? && m.value >= 20.0 && m in ps;
    assert m == Some(20.0);
    assert BarWidth(ps[0], m) == 50.0 && BarWidth(ps[1], m) == 25.0 && BarWidth(ps[2], m) == 100.0;
  }

  /** The empty record shows the defaults: the generic title, no headline,
      and three tiles of placeholders with empty bars. */
  lemma EmptyRecordShowsDefaults(host: Host)
    ensures MetricTitle(EmptyRecord, host) == "ARPD Metrics"
    ensures Headline(EmptyRecord) == Str("")
    ensures forall i :: 0 <= i < 3 ==>
      var t := Tiles(EmptyRecord, host)[i];
      t.percentText == Dash && t.fromText == Dash && t.toText == Dash && t.width == 0.0
  {
    var ps := Percents(EmptyRecord, host);
    assert ps == [None, None, None];
  }

  /** When no candidate holds a record, the component shows those defaults. */
  lemma NothingFoundShowsDefaults(props: Props, host: Host)
    requires forall k :: 0 <= k < 10 ==> Probe(Candidates(props)[k], host).None?
    ensures ResolvedPayload(props, host) == EmptyRecord
    ensures var p := ResolvedPayload(props, host);
      MetricTitle(p, host) == "ARPD Metrics" && Headline(p) == Str("")
    ensures forall i :: 0 <= i < 3 ==>
      var t := Tiles(ResolvedPayload(props, host), host)[i];
      t.percentText == Dash && t.fromText == Dash && t.toText == Dash && t.width == 0.0
  {
    FirstMatchIsFirstHit(Candidates(props), host, 10);
    EmptyRecordShowsDefaults(host);
  }
}
