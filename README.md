# Agent chart outputs: payload resolution and display data

Two Lightning Web Components render what an AI agent returns. The agent
layer hands them loosely shaped values: the record may be passed directly,
wrapped in `{type, value}` envelopes, inside a one-element array, or as
JSON text under a `json` key. Each component digs out its record and
derives display data from it.

- **ARPD metrics** (`arpdMetricsV4`) searches ten candidate places for a
  metrics record. It tries them in a fixed order, and in each one it tries
  three rules: embedded JSON text, a recognised metric key, and one look
  into `value`. It then builds a title, a headline and exactly three tiles
  (month, quarter and year over the previous one). Each tile has a
  formatted percentage, two formatted dollar amounts and a bar width
  measured against the largest percentage present.
- **Top products** (`topProductsV4`) strips at most one array layer and one
  `value` layer, and selects `topProducts` when present. It then builds one
  row per product: an index-prefixed key, a name, a rounded value text and
  an integer bar width relative to the largest value.

JavaScript values are the datatype `JsValues.Value`: undefined, null,
boolean, number as an exact `real`, string, array and object. Truthiness,
`typeof v === "object"`, `in`, `?.`, `||`, `??`, `Number(v)`, `String(v)`,
`Math.round`, `toFixed(1)` and `trim` are written out as functions. The
runtime services whose workings are out of scope are fields of a `Host`
value that every operation takes as a parameter:

- `JSON.parse`;
- reading a numeric literal;
- `Number::toString` for numbers that are not small integers;
- `Intl.NumberFormat`.

Files:

- `JsText.dfy`: trimming, decimal rendering of integers, comma joining.
- `JsValues.dfy`: the value model and the runtime conversions.
- `ArpdMetrics.dfy`: the metrics component.
- `TopProducts.dfy`: the products component.

## Model

| member | source | states |
|---|---|---|
| ArpdMetrics.Candidates | force-app/main/default/lwc/arpdMetricsV4/arpdMetricsV4.js:10-21 | There are ten candidates in the source's order. First come payload, value, data and output. Then come the `value` of value, data and output, and last the `output` of value, data and output. |
| ArpdMetrics.HasJsonText | force-app/main/default/lwc/arpdMetricsV4/arpdMetricsV4.js:26 | Only an object whose `json` is a string can satisfy the JSON rule. |
| ArpdMetrics.JsonTextRule | force-app/main/default/lwc/arpdMetricsV4/arpdMetricsV4.js:26 | The JSON rule holds if and only if the object's `json` is a string whose first character that is not white space is "{". |
| ArpdMetrics.RecognizedByKeySet | force-app/main/default/lwc/arpdMetricsV4/arpdMetricsV4.js:36-42 | An object is recognised if and only if one of momPercent, qoqPercent, yoyPercent, metricName or headline is among its own keys. |
| ArpdMetrics.ResolvedPayload | force-app/main/default/lwc/arpdMetricsV4/arpdMetricsV4.js:9-70 | The resolver never fails. Its result is always an object or an array. |
| ArpdMetrics.FirstMatch | force-app/main/default/lwc/arpdMetricsV4/arpdMetricsV4.js:23-69 | The search loop yields an object or an array: the first hit, or `{}`. |
| ArpdMetrics.FirstMatchIsFirstHit | force-app/main/default/lwc/arpdMetricsV4/arpdMetricsV4.js:23-69 | If candidate k is the first that yields a record, the result is that record. If no candidate yields one, the result is `{}`. |
| ArpdMetrics.Probe | force-app/main/default/lwc/arpdMetricsV4/arpdMetricsV4.js:24-67 | A non-object candidate yields nothing. Whatever a candidate yields is an object or an array. |
| ArpdMetrics.NonObjectSkipped | force-app/main/default/lwc/arpdMetricsV4/arpdMetricsV4.js:24 | Undefined, null, booleans, numbers and strings never stop the search. |
| ArpdMetrics.FromJsonText | force-app/main/default/lwc/arpdMetricsV4/arpdMetricsV4.js:27-32 | Parsing the `json` text yields an object or an array. It is either the parse result or the carrier itself. |
| ArpdMetrics.MatchRecord | force-app/main/default/lwc/arpdMetricsV4/arpdMetricsV4.js:26-44 | An object yields a record exactly when it has brace-led `json` text or a recognised key. With a key and no such text, the record is the object itself. |
| ArpdMetrics.JsonTextDecides | force-app/main/default/lwc/arpdMetricsV4/arpdMetricsV4.js:26-33 | Brace-led `json` text decides the search whatever else the object holds. The result is the parsed object or array, or else the carrier. Later candidates are not tried. |
| ArpdMetrics.RecognizedIsReturned | force-app/main/default/lwc/arpdMetricsV4/arpdMetricsV4.js:36-44 | An object with a recognised key and no `json` text is returned unchanged. The key's presence decides, not its value. |
| ArpdMetrics.CanonicalRecordResolvesToItself | force-app/main/default/lwc/arpdMetricsV4/arpdMetricsV4.js:10-12 | A canonical record resolves to itself when passed as `payload`. It also does when passed as `value` while `payload` holds no object. |
| ArpdMetrics.UnwrapIsOneLevel | force-app/main/default/lwc/arpdMetricsV4/arpdMetricsV4.js:47-66 | An object matching neither rule yields what its object `value` matches. If that value matches nothing, the search moves on to the next candidate. |
| ArpdMetrics.DoublyWrappedRecordIsSkipped | force-app/main/default/lwc/arpdMetricsV4/arpdMetricsV4.js:47-66 | A record wrapped twice in `value` is not found through that candidate. |
| ArpdMetrics.EmbeddedJsonExample | force-app/main/default/lwc/arpdMetricsV4/arpdMetricsV4.js:26-29 | `{json: '{"headline":"x"}'}` passed as `payload` (the first candidate) resolves to the parsed object. |
| ArpdMetrics.NothingFoundShowsDefaults | force-app/main/default/lwc/arpdMetricsV4/arpdMetricsV4.js:69 | When no candidate yields a record, the result is `{}`. Following lines 102-156, the title is then "ARPD Metrics" and the headline is "". All three tiles show the placeholder and an empty bar. |
| ArpdMetrics.EmptyRecordShowsDefaults | force-app/main/default/lwc/arpdMetricsV4/arpdMetricsV4.js:102-156 | On `{}`: the title is "ARPD Metrics" and the headline is "". All three tiles show the placeholder and an empty bar. |
| ArpdMetrics.ToNumber | force-app/main/default/lwc/arpdMetricsV4/arpdMetricsV4.js:73-77 | Null, undefined, "" and objects give no value, and a number gives itself. Any other value gives exactly `Number(x)`: its finite number, or no value for NaN. |
| ArpdMetrics.ToNumberExamples | force-app/main/default/lwc/arpdMetricsV4/arpdMetricsV4.js:73-77 | "", null and undefined give no value. "12.5" gives 12.5. |
| ArpdMetrics.FormatPercent | force-app/main/default/lwc/arpdMetricsV4/arpdMetricsV4.js:79-84 | No value gives the placeholder. |
| ArpdMetrics.FormatPercentDashIffNoValue | force-app/main/default/lwc/arpdMetricsV4/arpdMetricsV4.js:79-84 | The placeholder appears if and only if `toNumber` yields no value. |
| ArpdMetrics.IntegerPercentPrintsAsInteger | force-app/main/default/lwc/arpdMetricsV4/arpdMetricsV4.js:82-83 | Any input that `toNumber` turns into an integer prints as that integer without a point. This covers a number, a numeric text, a one-element array and a boolean. |
| ArpdMetrics.IntegerTextPercentExample | force-app/main/default/lwc/arpdMetricsV4/arpdMetricsV4.js:79-83 | The text "5" prints "5". |
| ArpdMetrics.FormatPercentExamples | force-app/main/default/lwc/arpdMetricsV4/arpdMetricsV4.js:79-84 | 5.0000000001 prints "5" (within 1e-9 of an integer). 5.4 prints "5.4". Null prints the placeholder. |
| ArpdMetrics.FormatUSD | force-app/main/default/lwc/arpdMetricsV4/arpdMetricsV4.js:86-99 | No value gives the placeholder. Without `Intl`, the text is "$" followed by the decimal text of `Math.round(n)` when that is below 10^21 in magnitude, and it always starts with "$". |
| ArpdMetrics.FormatUSDDashIffNoValue | force-app/main/default/lwc/arpdMetricsV4/arpdMetricsV4.js:86-99 | The placeholder appears if and only if `toNumber` yields no value. |
| ArpdMetrics.FormatUSDFallbackExample | force-app/main/default/lwc/arpdMetricsV4/arpdMetricsV4.js:95-98 | Without `Intl`, 1500.6 prints "$1501". |
| ArpdMetrics.MetricTitle | force-app/main/default/lwc/arpdMetricsV4/arpdMetricsV4.js:102-105 | A falsy `metricName` gives "ARPD Metrics". A non-empty string name gives that name followed by " Metrics". |
| ArpdMetrics.Headline | force-app/main/default/lwc/arpdMetricsV4/arpdMetricsV4.js:107-109 | The headline is the record's headline when truthy, else "". |
| ArpdMetrics.Present | force-app/main/default/lwc/arpdMetricsV4/arpdMetricsV4.js:119 | The filtered list holds exactly the present percentages. |
| ArpdMetrics.Largest | force-app/main/default/lwc/arpdMetricsV4/arpdMetricsV4.js:120 | `Math.max` of a non-empty list is a member of it and bounds every member. |
| ArpdMetrics.MaxPercent | force-app/main/default/lwc/arpdMetricsV4/arpdMetricsV4.js:119-120 | There is no maximum if and only if no percentage is present. Otherwise the maximum is one of them and bounds all of them. |
| ArpdMetrics.BarWidth | force-app/main/default/lwc/arpdMetricsV4/arpdMetricsV4.js:122-128 | The width lies in [0, 100]. It is 0 without an own value, without a positive maximum, or for a non-positive own value. It is 100 when the own value is the positive maximum, and own/max·100 when the own value lies between 0 and the maximum. |
| ArpdMetrics.Tiles | force-app/main/default/lwc/arpdMetricsV4/arpdMetricsV4.js:112-156 | There are always three tiles, keyed mom, qoq, yoy and captioned MoM, QoQ, YoY. Each tile's percentage text and from/to amounts are formatted from its own period's `Percent`, `From` and `To` fields. Each width lies in [0, 100] and is that period's bar width against the largest present percentage. |
| ArpdMetrics.BarIsShareOfLargest | force-app/main/default/lwc/arpdMetricsV4/arpdMetricsV4.js:119-128 | A bar is 0 without an own value, for a non-positive own value, or when no present value is positive. It is 100 for the period holding the positive maximum. Otherwise it is own divided by the largest present value, times 100. |
| ArpdMetrics.NoPercentNoBars | force-app/main/default/lwc/arpdMetricsV4/arpdMetricsV4.js:119-124 | With no percentage present, every bar is 0. |
| ArpdMetrics.TileWidthExample | force-app/main/default/lwc/arpdMetricsV4/arpdMetricsV4.js:112-156 | Percentages 10, 5 and 20 give bars 50, 25 and 100. |
| TopProducts.Unwrap | force-app/main/default/lwc/topProductsV4/topProductsV4.js:6-16 | An empty array gives undefined, and a non-empty array gives its first element. The element, or a non-array input, is then replaced by its `value` when it has that key. Otherwise it is kept. |
| TopProducts.UnwrapIsShallow | force-app/main/default/lwc/topProductsV4/topProductsV4.js:6-16 | A nested array stays intact. A `value` wrapper inside a `value` wrapper keeps its inner layer. |
| TopProducts.Payload | force-app/main/default/lwc/topProductsV4/topProductsV4.js:18-25 | The payload is the unwrapped value's `topProducts` when that key is present, else the unwrapped value itself. The `??` fallback never adds a case. |
| TopProducts.Title | force-app/main/default/lwc/topProductsV4/topProductsV4.js:27-29 | The title is always truthy: the payload's title when truthy, else "Top Products". |
| TopProducts.Subtitle | force-app/main/default/lwc/topProductsV4/topProductsV4.js:31-33 | The subtitle is the payload's subtitle when truthy, else "". |
| TopProducts.Products | force-app/main/default/lwc/topProductsV4/topProductsV4.js:35-38 | The products are the payload's `products` when that is an array, else the empty list. |
| TopProducts.HasProducts | force-app/main/default/lwc/topProductsV4/topProductsV4.js:40-42 | True if and only if `products` is a non-empty array. |
| TopProducts.Coerce | force-app/main/default/lwc/topProductsV4/topProductsV4.js:45 | A missing or non-numeric value counts as 0, and a number as itself. |
| TopProducts.LargestCoerced | force-app/main/default/lwc/topProductsV4/topProductsV4.js:46 | `Math.max(0, ...vals)` is at least 0 and at least every value. It is 0 or one of the values. |
| TopProducts.MaxValue | force-app/main/default/lwc/topProductsV4/topProductsV4.js:44-48 | The maximum is always positive and bounds every value. It is the largest value when some value is positive (so 0.5 stays 0.5), and 1 otherwise. |
| TopProducts.FormatValue | force-app/main/default/lwc/topProductsV4/topProductsV4.js:50-54 | NaN gives the placeholder. Any other value gives the decimal text of `Math.round(Number(v))` when that is below 10^21 in magnitude. |
| TopProducts.FormatValueDashIffNaN | force-app/main/default/lwc/topProductsV4/topProductsV4.js:50-54 | The placeholder appears if and only if `Number(v)` is NaN. |
| TopProducts.BarPercent | force-app/main/default/lwc/topProductsV4/topProductsV4.js:61 | The width is an integer in [0, 100]. A non-positive value gives 0 and the maximum gives 100. A value between 0 and the maximum gives the rounded percentage. |
| TopProducts.MakeRow | force-app/main/default/lwc/topProductsV4/topProductsV4.js:59-68 | A row's width lies in [0, 100]. |
| TopProducts.Rows | force-app/main/default/lwc/topProductsV4/topProductsV4.js:56-69 | There is one row per product, in order. Each row's key comes from its own index and name, and its name defaults to the placeholder. Its value text is the product's formatted value. Its width is the product's bar percentage against `maxValue`. |
| TopProducts.RowKey | force-app/main/default/lwc/topProductsV4/topProductsV4.js:63 | A key is the index's digits, a hyphen, then the name's text: the name itself for a non-empty string name, and "item" for a falsy name. The digits read back as the index. |
| TopProducts.RowKeyInjective | force-app/main/default/lwc/topProductsV4/topProductsV4.js:63 | Keys for different indices differ, whatever the names. |
| TopProducts.RowKeysDistinct | force-app/main/default/lwc/topProductsV4/topProductsV4.js:63 | The keys of any two rows differ, even with repeated or missing names. |
| TopProducts.RowWidth | force-app/main/default/lwc/topProductsV4/topProductsV4.js:60-61 | The row holding the positive maximum gets 100, and a non-positive value gets 0. A non-negative value gets its rounded share of the maximum. |
| TopProducts.MissingValueShowsDashWithEmptyBar | force-app/main/default/lwc/topProductsV4/topProductsV4.js:60-65 | A product without a value shows the placeholder and has width 0. |
| TopProducts.WrappedListUnwraps | force-app/main/default/lwc/topProductsV4/topProductsV4.js:6-48 | `[{value: {topProducts: {products: [A:10, B:5]}}}]` yields products A and B, with values 10 and 5 and maximum 10. |
| TopProducts.WrappedListNames | force-app/main/default/lwc/topProductsV4/topProductsV4.js:56-69 | That envelope gives two rows, named A then B. |
| TopProducts.WrappedListWidths | force-app/main/default/lwc/topProductsV4/topProductsV4.js:56-69 | Those rows have widths 100 and 50. |
| JsText.TrimStartSpec | force-app/main/default/lwc/arpdMetricsV4/arpdMetricsV4.js:26 | `trimStart` drops only leading white space. What it keeps is a suffix that does not start with white space. |
| JsText.TrimEndSpec | force-app/main/default/lwc/arpdMetricsV4/arpdMetricsV4.js:26 | `trimEnd` drops only trailing white space. What it keeps is a prefix that does not end with white space. |
| JsText.TrimEmptyIffBlank | force-app/main/default/lwc/arpdMetricsV4/arpdMetricsV4.js:74-75 | `trim` yields "" if and only if the string is all white space. |
| JsText.TrimmedStartsWith | force-app/main/default/lwc/arpdMetricsV4/arpdMetricsV4.js:26 | `s.trim().startsWith("{")` holds if and only if the first character of s that is not white space is a brace. |
| JsText.NatToString | force-app/main/default/lwc/topProductsV4/topProductsV4.js:63 | An index renders as a non-empty string of digits with no leading zero. |
| JsText.NatToStringRoundTrip | force-app/main/default/lwc/topProductsV4/topProductsV4.js:63 | Reading an index's rendering back gives the index. |
| JsText.NatToStringInjective | force-app/main/default/lwc/topProductsV4/topProductsV4.js:63 | Different indices render differently. |
| JsValues.TruthyIffNotFalsy | force-app/main/default/lwc/topProductsV4/topProductsV4.js:28 | A value is truthy if and only if it is not undefined, null, false, 0 or "". Empty arrays and objects are truthy. |
| JsValues.NumberText | force-app/main/default/lwc/topProductsV4/topProductsV4.js:53 | `String(n)` of an integer below 10^21 in magnitude is its decimal digits, after "-" when negative. The digits read back as its magnitude. |
| JsValues.StringToNumber | force-app/main/default/lwc/arpdMetricsV4/arpdMetricsV4.js:75 | `Number` of an all-white-space string is 0. Otherwise it is the numeric reading of the trimmed, non-empty text. |
| JsValues.JsString | force-app/main/default/lwc/topProductsV4/topProductsV4.js:63 | `String(v)` of a string is itself, and of a number is its number text. An empty array gives "". A one-element array gives its element's text, or "" for null or undefined. |
| JsValues.Round | force-app/main/default/lwc/topProductsV4/topProductsV4.js:53 | `Math.round` gives the integer within one half, with halves going up. |
| JsValues.OrElse | force-app/main/default/lwc/topProductsV4/topProductsV4.js:64 | The logical-or default is a when a is truthy and d otherwise. It is truthy whenever d is. |
| JsValues.NumberOf | force-app/main/default/lwc/topProductsV4/topProductsV4.js:51 | `Number(v)` is the number itself for a number and 0 for null. It is NaN for undefined and for a plain object. |
| JsValues.ToFixed1 | force-app/main/default/lwc/arpdMetricsV4/arpdMetricsV4.js:83 | `toFixed(1)` starts with "-" for a negative number. Below 10^21 it ends in a point and one digit, and it starts with a digit when not negative. |

## Left out

- The LWC framework: `LightningElement`, the `@api` fields and getter reactivity. The inputs are parameters and each getter is a function of them.
- The CSS strings `width:X%;` are not built. Both components expose the width number that goes into them.
- `JSON.parse` is the host's `parse`. Only whether it succeeds, and what it returns, matters.
- Reading a non-blank numeric string (`Number(" 12 ")`, hex, exponents) is the host's `numericLiteral`, applied after trimming.
- `String(n)` for numbers that are not integers below 10^21 in magnitude is the host's `numberToString`.
- FormatUSD: the `Intl.NumberFormat` output is the host's `currency`. Whether constructing or calling the formatter throws is the flag `hasIntl`. Beyond the placeholder case, only the "$" fallback is stated: "$" and the rounded integer below 10^21, and for larger amounts only the leading "$".
- FormatPercent: beyond the placeholder case, the contract states only the integer case (`IntegerPercentPrintsAsInteger`) and two worked examples. Numbers are exact reals, so IEEE-754 rounding of `n - Math.round(n)` and of `toFixed` is not modelled.
- BarPercent, BarWidth: the ratio `val / max * 100` is exact, so at a .5 boundary the result can differ from IEEE-754 arithmetic. For example, `Math.round((0.29 / 2) * 100)` is 14 in the component, while `BarPercent(0.29, 2.0)` is 15.
- Non-finite numbers: `Number(v)` giving Infinity is folded into the NaN case. An "Infinity" product value therefore counts as 0 and shows the placeholder, whereas the component would keep Infinity and produce NaN widths.
- `in` and property access see only the own keys of plain objects. Array indices, `length` and keys inherited from `Object.prototype` are not modelled, and neither are custom `toString`/`valueOf`, symbols or getters.
- `force-app/main/default/lwc/topProductsMockV4/topProductsMockV4.js` is not part of this model: it ignores its input and renders a fixed list.
