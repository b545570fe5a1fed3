# voks templating core, in Dafny

This project models the rendering core of voks, a templating library for
tagged template literals. Four things are modelled:

1. An `html` tagged template is mixed up into one list of parts.
   `mixUp` interleaves each literal segment with its key and drops the keys
   that are `null` or `undefined`.
2. `resolver` walks that list and yields text chunks in order. What a part
   yields depends on its shape:
   - `null`, `undefined` and `false` yield an empty chunk;
   - numbers yield their decimal text;
   - literal segments are yielded as written;
   - arrays and nested templates are resolved in place;
   - a `TemplateAttribute` yields its text, with the trailing space trimmed
     unless the next part of the same list is also an attribute;
   - plain objects become one attribute per entry;
   - everything else is awaited, and is then either delegated to (when it is
     a template) or escaped; a promise that settles to `null` or `undefined`
     throws instead (see "## Findings").
3. `renderToString` drains the chunks into one string.
4. The string helpers behind these steps:
   - `escapeHTML`, five chained single-character replacements;
   - `TemplateAttribute`, with its `kebabize`d key and its `toString`;
   - `minify`, five chained whitespace rewrites.

Modules follow the source files:

| module (file) | models |
|---|---|
| `JsString` (js_string.dfy) | the JavaScript built-ins the core relies on |
| `EscapeHtml` (escape_html.dfy) | lib/escape_html.ts |
| `TemplateAttributes` (template_attribute.dfy) | lib/template_attribute.ts |
| `Minify` (minify.dfy) | lib/minify.ts |
| `Voks` (voks.dfy) | mod.ts |
| `VoksProperties` (voks_properties.dfy) | what mod.ts promises, and the test vectors |

The built-ins in `JsString` are the `\s` class, ASCII `toLowerCase`,
`trimEnd`, `Number.prototype.toString` for integers and `join("")`.

JavaScript's duck typing is replaced by the datatype `Voks.Unit`, with one
constructor per shape the resolver tests for. A promise is represented by
what it settles to: another template, a primitive value, or an object of
another class. Such an object (a `RawContent`, a `Date`) is represented by
the text its `toString` gives, which is all `escapeHTML` reads from it.

Where resolving throws is stated apart from what it yields: the predicate
`Voks.Throws` says whether a part throws, and `Voks.Chunks` what it yields
otherwise. The resolver method and `renderToString` return both, so a
rendering either rejects or gives the text of `Voks.Render`.

The resolver and the rendering are imperative, as in mod.ts, and each is
proved against a recursive specification function:
- the method `Voks.Resolver` runs the loop with its index `i` and is proved
  equal to `Voks.Resolve`;
- `Voks.RenderToString` drives a `ChunkGenerator` object with a
  `while (true)` loop and is proved equal to `Voks.Render` of the template.

The other files are pure and are modelled as functions with lemmas. The
escape chain is related to a one-pass reference map, `EscapeEachChar`.
Each minify pass is characterised by the shape it establishes and by the
characters it keeps.

One place where the code and its tests disagree: the tests of `raw` content
(synchronous_rendering_test.ts:305-331) expect raw text to bypass escaping.
Nothing in `escapeHTML`, `TemplateAttribute.toString` or `resolver`
special-cases `RawContent`, so the model follows the code. A `RawContent`
is not a plain object, so as a key it reaches the last branch of the
resolver, and as an attribute value the last case of `toString`. Either way
it renders as the escaped text of its `toString`, `[object Object]`
(`VoksProperties.RawContentVector`).

## Model

| member | source | states |
|---|---|---|
| Voks.Pairs | mod.ts:84-88 | the mapped and concatenated pairs hold two parts per segment |
| Voks.RemoveNullish | mod.ts:89 | the filter never lengthens the list |
| VoksProperties.MixUpSnoc | mod.ts:80-90 | appending a segment appends its static fragment, then its key unless that key is `null` or `undefined` |
| VoksProperties.RemoveNullishAppend | mod.ts:89 | the filter distributes over concatenation |
| VoksProperties.RemoveNullishKeeps | mod.ts:89 | a part survives the filter exactly when it was present and is neither `null` nor `undefined` (so `0` and `false` stay) |
| VoksProperties.MixUpParts | mod.ts:80-90 | no mixed-up part is nullish, and every segment, even an empty one, is a part |
| VoksProperties.PairsHasSegment | mod.ts:84 | segment `i` is among the pairs as a static fragment |
| VoksProperties.MixUpLength | mod.ts:80-90 | the length is the number of segments plus the number of present keys among the first `n` |
| VoksProperties.MixUpFour | mod.ts:80-90 | four segments with two present and two nullish keys mix up to the six expected parts |
| VoksProperties.MixUpVector | synchronous_rendering_test.ts:188-210 | `["a","b","c","d"]` with `["val", 0, null, undefined]` gives `a, val, b, 0, c, d` |
| Voks.Attr | mod.ts:104-105 | `attr` keeps the value, and its key has no uppercase letter and equals the given key when that had none |
| Voks.EntryAttributes | mod.ts:53-56 | one attribute per entry of the object |
| Voks.SizeAllEntryAttributes | mod.ts:53-57 | the attributes of an object measure as many as its entries, so resolving them terminates |
| Voks.SizeAllElement | mod.ts:32 | each part measures no more than the list it is in |
| Voks.ResolveStep | mod.ts:31-73 | the output of parts `i..` is what part `i` yields, seeing whether `parts[i + 1]` is an attribute, followed by the output of parts `i + 1..` |
| Voks.ResolverAdvance | mod.ts:32-73 | the loop invariant (chunks so far + the rest's output = the whole output) survives one step |
| Voks.Resolver | mod.ts:28-75 | the loop with its index over the parts throws exactly when one of the parts throws, and otherwise yields exactly `Resolve(parts)` |
| Voks.ResolvePart | mod.ts:33-72 | the loop body throws exactly when the part throws, and otherwise yields exactly the chunks specified for the part's shape |
| Voks.NestedAll | mod.ts:119-120 | one nested template per element of the list argument |
| Voks.ChunkGenerator.constructor | mod.ts:28-75 | a fresh generator holds the resolver's chunks and whether it throws, and has yielded none |
| Voks.ChunkGenerator.Next | mod.ts:124 | `next()` yields the next chunk and is not done; after the last it rejects if the resolver throws, and otherwise reports done with an empty value and stays put |
| Voks.RenderToString | mod.ts:115-134 | the result rejects exactly when the resolver throws; otherwise the pushed values joined are the template's rendering; a list argument is wrapped as a template of its elements |
| VoksProperties.ResolveAppend | mod.ts:32-40 | the output of two lists, cut where no attribute is followed by an attribute, is the output of the first followed by that of the second |
| VoksProperties.ResolveAppendHead | mod.ts:32-46 | the first part of a joined list yields what it yields in its own list |
| VoksProperties.ChunksIgnoreFlag | mod.ts:33-72 | only an attribute looks at the part after it |
| VoksProperties.RenderAppend | mod.ts:115-134 | the same cut on the joined text |
| VoksProperties.AttributePairCut | mod.ts:41-46 | at two adjacent attributes the cut is not clean: the first keeps its space inside the pair and is trimmed alone |
| VoksProperties.ResolveSplice | mod.ts:39-66 | an array, a nested template or a promise of a template contributes its own parts' output in place, with no separator |
| VoksProperties.BlankPart | mod.ts:33-34 | `null`, `undefined` and `false` yield exactly one empty chunk |
| VoksProperties.NumberPart | mod.ts:35-70 | a number yields its decimal text, `0` yields `"0"`, but a promise of `0` yields `""` |
| VoksProperties.StaticPart | mod.ts:37-38 | a literal segment yields its content unescaped |
| VoksProperties.AwaitedLikePromise | mod.ts:58-71 | a string or `true` is handled exactly like a promise settling to it |
| VoksProperties.FalsySettled | mod.ts:65-70 | a promise settling to `false`, `0` or `""` does not throw and yields `""` |
| VoksProperties.InstancePart | mod.ts:52-71 | an object of another class is not a plain object: it is awaited and its `toString` text is escaped, exactly like a promise settling to it, and it never throws |
| VoksProperties.RawContentVector | mod.ts:112 | a `raw(...)` key renders as `[object Object]`, not as its content |
| VoksProperties.SettledThrows | mod.ts:61-70 | a promise throws exactly when it settles to `null` or `undefined`; a primitive key never throws |
| VoksProperties.ThrowsAnyIff | mod.ts:32-73 | the resolver throws exactly when one of its parts throws |
| VoksProperties.ThrowsAnyAppend | mod.ts:32-73 | two joined lists throw exactly when one of them throws |
| VoksProperties.AttributesNeverThrow | mod.ts:41-46 | a run of attributes never throws |
| VoksProperties.MappingNeverThrows | mod.ts:52-57 | a plain object never throws |
| VoksProperties.NullPromiseRejects | mod.ts:61-70 | `<p>${Promise.resolve(null)}</p>` throws, where a `null` key in its place renders `<p></p>` |
| VoksProperties.SettledNullishLikeKey | mod.ts:70 | the intended reading: a promise settling to `null` or `undefined` yields `""`, the chunk of a `null` or `undefined` key |
| VoksProperties.TextPart | mod.ts:58-71 | a string key yields its escaped text |
| VoksProperties.AttributeSpacing | mod.ts:41-46 | an attribute's chunk ends in a space exactly when the next part is an attribute and the attribute renders anything; otherwise exactly the trailing space is trimmed |
| Voks.AttributeParts | mod.ts:41-46 | a run of attributes is one part per attribute |
| VoksProperties.AttributeRun | mod.ts:41-73 | a run of attributes renders every one with its trailing space except the last, which is trimmed |
| VoksProperties.AttributeRunGlue | mod.ts:41-46 | the first attribute's text in front of the others' glues into the run's text |
| VoksProperties.AttributesTextInit | mod.ts:41-46 | the text of all but the last attribute, one attribute at a time |
| VoksProperties.AttributeRunSingle | mod.ts:44-46 | a lone attribute is trimmed |
| VoksProperties.AttributeRunHead | mod.ts:42-45 | an attribute followed by another keeps its trailing space |
| Voks.EntryList | mod.ts:53-56 | one attribute per entry, in order |
| VoksProperties.MappingPart | mod.ts:52-57 | a plain object renders as the run of attributes built from its entries, in order, under the same trimming rule; an empty object renders nothing |
| VoksProperties.InsertHyphensChars | lib/template_attribute.ts:47 | the hyphen pass adds only hyphens |
| VoksProperties.KebabizeNoAngle | lib/template_attribute.ts:46-48 | `kebabize` introduces no angle bracket |
| VoksProperties.ToStringNoAngle | lib/template_attribute.ts:33-43 | an attribute whose key has no angle bracket renders none |
| VoksProperties.IntToStringNoAngle | mod.ts:36 | a number's text has no angle bracket |
| VoksProperties.JoinNoAngle | mod.ts:133 | joining texts without angle brackets gives none |
| VoksProperties.NoInjectedMarkup | mod.ts:28-75 | when literal segments and attribute keys hold no angle bracket, no chunk does: keys cannot inject markup |
| VoksProperties.NoInjectedMarkupPart | mod.ts:33-72 | the same for one part of every shape |
| VoksProperties.RenderNoInjectedMarkup | mod.ts:115-134 | the same for the rendered text |
| VoksProperties.SegmentThenKey | mod.ts:84-89 | a segment and its filtered key render as the segment followed by the key's text |
| VoksProperties.RenderHtml | mod.ts:95-134 | rendering `html` is interpolation: each segment as written followed by its key's text |
| VoksProperties.KeyTextChunks | mod.ts:32-46 | a key alone in its list yields its chunks as if nothing followed |
| VoksProperties.UndefinedKeyText | mod.ts:89 | the missing key after the last segment contributes nothing |
| VoksProperties.StaticTemplate | synchronous_rendering_test.ts:10-34 | a template without keys renders exactly its text |
| VoksProperties.OneKeyTemplate | mod.ts:95-98 | a key between two segments renders between them |
| VoksProperties.ResolveNestedAll | mod.ts:39-51 | a list of templates resolves to their renders concatenated |
| VoksProperties.RenderMany | mod.ts:119-121 | `renderToString` of a list is the concatenation of each template's render, with no separator |
| VoksProperties.TextKeyEscaped | synchronous_rendering_test.ts:118-128 | a string key is rendered escaped between its segments |
| VoksProperties.NestedKeyVerbatim | synchronous_rendering_test.ts:130-140 | an `html` template as a key is rendered as it is, not escaped |
| VoksProperties.AttributePairChunks | mod.ts:39-46 | an array of two attributes: the first keeps its space, the second is trimmed |
| VoksProperties.AttributeListKey | synchronous_rendering_test.ts:171-186 | an array of two attributes as a key renders as first-with-space then second-trimmed |
| VoksProperties.ZeroVector | synchronous_rendering_test.ts:48-52 | `<div>${0}</div>` renders `<div>0</div>` |
| VoksProperties.NumberVector | synchronous_rendering_test.ts:42-46 | `<div>${4711}</div>` renders `<div>4711</div>` |
| VoksProperties.NumberKeyText | mod.ts:35-36 | a number key's text is its decimal text |
| VoksProperties.DecimalText4711 | mod.ts:36 | the decimal text of 4711 |
| VoksProperties.BlankListVector | synchronous_rendering_test.ts:65-75 | `[null, false, undefined]` as a key renders nothing |
| VoksProperties.CollectionVector | synchronous_rendering_test.ts:333-341 | a list of three templates renders `<p>hello</p> <p>world!</p>` |
| VoksProperties.ButtonTemplateVector | synchronous_rendering_test.ts:232-244 | `minify` of `<button ${null}>label</button>` gives `<button>label</button>` |
| TemplateAttributes.New | lib/template_attribute.ts:16-19 | the constructor keeps the value; the stored key has no uppercase letter and equals the given key when that had none |
| TemplateAttributes.InsertHyphensNoUpper | lib/template_attribute.ts:47 | without uppercase letters there is no boundary for a hyphen |
| TemplateAttributes.KebabizeKeepsLowercase | lib/template_attribute.ts:46-48 | a key like `data-fubar` is unchanged |
| TemplateAttributes.KebabizeNoUpper | lib/template_attribute.ts:46-48 | no ASCII uppercase letter survives |
| TemplateAttributes.KebabizeIdempotent | lib/template_attribute.ts:46-48 | `kebabize` twice is `kebabize` once |
| TemplateAttributes.KebabizeUnchangedIff | lib/template_attribute.ts:46-48 | a key is unchanged exactly when it has no ASCII uppercase letter |
| TemplateAttributes.InsertHyphensAppend | lib/template_attribute.ts:47 | the hyphen pass splits at a cut that is not a lowercase-uppercase pair |
| TemplateAttributes.InsertHyphensBoundary | lib/template_attribute.ts:47 | at a lowercase-uppercase cut the pass inserts exactly one hyphen |
| TemplateAttributes.ToLowerAppend | lib/template_attribute.ts:47 | lowercasing distributes over concatenation |
| TemplateAttributes.KebabizeHump | lib/template_attribute.ts:46-48 | one camel-case hump `aUc` becomes `a-uc` |
| TemplateAttributes.KebabizeDataFubar | synchronous_rendering_test.ts:247-259 | `dataFubar` becomes `data-fubar` |
| TemplateAttributes.ToString | lib/template_attribute.ts:33-43 | the text is empty or ends in a space, and is empty exactly for `false`, `null` and `undefined` |
| TemplateAttributes.ToStringBoolean | lib/template_attribute.ts:21-35 | `true` renders as the key and a space, with no `=`; `false` renders nothing |
| TemplateAttributes.ToStringNullish | lib/template_attribute.ts:40-42 | `null` and `undefined` render nothing |
| TemplateAttributes.ToStringValued | lib/template_attribute.ts:25-41 | strings, numbers, objects and arrays render as `key="escaped text" `, and the escaped text holds no `"`, `<` or `>` |
| TemplateAttributes.TrimEndOfToString | lib/template_attribute.ts:33-43 | for a key not ending in whitespace, `trimEnd` drops exactly the one trailing space |
| TemplateAttributes.VectorKey | lib/template_attribute_test.ts:5-9 | the key `data-fubar` is stored as given |
| TemplateAttributes.VectorTrue | lib/template_attribute_test.ts:5-9 | `true` is boolean and renders `data-fubar ` |
| TemplateAttributes.VectorString | lib/template_attribute_test.ts:11-15 | `"hello, world!"` is not boolean and renders `data-fubar="hello, world!" ` |
| TemplateAttributes.VectorNumber | lib/template_attribute_test.ts:17-21 | `7` is not boolean and renders `data-fubar="7" ` |
| TemplateAttributes.VectorNullish | lib/template_attribute_test.ts:23-33 | `null` and `undefined` are not boolean and render nothing |
| EscapeHtml.ReplaceAllShape | lib/escape_html.ts:4-8 | a replacement without the character removes it everywhere; a text without it is left alone |
| EscapeHtml.ReplaceAllAppend | lib/escape_html.ts:4-8 | each replacement distributes over concatenation |
| EscapeHtml.EscapeEmpty | lib/escape_html.ts:2 | the default argument `""` escapes to `""` |
| EscapeHtml.PlainTextUnescaped | lib/escape_html.ts:2-9 | a text without `& " ' < >` is returned as it is |
| EscapeHtml.EscapeAppend | lib/escape_html.ts:2-9 | escaping distributes over concatenation |
| EscapeHtml.EscapeOneChar | lib/escape_html.ts:3-8 | one character escapes to its entity, or to itself |
| EscapeHtml.EscapeIsCharMap | lib/escape_html.ts:3-8 | the five chained replacements equal one left-to-right per-character map, so an inserted `&` is never escaped again |
| EscapeHtml.EachCharNoMarkup | lib/escape_html.ts:5-8 | the per-character map leaves no `<`, `>`, `"` or `'` |
| EscapeHtml.EscapeLeavesNoMarkup | lib/escape_html.ts:5-8 | escaped text holds no `<`, `>`, `"` or `'` |
| EscapeHtml.EachCharLength | lib/escape_html.ts:4-8 | the per-character map grows the text by 4, 5, 4, 3, 3 per `&`, `"`, `'`, `<`, `>` |
| EscapeHtml.EscapeLength | lib/escape_html.ts:4-8 | the output length is the input length plus 4, 5, 4, 3, 3 per `&`, `"`, `'`, `<`, `>` |
| EscapeHtml.EscapeUnchangedIff | lib/escape_html.ts:2-9 | a text is returned unchanged exactly when it holds none of the five special characters |
| EscapeHtml.EachCharAppend | lib/escape_html.ts:3-8 | the per-character map distributes over concatenation |
| EscapeHtml.EachCharPlain | lib/escape_html.ts:3-8 | the per-character map leaves a plain text alone |
| EscapeHtml.EscapeTestVector | lib/escape_html_test.ts:4-11 | `<h1>Fubar</h1><script>alert("hello")</script>` escapes to the expected entity string |
| Minify.RemoveTabs | lib/minify.ts:3 | removing tabs never lengthens the text |
| Minify.RemoveTabsShape | lib/minify.ts:3 | no tab survives, and a text without tabs is unchanged |
| Minify.VisibleRemoveTabs | lib/minify.ts:3 | removing tabs keeps every non-whitespace character in order |
| Minify.DropSpaces | lib/minify.ts:4-7 | the longest whitespace prefix is consumed, and what remains does not start with whitespace |
| Minify.CollapseWhitespace | lib/minify.ts:4 | empty exactly for empty input; a leading whitespace run becomes one space |
| Minify.CollapseWhitespaceShape | lib/minify.ts:4 | afterwards every whitespace character is a space, and no two are adjacent |
| Minify.CollapseWhitespaceFixedPoint | lib/minify.ts:4 | a text of single spaces is unchanged |
| Minify.VisibleCollapseWhitespace | lib/minify.ts:4 | non-whitespace characters survive in order |
| Minify.TrimBeforeClose | lib/minify.ts:5 | empty exactly for empty input; a space before a leading `>` is dropped |
| Minify.TrimBeforeCloseShape | lib/minify.ts:5 | on a text of single spaces, no space is left before a `>` |
| Minify.TrimBeforeCloseFixedPoint | lib/minify.ts:5 | a text with no space before a `>` is unchanged |
| Minify.VisibleTrimBeforeClose | lib/minify.ts:5 | non-whitespace characters survive in order |
| Minify.CollapseBetweenTags | lib/minify.ts:6 | empty exactly for empty input; the first character is kept |
| Minify.CollapseBetweenTagsKeepsShape | lib/minify.ts:6 | the shape set up by the first three passes is kept |
| Minify.CollapseBetweenTagsFixedPoint | lib/minify.ts:6 | a text with no space after a `>` is unchanged |
| Minify.VisibleCollapseBetweenTags | lib/minify.ts:6 | non-whitespace characters survive in order |
| Minify.TrimAfterClose | lib/minify.ts:7 | empty exactly for empty input; the first character is kept |
| Minify.TrimAfterCloseNoSpaceAfter | lib/minify.ts:7 | no whitespace is left after a `>` |
| Minify.TrimAfterCloseKeepsShape | lib/minify.ts:7 | the shape set up by the first three passes is kept |
| Minify.TrimAfterCloseFixedPoint | lib/minify.ts:7 | a text with no space after a `>` is unchanged |
| Minify.VisibleTrimAfterClose | lib/minify.ts:7 | non-whitespace characters survive in order |
| Minify.MinifyShape | lib/minify.ts:1-8 | the output has no tab, every whitespace character is a single space, none is next to another and none stands on either side of a `>` |
| Minify.MinifyKeepsMinified | lib/minify.ts:1-8 | a text that already has that shape is returned unchanged |
| Minify.MinifyKeepsVisible | lib/minify.ts:3-7 | only whitespace changes: the other characters survive in order |
| Minify.MinifyFixedPointIff | lib/minify.ts:1-8 | a text is its own minification exactly when it has the minified shape |
| Minify.MinifyIdempotent | lib/minify.ts:1-8 | minifying twice is minifying once |
| Minify.MinifyAppend | lib/minify.ts:3-7 | a text cut after a character that is neither whitespace nor `>` minifies piece by piece |
| Minify.PlainIsMinified | lib/minify.ts:1-8 | a text without whitespace and `>` is unchanged |
| Minify.MinifySpaceBeforeClose | lib/minify.ts:5 | a single space before a `>` that opens plain text is dropped |
| Minify.PrintableIsMinified | lib/minify.ts:1-8 | printable ASCII other than the space and `>` is unchanged |
| Minify.ButtonVector | synchronous_rendering_test.ts:232-244 | `<button >label</button>` minifies to `<button>label</button>` |
| JsString.LowerChar | lib/template_attribute.ts:47 | exactly the ASCII uppercase letters are lowercased, by 32 code points |
| JsString.ToLowerAscii | lib/template_attribute.ts:47 | same length, no uppercase letter left, other characters kept |
| JsString.LowerOfLowerIsIdentity | lib/template_attribute.ts:47 | a text without uppercase letters is unchanged |
| JsString.TrimEndShape | mod.ts:46 | `trimEnd` keeps a prefix that does not end in whitespace, and drops only whitespace |
| JsString.TrimEndKeeps | mod.ts:46 | a text not ending in whitespace is unchanged |
| JsString.TrimEndWhitespaceSuffix | mod.ts:46 | trimming `s` followed by whitespace is trimming `s` |
| JsString.NatToStringDigits | mod.ts:36 | the decimal text has only digits and no leading zero |
| JsString.IntToString | mod.ts:36 | the text of an integer is never empty |
| JsString.IntToStringChars | mod.ts:36 | digits only, except a leading `-` exactly for negative numbers |
| JsString.NatToStringRoundTrip | mod.ts:36 | the decimal text reads back as the number |
| JsString.JoinAppend | mod.ts:133 | `join("")` distributes over concatenation |

## Left out

- `renderToStream` (mod.ts:140-169): stream writes, `TextEncoder`, error reporting via `console.log`. It is I/O around the same generator.
- Asynchrony: promises are represented by the value they settle to. Rejected promises are not modelled; the one error path that is modelled is the `TypeError` of mod.ts:65 (see "## Findings"). The nested `await` at mod.ts:61-66 is modelled as one re-check, because `await` flattens promise chains.
- Voks.ChunkGenerator.constructor: computes all chunks when the generator is created. Laziness, timing and the once-only draining of an async generator are not modelled.
- A promise settling to a plain object, an array or an attribute is not modelled: `Settled` holds a template, a primitive or an object of another class.
- `RawContent` and `raw` (mod.ts:112, lib/raw_content.ts): a `RawContent` is represented, like any object of another class, by its `toString` text (`Unit.Instance`, `AttributeValue.Instance`). Its two getters are never read by the rendering code.
- `TemplateString` (lib/template_string.ts) is not part of this model. A literal segment is represented by its content, which is what `join` renders.
- TemplateAttributes.ToString: `JSON.stringify` of an object or array value is carried as its text (`ObjectLiteral(json)`, `ArrayValue(json)`). It is not computed.
- Voks.EntryAttributes: the order of `Object.entries` is taken as the given entry order. JavaScript's integer-like keys first rule is not modelled.
- JsString.ToLowerAscii: `toLowerCase` handles ASCII letters only. Unicode case mapping is not modelled.
- JsString.IntToString: `Number.prototype.toString` handles integers only. Floating point, `NaN` and exponents are not modelled.
- JsString.IsWhitespace: stands for the `\s` class of ECMAScript as a fixed character set.
- Minify.Minify: takes a string. The `text?.toString()` path for `undefined` input is not modelled.
- Functions and symbols as keys are not modelled: `Unit` has no constructor for them. An object of another class is modelled only by its `toString` text, so one whose `toString` throws is not modelled.
- Voks.RenderToString: the final `done` value `undefined` is modelled as the empty string, which is what `join` makes of it.
- The test vectors at synchronous_rendering_test.ts:77-116, 142-169, 212-230, 261-303 are covered by the general lemmas above. They are not stated as concrete instances.

## Findings

| source | as written | input that shows it | evidently intended | confidence | as-written member | corrected member |
|---|---|---|---|---|---|---|
| mod.ts:65-70 | `isAsyncIterator(resolved)` reads `resolved[Symbol.asyncIterator]` before the `resolved \|\| ""` fallback, so it throws a `TypeError` when the promise settles to `null` or `undefined` | `` renderToString(html`<p>${Promise.resolve(null)}</p>`) `` rejects | the fallback `resolved \|\| ""` renders such a promise as `""`, like a `null` key: `<p></p>` | medium, not executed | VoksProperties.NullPromiseRejects | VoksProperties.SettledNullishLikeKey |
