/**
 * mod.ts: `mixUp` and `html` turn a tagged template into a list of parts,
 * `resolver` walks the parts and produces text chunks in order, and
 * `renderToString` drains the chunks into one string.
 *
 * JavaScript finds out what a part is by duck typing (`typeof`,
 * `isTemplateString`, `Array.isArray`, `instanceof`, `Symbol.asyncIterator`,
 * `Object.getPrototypeOf`); here each shape is a constructor of `Unit`.
 * A promise is represented by the value it settles to.
 */
module Voks {
  import opened JsString
  import opened EscapeHtml
  import TA = TemplateAttributes

  /** The primitive JavaScript values a template key can be. */
  datatype Scalar =
    | Text(s: string)
    | Number(n: int)
    | Boolean(b: bool)
    | Null
    | Undefined

  /** One part of a template, by the shape the resolver tests for. */
  datatype Unit =
    | Value(v: Scalar)                          // a primitive key
    | Static(content: string)                   // a `TemplateString`: a literal segment
    | List(items: seq<Unit>)                    // an array of keys
    | Attribute(a: TA.TemplateAttribute)        // a `TemplateAttribute`
    | Nested(t: Template)                       // an `html` generator (an async iterator)
    | Mapping(entries: seq<(string, TA.AttributeValue)>) // a plain object, its entries in order
    | Instance(text: string)                    // an object of another class (a `RawContent`,
                                                // a `Date`), by what its `toString` gives
    | Pending(settled: Settled)                 // a promise, by what it settles to

  /** What `await` gives: another template, a primitive, or an object of
      another class, by what its `toString` gives. */
  datatype Settled = Generator(t: Template) | Plain(v: Scalar) | Object(text: string)

  /** The parts `html` hands to the resolver. */
  datatype Template = Template(parts: seq<Unit>)

  /** The argument of `renderToString`: one template or an array of them. */
  datatype TemplateOrList = One(t: Template) | Many(ts: seq<Template>)

  /** A measure that shrinks from a part to the parts it resolves to; a plain
      object counts one more than its number of entries. */
  function Size(u: Unit): (n: nat)
    ensures n >= 1
  {
    match u
    case List(items) => 1 + SizeAll(items)
    case Nested(t) => 1 + SizeAll(t.parts)
    case Mapping(entries) => 1 + |entries|
    case Pending(Generator(t)) => 1 + SizeAll(t.parts)
    case _ => 1
  }

  function SizeAll(parts: seq<Unit>): nat {
    if parts == [] then 0 else Size(parts[0]) + SizeAll(parts[1..])
  }

  lemma {:induction false} SizeAllElement(parts: seq<Unit>, i: nat)
    requires i < |parts|
    ensures Size(parts[i]) <= SizeAll(parts)
  {
    if i > 0 {
      SizeAllElement(parts[1..], i - 1);
    }
  }

  // ---------------------------------------------------------------- mixUp

  predicate Nullish(u: Unit) {
    u == Value(Null) || u == Value(Undefined)
  }

  /** `a2[i]`: `undefined` past the end of the keys. */
  function KeyAt(keys: seq<Unit>, i: nat): Unit {
    if i < |keys| then keys[i] else Value(Undefined)
  }

  /** The `map` and `reduce`/`concat` of `mixUp`: each segment as a static
      fragment, followed by the key of the same index. */
  function Pairs(strings: seq<string>, keys: seq<Unit>): (r: seq<Unit>)
    ensures |r| == 2 * |strings|
  {
    if strings == [] then []
    else
      var n := |strings| - 1;
      Pairs(strings[..n], keys) + [Static(strings[n]), KeyAt(keys, n)]
  }

  /** The filter's test on one part: it survives unless it is `null` or
      `undefined`. */
  function Kept(u: Unit): seq<Unit> {
    if Nullish(u) then [] else [u]
  }

  /** The `filter` of `mixUp`: drops `null` and `undefined`, keeps the order. */
  function RemoveNullish(xs: seq<Unit>): (r: seq<Unit>)
    ensures |r| <= |xs|
  {
    if xs == [] then []
    else
      var n := |xs| - 1;
      RemoveNullish(xs[..n]) + Kept(xs[n])
  }

  /** `mixUp`. */
  function MixUp(strings: seq<string>, keys: seq<Unit>): seq<Unit> {
    RemoveNullish(Pairs(strings, keys))
  }

  /** `html`: the generator over the mixed-up parts; here, the parts themselves. */
  function Html(strings: seq<string>, keys: seq<Unit>): Template {
    Template(MixUp(strings, keys))
  }

  /** `attr`: a new `TemplateAttribute`. */
  function Attr(key: string, value: TA.AttributeValue): (a: TA.TemplateAttribute)
    ensures a.value == value
    ensures NoAsciiUpper(a.key)
    ensures NoAsciiUpper(key) ==> a.key == key
  {
    TA.New(key, value)
  }

  // ------------------------------------------------------------- resolver

  /** The attributes a plain object stands for: one per entry, in order. */
  function EntryList(entries: seq<(string, TA.AttributeValue)>): (r: seq<TA.TemplateAttribute>)
    ensures |r| == |entries|
  {
    seq(|entries|, j requires 0 <= j < |entries| => TA.New(entries[j].0, entries[j].1))
  }

  /** A run of attributes as parts of one list. */
  function AttributeParts(attrs: seq<TA.TemplateAttribute>): (r: seq<Unit>)
    ensures |r| == |attrs|
  {
    seq(|attrs|, j requires 0 <= j < |attrs| => Attribute(attrs[j]))
  }

  /** `Object.entries(part).map(([k, v]) => new TemplateAttribute(k, v))`. */
  function EntryAttributes(entries: seq<(string, TA.AttributeValue)>): (r: seq<Unit>)
    ensures |r| == |entries|
  {
    AttributeParts(EntryList(entries))
  }

  lemma {:induction false} SizeAllEntryAttributes(entries: seq<(string, TA.AttributeValue)>)
    ensures SizeAll(EntryAttributes(entries)) == |entries|
  {
    if entries != [] {
      assert EntryAttributes(entries)[1..] == EntryAttributes(entries[1..]);
      SizeAllEntryAttributes(entries[1..]);
    }
  }

  /** JavaScript truthiness of a primitive. */
  predicate Falsy(v: Scalar) {
    v == Null || v == Undefined || v == Boolean(false) || v == Number(0) || v == Text("")
  }

  /** `String(v)` for a truthy primitive. */
  function Stringify(v: Scalar): string
    requires !Falsy(v)
  {
    match v
    case Text(s) => s
    case Number(n) => IntToString(n)
    case Boolean(_) => "true"
  }

  /** `escapeHTML(resolved || "")`. */
  function EscapeSettled(v: Scalar): string {
    EscapeHTML(if Falsy(v) then "" else Stringify(v))
  }

  /** `await part` for a part that reaches the last branch of the resolver. */
  function Await(u: Unit): Settled
    requires u.Value? || u.Instance? || u.Pending?
  {
    if u.Pending? then u.settled
    else if u.Instance? then Object(u.text)
    else Plain(u.v)
  }

  /** Whether `isAsyncIterator(resolved)` throws: it reads a property of what
      was awaited, a `TypeError` for `null` and `undefined`. */
  predicate ReadThrows(resolved: Settled) {
    resolved == Plain(Null) || resolved == Plain(Undefined)
  }

  /** Whether the part is skipped, by the first branch of the resolver. */
  predicate Blank(u: Unit) {
    u == Value(Null) || u == Value(Undefined) || u == Value(Boolean(false))
  }

  /** The chunks the resolver yields for one part, given whether the next part
      of the same list is a `TemplateAttribute`. */
  function Chunks(u: Unit, nextIsAttribute: bool): seq<string>
    decreases Size(u), 0
  {
    if Blank(u) then [""]
    else if u.Value? && u.v.Number? then [IntToString(u.v.n)]
    else if u.Static? then [u.content]
    else if u.List? then Resolve(u.items)
    else if u.Attribute? then
      var text := TA.ToString(u.a);
      [if nextIsAttribute then text else TrimEnd(text)]
    else if u.Nested? then Resolve(u.t.parts)
    else if u.Mapping? then
      SizeAllEntryAttributes(u.entries);
      Resolve(EntryAttributes(u.entries))
    else
      match Await(u)
      case Generator(t) => Resolve(t.parts)
      case Plain(v) => [EscapeSettled(v)]
      case Object(text) => [EscapeHTML(text)]
  }

  /** The chunks of `resolver(parts)`, in order. */
  function Resolve(parts: seq<Unit>): seq<string>
    decreases SizeAll(parts), 1
  {
    if parts == [] then []
    else Chunks(parts[0], |parts| > 1 && parts[1].Attribute?) + Resolve(parts[1..])
  }

  /** Whether resolving the part throws, branch by branch as the resolver
      tries them: only a promise that settles to `null` or `undefined` throws
      by itself, and a part it is nested in throws with it. */
  predicate Throws(u: Unit)
    decreases Size(u), 0
  {
    if Blank(u) || (u.Value? && u.v.Number?) || u.Static? || u.Attribute? then false
    else if u.List? then ThrowsAny(u.items)
    else if u.Nested? then ThrowsAny(u.t.parts)
    else if u.Mapping? then
      SizeAllEntryAttributes(u.entries);
      ThrowsAny(EntryAttributes(u.entries))
    else
      match Await(u)
      case Generator(t) => ThrowsAny(t.parts)
      case _ => ReadThrows(Await(u))
  }

  /** Whether `resolver(parts)` throws at one of the parts. */
  predicate ThrowsAny(parts: seq<Unit>)
    decreases SizeAll(parts), 1
  {
    parts != [] && (Throws(parts[0]) || ThrowsAny(parts[1..]))
  }

  /** One step of the resolver's loop: part `i` comes first, and the decision
      for an attribute looks at `parts[i + 1]`, if any. */
  lemma ResolveStep(parts: seq<Unit>, i: nat)
    requires i < |parts|
    ensures Resolve(parts[i..]) ==
            Chunks(parts[i], i + 1 < |parts| && parts[i + 1].Attribute?) + Resolve(parts[i + 1..])
    ensures ThrowsAny(parts[i..]) == (Throws(parts[i]) || ThrowsAny(parts[i + 1..]))
  {
    assert parts[i..][1..] == parts[i + 1..];
  }

  /** The invariant of the resolver's loop survives appending what part `i`
      yields: `rest` is what parts `i..` resolve to, `step` what part `i`
      yields and `later` what parts `i + 1..` resolve to. */
  lemma ResolverAdvance(total: seq<string>, chunks: seq<string>, rest: seq<string>,
                        step: seq<string>, later: seq<string>)
    requires chunks + rest == total && rest == step + later
    ensures (chunks + step) + later == total
  {
    assert chunks + (step + later) == (chunks + step) + later;
  }

  /** `resolver`: the `for` loop over the parts with its index `i`, each yield
      appended to `chunks`; `throws` when a part throws, which ends the loop. */
  method Resolver(parts: seq<Unit>) returns (chunks: seq<string>, throws: bool)
    ensures throws == ThrowsAny(parts)
    ensures !throws ==> chunks == Resolve(parts)
    decreases SizeAll(parts), 1
  {
    chunks, throws := [], false;
    var i := 0;
    assert parts[i..] == parts;
    while i < |parts|
      invariant 0 <= i <= |parts|
      invariant chunks + Resolve(parts[i..]) == Resolve(parts)
      invariant ThrowsAny(parts[i..]) == ThrowsAny(parts)
    {
      var nextPart := i + 1 < |parts| && parts[i + 1].Attribute?;
      SizeAllElement(parts, i);
      var step, failed := ResolvePart(parts[i], nextPart);
      ResolveStep(parts, i);
      if failed {
        throws := true;
        return;
      }
      ResolverAdvance(Resolve(parts), chunks, Resolve(parts[i..]), step, Resolve(parts[i + 1..]));
      chunks := chunks + step;
      i := i + 1;
    }
    assert parts[i..] == [];
  }

  /** The body of the resolver's loop for one part: what it yields, given
      whether `parts[i + 1]` is a `TemplateAttribute`. */
  method ResolvePart(part: Unit, nextPartIsAttribute: bool) returns (step: seq<string>, throws: bool)
    ensures throws == Throws(part)
    ensures !throws ==> step == Chunks(part, nextPartIsAttribute)
    decreases Size(part), 0
  {
    step, throws := [], false;
    if Blank(part) {
      step := [""];
    } else if part.Value? && part.v.Number? {
      step := [IntToString(part.v.n)];
    } else if part.Static? {
      step := [part.content];
    } else if part.List? {
      step, throws := Resolver(part.items);
    } else if part.Attribute? {
      var text := TA.ToString(part.a);
      step := [if nextPartIsAttribute then text else TrimEnd(text)];
    } else if part.Nested? {
      step, throws := Resolver(part.t.parts);
    } else if part.Mapping? {
      var attributes := EntryAttributes(part.entries);
      SizeAllEntryAttributes(part.entries);
      step, throws := Resolver(attributes);
    } else {
      var resolved := Await(part);
      if resolved.Generator? {
        step, throws := Resolver(resolved.t.parts);
      } else if ReadThrows(resolved) {
        throws := true;
      } else if resolved.Plain? {
        step := [EscapeSettled(resolved.v)];
      } else {
        step := [EscapeHTML(resolved.text)];
      }
    }
  }

  // ------------------------------------------------------- renderToString

  /** The text `renderToString` produces for a template. */
  function Render(t: Template): string {
    Join(Resolve(t.parts))
  }

  /** The generators of a list, as parts. */
  function NestedAll(ts: seq<Template>): (r: seq<Unit>)
    ensures |r| == |ts|
  {
    seq(|ts|, j requires 0 <= j < |ts| => Nested(ts[j]))
  }

  /** `Array.isArray(templateOrList) ? html`${templateOrList}` : templateOrList`. */
  function TemplateOf(templateOrList: TemplateOrList): Template {
    match templateOrList
    case One(t) => t
    case Many(ts) => Html(["", ""], [List(NestedAll(ts))])
  }

  /** How the promise `renderToString` returns settles. */
  datatype Outcome = Fulfilled(text: string) | Rejected

  /** The async generator `resolver` returns: it yields `chunks` one by one;
      then it either rejects, if the resolver `throws`, or reports `done`
      with the value `undefined`, which `join` renders as the empty string. */
  class ChunkGenerator {
    const chunks: seq<string>
    const throws: bool
    var position: nat

    /** After the rejection the generator is finished: `position` is then one
        past the chunks. */
    predicate Valid()
      reads this
    {
      position <= |chunks| + (if throws then 1 else 0)
    }

    constructor (t: Template)
      ensures Valid() && position == 0
      ensures throws == ThrowsAny(t.parts)
      ensures !throws ==> chunks == Resolve(t.parts)
    {
      var c, e := Resolver(t.parts);
      chunks, throws := c, e;
      position := 0;
    }

    /** `next()`: the next chunk, or the rejection, or `done`. */
    method Next() returns (value: string, done: bool, rejected: bool)
      requires Valid()
      modifies this
      ensures Valid()
      ensures old(position) < |chunks| ==>
                value == chunks[old(position)] && !done && !rejected && position == old(position) + 1
      ensures old(position) == |chunks| && throws ==> rejected && position == old(position) + 1
      ensures old(position) >= |chunks| && !(old(position) == |chunks| && throws) ==>
                value == "" && done && !rejected && position == old(position)
    {
      value, done, rejected := "", false, false;
      if position < |chunks| {
        value := chunks[position];
        position := position + 1;
      } else if position == |chunks| && throws {
        rejected := true;
        position := position + 1;
      } else {
        done := true;
      }
    }
  }

  /** `renderToString`: pushes every value `next()` gives, the final one
      included, then joins them; a rejection of `next()` rejects it. */
  method RenderToString(templateOrList: TemplateOrList) returns (r: Outcome)
    ensures r.Rejected? <==> ThrowsAny(TemplateOf(templateOrList).parts)
    ensures r.Fulfilled? ==> r.text == Render(TemplateOf(templateOrList))
  {
    var template := TemplateOf(templateOrList);
    var generator := new ChunkGenerator(template);
    var result: seq<string> := [];
    while true
      invariant generator.Valid() && generator.position <= |generator.chunks|
      invariant generator.throws == ThrowsAny(template.parts)
      invariant !generator.throws ==> generator.chunks == Resolve(template.parts)
      invariant result == generator.chunks[..generator.position]
      decreases |generator.chunks| - generator.position
    {
      var value, done, rejected := generator.Next();
      if rejected {
        return Rejected;
      }
      result := result + [value];
      if done {
        break;
      }
    }
    assert result == generator.chunks + [""];
    JoinAppend(generator.chunks, [""]);
    r := Fulfilled(Join(result));
  }
}
