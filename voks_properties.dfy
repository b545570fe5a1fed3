/**
 * What the resolver promises, stated over the model of mod.ts: how `mixUp`
 * arranges a template, how chunks compose, when an attribute keeps its
 * trailing space, which parts are escaped, and the rendering of a list.
 */
module VoksProperties {
  import opened JsString
  import opened EscapeHtml
  import TA = TemplateAttributes
  import opened Voks
  import Minify

  // ---------------------------------------------------------------- mixUp

  lemma {:induction false} RemoveNullishAppend(a: seq<Unit>, b: seq<Unit>)
    ensures RemoveNullish(a + b) == RemoveNullish(a) + RemoveNullish(b)
    decreases |b|
  {
    if b == [] {
      assert a + b == a;
    } else {
      var n := |b| - 1;
      assert (a + b)[..|a + b| - 1] == a + b[..n];
      RemoveNullishAppend(a, b[..n]);
    }
  }

  /** Segment `i` of a template is followed by key `i`, unless that key is
      `null` or `undefined`; the segment itself is always kept. */
  lemma MixUpSnoc(strings: seq<string>, s: string, keys: seq<Unit>)
    ensures MixUp(strings + [s], keys) == MixUp(strings, keys) + [Static(s)] + Kept(KeyAt(keys, |strings|))
  {
    var p := Pairs(strings, keys);
    assert (strings + [s])[..|strings|] == strings;
    assert Pairs(strings + [s], keys) == p + [Static(s), KeyAt(keys, |strings|)];
    RemoveNullishAppend(p, [Static(s), KeyAt(keys, |strings|)]);
    assert RemoveNullish([Static(s), KeyAt(keys, |strings|)]) == [Static(s)] + Kept(KeyAt(keys, |strings|)) by {
      assert [Static(s), KeyAt(keys, |strings|)][..1] == [Static(s)];
      assert RemoveNullish([Static(s)]) == [Static(s)] by {
        assert [Static(s)][..0] == [];
      }
    }
  }

  /** The filter keeps exactly the parts that are neither `null` nor
      `undefined`, in their order. */
  lemma {:induction false} RemoveNullishKeeps(xs: seq<Unit>, u: Unit)
    ensures u in RemoveNullish(xs) <==> u in xs && !Nullish(u)
  {
    if xs != [] {
      var n := |xs| - 1;
      assert xs == xs[..n] + [xs[n]];
      RemoveNullishKeeps(xs[..n], u);
    }
  }

  /** No part of a mixed-up template is `null` or `undefined`, and every
      segment is one of its parts. */
  lemma MixUpParts(strings: seq<string>, keys: seq<Unit>, u: Unit)
    ensures u in MixUp(strings, keys) ==> !Nullish(u)
    ensures forall i :: 0 <= i < |strings| ==> Static(strings[i]) in MixUp(strings, keys)
  {
    RemoveNullishKeeps(Pairs(strings, keys), u);
    forall i | 0 <= i < |strings|
      ensures Static(strings[i]) in MixUp(strings, keys)
    {
      PairsHasSegment(strings, keys, i);
      RemoveNullishKeeps(Pairs(strings, keys), Static(strings[i]));
    }
  }

  lemma {:induction false} PairsHasSegment(strings: seq<string>, keys: seq<Unit>, i: nat)
    requires i < |strings|
    ensures Static(strings[i]) in Pairs(strings, keys)
  {
    var n := |strings| - 1;
    if i < n {
      PairsHasSegment(strings[..n], keys, i);
    } else {
      assert Pairs(strings, keys)[2 * n] == Static(strings[i]);
    }
  }

  /** How many of the first `n` keys are neither `null` nor `undefined`. */
  function PresentKeys(keys: seq<Unit>, n: nat): nat {
    if n == 0 then 0 else PresentKeys(keys, n - 1) + |Kept(KeyAt(keys, n - 1))|
  }

  /** The length of `mixUp`: every segment plus every present key. */
  lemma {:induction false} MixUpLength(strings: seq<string>, keys: seq<Unit>)
    ensures |MixUp(strings, keys)| == |strings| + PresentKeys(keys, |strings|)
  {
    if strings != [] {
      var n := |strings| - 1;
      assert strings == strings[..n] + [strings[n]];
      MixUpSnoc(strings[..n], strings[n], keys);
      MixUpLength(strings[..n], keys);
    }
  }

  /** Four segments whose first two keys are present and last two are
      `null` or `undefined`. */
  lemma MixUpFour(a: string, b: string, c: string, d: string, k0: Unit, k1: Unit, k2: Unit, k3: Unit)
    requires !Nullish(k0) && !Nullish(k1) && Nullish(k2) && Nullish(k3)
    ensures MixUp([a, b, c, d], [k0, k1, k2, k3]) == [Static(a), k0, Static(b), k1, Static(c), Static(d)]
  {
    var keys := [k0, k1, k2, k3];
    var s0: seq<string> := [];
    var s1 := s0 + [a];
    var s2 := s1 + [b];
    var s3 := s2 + [c];
    assert MixUp(s0, keys) == [];
    MixUpSnoc(s0, a, keys);
    assert MixUp(s1, keys) == [Static(a), k0] by {
      assert Kept(KeyAt(keys, 0)) == [k0];
    }
    MixUpSnoc(s1, b, keys);
    assert MixUp(s2, keys) == [Static(a), k0, Static(b), k1] by {
      assert Kept(KeyAt(keys, 1)) == [k1];
    }
    MixUpSnoc(s2, c, keys);
    assert MixUp(s3, keys) == [Static(a), k0, Static(b), k1, Static(c)] by {
      assert Kept(KeyAt(keys, 2)) == [];
    }
    MixUpSnoc(s3, d, keys);
    assert Kept(KeyAt(keys, 3)) == [];
    assert s3 + [d] == [a, b, c, d];
  }

  /** Two segments around one key: the key stays unless it is `null` or
      `undefined`. */
  lemma MixUpPair(a: string, b: string, k: Unit)
    ensures MixUp([a, b], [k]) == [Static(a)] + Kept(k) + [Static(b)]
  {
    var keys := [k];
    var s0: seq<string> := [];
    var s1 := s0 + [a];
    assert MixUp(s0, keys) == [];
    MixUpSnoc(s0, a, keys);
    assert KeyAt(keys, 0) == k;
    MixUpSnoc(s1, b, keys);
    assert Kept(KeyAt(keys, 1)) == [];
    assert s1 + [b] == [a, b];
  }

  /** The vector of synchronous_rendering_test.ts: four segments and the keys
      `"val"`, `0`, `null`, `undefined` mix up to six parts. */
  lemma MixUpVector()
    ensures MixUp(["a", "b", "c", "d"], [Value(Text("val")), Value(Number(0)), Value(Null), Value(Undefined)])
         == [Static("a"), Value(Text("val")), Static("b"), Value(Number(0)), Static("c"), Static("d")]
  {
    MixUpFour("a", "b", "c", "d", Value(Text("val")), Value(Number(0)), Value(Null), Value(Undefined));
  }

  // ---------------------------------------------------- composing chunks

  /** No attribute is split from the attribute after it at the cut. */
  predicate CleanCut(a: seq<Unit>, b: seq<Unit>) {
    a == [] || b == [] || !a[|a| - 1].Attribute? || !b[0].Attribute?
  }

  /** The resolver's output is the output for the first parts followed by the
      output for the rest, wherever the cut does not separate two adjacent
      attributes. */
  lemma {:induction false} ResolveAppend(a: seq<Unit>, b: seq<Unit>)
    requires CleanCut(a, b)
    ensures Resolve(a + b) == Resolve(a) + Resolve(b)
  {
    if a == [] {
      assert a + b == b;
    } else {
      ResolveAppendHead(a, b);
      assert Resolve(a) == Chunks(a[0], |a| > 1 && a[1].Attribute?) + Resolve(a[1..]);
      ResolveAppend(a[1..], b);
    }
  }

  /** The first part of `a + b` yields what it yields in `a` alone. */
  lemma ResolveAppendHead(a: seq<Unit>, b: seq<Unit>)
    requires a != [] && CleanCut(a, b)
    ensures Resolve(a + b) == Chunks(a[0], |a| > 1 && a[1].Attribute?) + Resolve(a[1..] + b)
  {
    assert (a + b)[1..] == a[1..] + b;
    assert (a + b)[0] == a[0];
    if |a| > 1 {
      assert (a + b)[1] == a[1];
    } else if !a[0].Attribute? {
      ChunksIgnoreFlag(a[0], |a + b| > 1 && (a + b)[1].Attribute?, false);
    }
  }

  /** Only an attribute looks at the part after it. */
  lemma ChunksIgnoreFlag(u: Unit, f: bool, g: bool)
    requires !u.Attribute?
    ensures Chunks(u, f) == Chunks(u, g)
  {
  }

  /** The same cut on the joined text. */
  lemma RenderAppend(a: seq<Unit>, b: seq<Unit>)
    requires CleanCut(a, b)
    ensures Join(Resolve(a + b)) == Join(Resolve(a)) + Join(Resolve(b))
  {
    ResolveAppend(a, b);
    JoinAppend(Resolve(a), Resolve(b));
  }

  /** At two adjacent attributes the cut is not clean: the first keeps its
      trailing space in the whole, and is trimmed when it is last. */
  lemma AttributePairCut(x: TA.TemplateAttribute, y: TA.TemplateAttribute, rest: seq<Unit>)
    ensures Resolve([Attribute(x)] + ([Attribute(y)] + rest))
         == [TA.ToString(x)] + Resolve([Attribute(y)] + rest)
    ensures Resolve([Attribute(x)]) == [TrimEnd(TA.ToString(x))]
  {
    assert ([Attribute(x)] + ([Attribute(y)] + rest))[1..] == [Attribute(y)] + rest;
  }

  /** Parts whose output is the output of their own list of parts: an array,
      an `html` generator, and a promise of one. */
  predicate Container(u: Unit) {
    u.List? || u.Nested? || (u.Pending? && u.settled.Generator?)
  }

  function Inner(u: Unit): seq<Unit>
    requires Container(u)
  {
    if u.List? then u.items else if u.Nested? then u.t.parts else u.settled.t.parts
  }

  /** A container contributes the output of its own parts, in place and with
      no separator, wherever it stands; it is delegated to, never escaped. */
  lemma ResolveSplice(before: seq<Unit>, u: Unit, after: seq<Unit>)
    requires Container(u)
    ensures Resolve(before + [u] + after) == Resolve(before) + Resolve(Inner(u)) + Resolve(after)
  {
    assert Resolve([u] + after) == Resolve(Inner(u)) + Resolve(after) by {
      assert ([u] + after)[1..] == after;
    }
    assert before + [u] + after == before + ([u] + after);
    ResolveAppend(before, [u] + after);
  }

  // ------------------------------------------------------- single parts

  /** `null`, `undefined` and `false` yield one empty chunk. */
  lemma BlankPart(v: Scalar, next: bool)
    requires v == Null || v == Undefined || v == Boolean(false)
    ensures Chunks(Value(v), next) == [""]
  {
  }

  /** A number key yields its decimal text, so `0` yields `"0"`; a promise of
      `0` is awaited and falsy, and yields `""`. */
  lemma NumberPart(n: int, next: bool)
    ensures Chunks(Value(Number(n)), next) == [IntToString(n)]
    ensures Chunks(Value(Number(0)), next) == ["0"]
    ensures Chunks(Pending(Plain(Number(0))), next) == [""]
  {
    FalsySettled(Number(0), next);
  }

  /** A literal segment yields its content as written, unescaped. */
  lemma StaticPart(c: string, next: bool)
    ensures Chunks(Static(c), next) == [c]
  {
  }

  /** A string or `true` reaches the last branch of the resolver, so it is
      treated exactly like a promise that settles to it. */
  lemma AwaitedLikePromise(v: Scalar, next: bool)
    requires !Blank(Value(v)) && !v.Number?
    ensures Chunks(Value(v), next) == Chunks(Pending(Plain(v)), next)
  {
  }

  /** Every falsy settled value that gets past `isAsyncIterator`, that is
      `false`, `0` and `""`, yields `""` without throwing. */
  lemma FalsySettled(v: Scalar, next: bool)
    requires Falsy(v) && v != Null && v != Undefined
    ensures Chunks(Pending(Plain(v)), next) == [""]
    ensures !Throws(Pending(Plain(v)))
  {
    EscapeEmpty();
  }

  /** An object of another class, such as a `RawContent`, is neither a
      template nor a plain object, so it is awaited and its `toString` text
      escaped, like a promise that settles to it. */
  lemma InstancePart(text: string, next: bool)
    ensures Chunks(Instance(text), next) == [EscapeHTML(text)]
    ensures Chunks(Instance(text), next) == Chunks(Pending(Object(text)), next)
    ensures !Throws(Instance(text)) && !Throws(Pending(Object(text)))
  {
  }

  /** `raw(...)` has no `toString` of its own, so it renders as the text
      `[object Object]`. */
  lemma RawContentVector(text: string)
    requires text == "[object Object]"
    ensures Chunks(Instance(text), false) == [text]
  {
    assert forall i :: 0 <= i < |text| ==> !IsSpecial(text[i]);
    EscapeUnchangedIff(text);
  }

  // ------------------------------------------------------------- throwing

  /** `isAsyncIterator(resolved)` reads a property of the awaited value, so a
      promise that settles to `null` or `undefined` throws, and one that
      settles to any other primitive does not. A primitive key itself never
      throws: `null` and `undefined` are caught by the first branch. */
  lemma SettledThrows(v: Scalar)
    ensures Throws(Pending(Plain(v))) <==> v == Null || v == Undefined
    ensures !Throws(Value(v))
  {
  }

  /** The resolver throws exactly when one of its parts throws. */
  lemma {:induction false} ThrowsAnyIff(parts: seq<Unit>)
    ensures ThrowsAny(parts) <==> exists i :: 0 <= i < |parts| && Throws(parts[i])
  {
    if parts != [] {
      ThrowsAnyIff(parts[1..]);
      if ThrowsAny(parts[1..]) {
        var i :| 0 <= i < |parts[1..]| && Throws(parts[1..][i]);
        assert Throws(parts[i + 1]);
      }
      if exists i :: 0 <= i < |parts| && Throws(parts[i]) {
        var i :| 0 <= i < |parts| && Throws(parts[i]);
        if i > 0 {
          assert Throws(parts[1..][i - 1]);
        }
      }
    }
  }

  /** Joining two lists throws exactly when one of them throws. */
  lemma ThrowsAnyAppend(a: seq<Unit>, b: seq<Unit>)
    ensures ThrowsAny(a + b) <==> ThrowsAny(a) || ThrowsAny(b)
  {
    ThrowsAnyIff(a);
    ThrowsAnyIff(b);
    ThrowsAnyIff(a + b);
    if ThrowsAny(a + b) {
      var i :| 0 <= i < |a + b| && Throws((a + b)[i]);
      if i >= |a| {
        assert Throws(b[i - |a|]);
      } else {
        assert Throws(a[i]);
      }
    }
    if ThrowsAny(a) {
      var i :| 0 <= i < |a| && Throws(a[i]);
      assert Throws((a + b)[i]);
    }
    if ThrowsAny(b) {
      var i :| 0 <= i < |b| && Throws(b[i]);
      assert Throws((a + b)[|a| + i]);
    }
  }

  /** Attributes never throw, so neither does a plain object. */
  lemma {:induction false} AttributesNeverThrow(attrs: seq<TA.TemplateAttribute>)
    ensures !ThrowsAny(AttributeParts(attrs))
  {
    if attrs != [] {
      assert AttributeParts(attrs)[1..] == AttributeParts(attrs[1..]);
      AttributesNeverThrow(attrs[1..]);
    }
  }

  lemma MappingNeverThrows(entries: seq<(string, TA.AttributeValue)>)
    ensures !Throws(Mapping(entries))
  {
    AttributesNeverThrow(EntryList(entries));
  }

  /** `html`<p>${Promise.resolve(null)}</p>`` as written: the resolver
      throws, so `renderToString` rejects, where a `null` key in the same
      place renders `<p></p>`, the text `Chunks` yields for the promise. */
  lemma NullPromiseRejects(a: string, b: string)
    requires a == "<p>" && b == "</p>"
    ensures ThrowsAny(Html([a, b], [Pending(Plain(Null))]).parts)
    ensures !ThrowsAny(Html([a, b], [Value(Null)]).parts)
    ensures Render(Html([a, b], [Value(Null)])) == a + b
    ensures Render(Html([a, b], [Pending(Plain(Null))])) == a + b
  {
    var u := Pending(Plain(Null));
    assert Html([a, b], [u]).parts == [Static(a), u, Static(b)] by {
      MixUpPair(a, b, u);
    }
    assert Html([a, b], [Value(Null)]).parts == [Static(a), Static(b)] by {
      MixUpPair(a, b, Value(Null));
    }
    ThrowsAnyIff([Static(a), u, Static(b)]);
    assert Throws([Static(a), u, Static(b)][1]);
    ThrowsAnyIff([Static(a), Static(b)]);
    OneKeyTemplate(a, u, b);
    OneKeyTemplate(a, Value(Null), b);
    KeyTextChunks(u);
    SettledNullishLikeKey(Null, false);
    JoinOne("");
    UndefinedKeyText();
  }

  /** The intended reading, which `Chunks` follows: a promise that settles to
      `null` or `undefined` yields what a `null` or `undefined` key yields. */
  lemma SettledNullishLikeKey(v: Scalar, next: bool)
    requires v == Null || v == Undefined
    ensures Chunks(Pending(Plain(v)), next) == Chunks(Value(v), next) == [""]
  {
    EscapeEmpty();
  }

  // ---------------------------------------------------------- attributes

  predicate EndsInSpace(s: string) {
    s != [] && IsWhitespace(s[|s| - 1])
  }

  /** An attribute keeps its trailing space exactly when the next part of the
      same list is an attribute and it renders anything at all; otherwise its
      output is trimmed, which for a key not ending in whitespace drops just
      the final space. */
  lemma AttributeSpacing(a: TA.TemplateAttribute, rest: seq<Unit>)
    ensures |Resolve([Attribute(a)] + rest)| >= 1
    ensures var c := Resolve([Attribute(a)] + rest)[0];
            EndsInSpace(c) <==> (rest != [] && rest[0].Attribute? && TA.ToString(a) != [])
    ensures rest != [] && rest[0].Attribute? ==> Resolve([Attribute(a)] + rest)[0] == TA.ToString(a)
    ensures !(rest != [] && rest[0].Attribute?) && TA.ToString(a) != [] &&
            (a.key == [] || !IsWhitespace(a.key[|a.key| - 1])) ==>
            Resolve([Attribute(a)] + rest)[0] == TA.ToString(a)[..|TA.ToString(a)| - 1]
  {
    assert ([Attribute(a)] + rest)[1..] == rest;
    TrimEndShape(TA.ToString(a));
    if a.key == [] || !IsWhitespace(a.key[|a.key| - 1]) {
      TA.TrimEndOfToString(a);
    }
  }

  /** The text of attributes that all keep their trailing space. */
  function AttributesText(attrs: seq<TA.TemplateAttribute>): string {
    if attrs == [] then "" else TA.ToString(attrs[0]) + AttributesText(attrs[1..])
  }

  /** A run of attributes renders every one with its trailing space except the
      last, which is trimmed. */
  lemma {:induction false} AttributeRun(attrs: seq<TA.TemplateAttribute>)
    requires attrs != []
    ensures Join(Resolve(AttributeParts(attrs)))
         == AttributesText(attrs[..|attrs| - 1]) + TrimEnd(TA.ToString(attrs[|attrs| - 1]))
  {
    if |attrs| == 1 {
      AttributeRunSingle(attrs[0]);
      assert attrs == [attrs[0]] && attrs[..0] == [];
    } else {
      var rest := attrs[1..];
      AttributeRun(rest);
      assert rest[|rest| - 1] == attrs[|attrs| - 1];
      AttributeRunHead(attrs);
      AttributesTextInit(attrs);
      AttributeRunGlue(Resolve(AttributeParts(attrs)), TA.ToString(attrs[0]),
                       Resolve(AttributeParts(rest)), AttributesText(attrs[..|attrs| - 1]),
                       AttributesText(rest[..|rest| - 1]), TrimEnd(TA.ToString(attrs[|attrs| - 1])));
    }
  }

  /** Gluing the step of the run: the first chunk in front of the chunks of
      the others, and the first text in front of the text of the others. */
  lemma AttributeRunGlue(whole: seq<string>, head: string, tail: seq<string>,
                         init: string, others: string, last: string)
    requires whole == [head] + tail && Join(tail) == others + last
    requires init == head + others
    ensures Join(whole) == init + last
  {
    JoinAppend([head], tail);
    JoinOne(head);
    assert head + (others + last) == (head + others) + last;
  }

  /** The text of all but the last attribute, one attribute at a time. */
  lemma AttributesTextInit(attrs: seq<TA.TemplateAttribute>)
    requires |attrs| >= 2
    ensures AttributesText(attrs[..|attrs| - 1])
         == TA.ToString(attrs[0]) + AttributesText(attrs[1..][..|attrs| - 2])
  {
    var init := attrs[..|attrs| - 1];
    assert init[0] == attrs[0];
    assert init[1..] == attrs[1..][..|attrs| - 2];
  }

  /** A lone attribute is trimmed. */
  lemma AttributeRunSingle(x: TA.TemplateAttribute)
    ensures Join(Resolve(AttributeParts([x]))) == TrimEnd(TA.ToString(x))
  {
    var parts := AttributeParts([x]);
    assert parts == [Attribute(x)];
    assert Resolve(parts) == [TrimEnd(TA.ToString(x))];
    JoinOne(TrimEnd(TA.ToString(x)));
  }

  /** An attribute followed by another keeps its trailing space. */
  lemma AttributeRunHead(attrs: seq<TA.TemplateAttribute>)
    requires |attrs| >= 2
    ensures Resolve(AttributeParts(attrs)) == [TA.ToString(attrs[0])] + Resolve(AttributeParts(attrs[1..]))
  {
    var parts := AttributeParts(attrs);
    assert parts[1..] == AttributeParts(attrs[1..]);
    assert parts[0] == Attribute(attrs[0]) && parts[1].Attribute?;
  }

  /** A plain object renders as the run of attributes built from its entries,
      in insertion order, under the same trimming rule; an empty object
      renders nothing. */
  lemma MappingPart(entries: seq<(string, TA.AttributeValue)>, next: bool)
    ensures entries == [] ==> Join(Chunks(Mapping(entries), next)) == ""
    ensures entries != [] ==>
              (Join(Chunks(Mapping(entries), next))
               == AttributesText(EntryList(entries)[..|entries| - 1])
                  + TrimEnd(TA.ToString(EntryList(entries)[|entries| - 1])))
  {
    if entries != [] {
      AttributeRun(EntryList(entries));
    }
  }

  // --------------------------------------------------------- no markup

  predicate NoAngle(s: string) {
    '<' !in s && '>' !in s
  }

  /** Parts whose literal text and attribute names hold no `<` or `>`: only
      interpolated values remain, which are escaped. */
  predicate NoMarkupSource(parts: seq<Unit>)
    decreases SizeAll(parts), 1
  {
    forall i :: 0 <= i < |parts| ==> NoMarkupSourcePart(parts, i)
  }

  predicate NoMarkupSourcePart(parts: seq<Unit>, i: nat)
    requires i < |parts|
    decreases SizeAll(parts), 0
  {
    SizeAllElement(parts, i);
    match parts[i]
    case Static(c) => NoAngle(c)
    case Attribute(a) => NoAngle(a.key)
    case Mapping(entries) => forall j :: 0 <= j < |entries| ==> NoAngle(entries[j].0)
    case List(items) => NoMarkupSource(items)
    case Nested(t) => NoMarkupSource(t.parts)
    case Pending(Generator(t)) => NoMarkupSource(t.parts)
    case _ => true
  }

  lemma {:induction false} InsertHyphensChars(s: string, c: char)
    requires c in TA.InsertHyphens(s)
    ensures c in s || c == '-'
  {
    if |s| >= 2 && IsAsciiLower(s[0]) && IsAsciiUpper(s[1]) {
      if c in TA.InsertHyphens(s[2..]) {
        InsertHyphensChars(s[2..], c);
      }
    } else if s != [] {
      if c in TA.InsertHyphens(s[1..]) {
        InsertHyphensChars(s[1..], c);
      }
    }
  }

  /** `kebabize` adds only hyphens and lowercase letters. */
  lemma KebabizeNoAngle(s: string)
    requires NoAngle(s)
    ensures NoAngle(TA.Kebabize(s))
  {
    var h := TA.InsertHyphens(s);
    if '<' in h {
      InsertHyphensChars(s, '<');
    }
    if '>' in h {
      InsertHyphensChars(s, '>');
    }
    var k := ToLowerAscii(h);
    forall i | 0 <= i < |k|
      ensures k[i] != '<' && k[i] != '>'
    {
      assert k[i] == LowerChar(h[i]);
    }
  }

  lemma ToStringNoAngle(a: TA.TemplateAttribute)
    requires NoAngle(a.key)
    ensures NoAngle(TA.ToString(a))
  {
    if !a.value.Bool? && !a.value.Null? && !a.value.Undefined? {
      TA.ToStringValued(a);
    }
  }

  lemma IntToStringNoAngle(n: int)
    ensures NoAngle(IntToString(n))
  {
    IntToStringChars(n);
    var r := IntToString(n);
    assert forall i :: 0 <= i < |r| ==> r[i] != '<' && r[i] != '>';
  }

  predicate AllNoAngle(chunks: seq<string>) {
    forall i :: 0 <= i < |chunks| ==> NoAngle(chunks[i])
  }

  lemma {:induction false} JoinNoAngle(chunks: seq<string>)
    requires AllNoAngle(chunks)
    ensures NoAngle(Join(chunks))
  {
    if chunks != [] {
      JoinNoAngle(chunks[1..]);
    }
  }

  /** Markup in the output comes only from the template's own literal text
      and attribute names: no interpolated value can inject `<` or `>`. */
  lemma {:induction false} NoInjectedMarkup(parts: seq<Unit>)
    requires NoMarkupSource(parts)
    ensures AllNoAngle(Resolve(parts))
    decreases SizeAll(parts), 1
  {
    if parts != [] {
      assert NoMarkupSourcePart(parts, 0);
      assert NoMarkupSource(parts[1..]) by {
        forall i | 0 <= i < |parts[1..]|
          ensures NoMarkupSourcePart(parts[1..], i)
        {
          assert NoMarkupSourcePart(parts, i + 1);
          assert parts[1..][i] == parts[i + 1];
        }
      }
      NoInjectedMarkupPart(parts[0], |parts| > 1 && parts[1].Attribute?);
      NoInjectedMarkup(parts[1..]);
    }
  }

  lemma {:induction false} NoInjectedMarkupPart(u: Unit, next: bool)
    requires NoMarkupSourcePart([u], 0)
    ensures AllNoAngle(Chunks(u, next))
    decreases Size(u), 0
  {
    if Blank(u) {
    } else if u.Value? && u.v.Number? {
      IntToStringNoAngle(u.v.n);
    } else if u.Static? {
    } else if u.List? {
      NoInjectedMarkup(u.items);
    } else if u.Attribute? {
      ToStringNoAngle(u.a);
      TrimEndShape(TA.ToString(u.a));
    } else if u.Nested? {
      NoInjectedMarkup(u.t.parts);
    } else if u.Mapping? {
      var attributes := EntryAttributes(u.entries);
      SizeAllEntryAttributes(u.entries);
      assert NoMarkupSource(attributes) by {
        forall i | 0 <= i < |attributes|
          ensures NoMarkupSourcePart(attributes, i)
        {
          KebabizeNoAngle(u.entries[i].0);
        }
      }
      NoInjectedMarkup(attributes);
    } else if u.Pending? && u.settled.Generator? {
      NoInjectedMarkup(u.settled.t.parts);
    } else {
      var resolved := Await(u);
      if resolved.Plain? {
        var v := resolved.v;
        if !Falsy(v) && v.Number? {
          IntToStringNoAngle(v.n);
        }
        EscapeLeavesNoMarkup(if Falsy(v) then "" else Stringify(v));
      } else {
        EscapeLeavesNoMarkup(resolved.text);
      }
    }
  }

  /** The same, for the rendered text of a template. */
  lemma RenderNoInjectedMarkup(t: Template)
    requires NoMarkupSource(t.parts)
    ensures NoAngle(Render(t))
  {
    NoInjectedMarkup(t.parts);
    JoinNoAngle(Resolve(t.parts));
  }

  // ------------------------------------------------------------ templates

  /** The text one key contributes where `html` places it: a key is always
      followed by a literal segment or by nothing, so an attribute key is
      always trimmed. */
  function KeyText(u: Unit): string {
    Join(Resolve([u]))
  }

  /** Tagged-template interpolation: each segment, then the text of its key. */
  function Interpolate(strings: seq<string>, keys: seq<Unit>): string {
    if strings == [] then ""
    else
      var n := |strings| - 1;
      Interpolate(strings[..n], keys) + strings[n] + KeyText(KeyAt(keys, n))
  }

  /** A segment and the key after it, once `mixUp` has filtered the key. */
  lemma SegmentThenKey(s: string, k: Unit)
    ensures Join(Resolve([Static(s)] + Kept(k))) == s + KeyText(k)
  {
    assert ([Static(s)] + Kept(k))[1..] == Kept(k);
    assert Resolve([Static(s)] + Kept(k)) == [s] + Resolve(Kept(k));
    if Nullish(k) {
      assert Resolve(Kept(k)) == [];
      assert Resolve([k]) == [""];
    }
    JoinAppend([s], Resolve(Kept(k)));
  }

  /** `html` followed by rendering is interpolation: the segments as written,
      in order, each followed by the rendered text of its key, and a `null`
      or `undefined` key contributes nothing. */
  lemma {:induction false} RenderHtml(strings: seq<string>, keys: seq<Unit>)
    ensures Render(Html(strings, keys)) == Interpolate(strings, keys)
  {
    if strings != [] {
      var n := |strings| - 1;
      var init, s, k := strings[..n], strings[n], KeyAt(keys, n);
      var m, tail := MixUp(init, keys), [Static(s)] + Kept(k);
      assert MixUp(strings, keys) == m + tail by {
        assert strings == init + [s];
        MixUpSnoc(init, s, keys);
      }
      assert Join(Resolve(m + tail)) == Join(Resolve(m)) + Join(Resolve(tail)) by {
        RenderAppend(m, tail);
      }
      SegmentThenKey(s, k);
      RenderHtml(init, keys);
    }
  }

  /** A key on its own yields the chunks of its part, with nothing after it. */
  lemma KeyTextChunks(u: Unit)
    ensures KeyText(u) == Join(Chunks(u, false))
  {
    assert Resolve([u]) == Chunks(u, false) + [];
    assert Chunks(u, false) + [] == Chunks(u, false);
  }

  lemma JoinOne(x: string)
    ensures Join([x]) == x
  {
    assert [x][1..] == [];
  }

  lemma UndefinedKeyText()
    ensures KeyText(Value(Undefined)) == ""
  {
    assert Resolve([Value(Undefined)]) == [""];
  }

  /** A template without keys renders exactly its text: nothing in the
      literal segments is escaped or changed. */
  lemma StaticTemplate(s: string)
    ensures Render(Html([s], [])) == s
  {
    RenderHtml([s], []);
    assert [s][..0] == [];
  }

  /** A key between two segments. */
  lemma OneKeyTemplate(a: string, u: Unit, b: string)
    ensures Render(Html([a, b], [u])) == a + KeyText(u) + b
  {
    RenderHtml([a, b], [u]);
    InterpolateTwo(a, b, [u]);
    assert KeyAt([u], 0) == u && KeyAt([u], 1) == Value(Undefined);
    UndefinedKeyText();
  }

  /** Interpolation of two segments, one key text after each. */
  lemma InterpolateTwo(a: string, b: string, keys: seq<Unit>)
    ensures Interpolate([a, b], keys) == a + KeyText(KeyAt(keys, 0)) + b + KeyText(KeyAt(keys, 1))
  {
    assert [a, b][..1] == [a];
    assert [a][..0] == [];
    assert Interpolate([a], keys) == Interpolate([], keys) + a + KeyText(KeyAt(keys, 0));
  }

  /** The concatenated renders of several templates. */
  function RenderAll(ts: seq<Template>): string {
    if ts == [] then "" else Render(ts[0]) + RenderAll(ts[1..])
  }

  lemma {:induction false} ResolveNestedAll(ts: seq<Template>)
    ensures Join(Resolve(NestedAll(ts))) == RenderAll(ts)
  {
    if ts != [] {
      var rest := NestedAll(ts[1..]);
      assert NestedAll(ts) == [] + [Nested(ts[0])] + rest;
      ResolveSplice([], Nested(ts[0]), rest);
      JoinAppend(Resolve(ts[0].parts), Resolve(rest));
      ResolveNestedAll(ts[1..]);
    }
  }

  /** `renderToString` of a list renders each template in turn, with no
      separator. */
  lemma RenderMany(ts: seq<Template>)
    ensures Render(TemplateOf(Many(ts))) == RenderAll(ts)
  {
    var list := List(NestedAll(ts));
    OneKeyTemplate("", list, "");
    KeyTextChunks(list);
    ResolveNestedAll(ts);
    assert Render(TemplateOf(Many(ts))) == "" + KeyText(list) + "";
  }

  /** A string key yields its escaped text; the empty string escapes to itself. */
  lemma TextPart(s: string, next: bool)
    ensures Chunks(Value(Text(s)), next) == [EscapeHTML(s)]
  {
    var u := Value(Text(s));
    assert !Blank(u) && !u.v.Number? && Await(u) == Plain(Text(s));
    assert Chunks(u, next) == [EscapeSettled(Text(s))];
    if s == "" {
      EscapeEmpty();
    }
  }

  /** A string key is rendered escaped. */
  lemma TextKeyEscaped(a: string, s: string, b: string)
    ensures Render(Html([a, b], [Value(Text(s))])) == a + EscapeHTML(s) + b
  {
    assert KeyText(Value(Text(s))) == EscapeHTML(s) by {
      KeyTextChunks(Value(Text(s)));
      TextPart(s, false);
      JoinOne(EscapeHTML(s));
    }
    OneKeyTemplate(a, Value(Text(s)), b);
  }

  /** An `html` template as a key is rendered as it is, not escaped. */
  lemma NestedKeyVerbatim(a: string, t: Template, b: string)
    ensures Render(Html([a, b], [Nested(t)])) == a + Render(t) + b
  {
    OneKeyTemplate(a, Nested(t), b);
    KeyTextChunks(Nested(t));
  }

  /** An array of two attributes: the first keeps its space, the second is
      trimmed. */
  lemma AttributePairChunks(x: TA.TemplateAttribute, y: TA.TemplateAttribute)
    ensures Join(Chunks(List([Attribute(x), Attribute(y)]), false))
         == TA.ToString(x) + TrimEnd(TA.ToString(y))
  {
    var items := [Attribute(x), Attribute(y)];
    assert Resolve(items) == [TA.ToString(x)] + [TrimEnd(TA.ToString(y))] by {
      assert items[1..] == [Attribute(y)];
      assert Resolve([Attribute(y)]) == [TrimEnd(TA.ToString(y))];
    }
    JoinAppend([TA.ToString(x)], [TrimEnd(TA.ToString(y))]);
    JoinOne(TA.ToString(x));
    JoinOne(TrimEnd(TA.ToString(y)));
  }

  /** An array of two attributes as a key. */
  lemma AttributeListKey(a: string, x: TA.TemplateAttribute, y: TA.TemplateAttribute, b: string)
    ensures Render(Html([a, b], [List([Attribute(x), Attribute(y)])]))
         == a + TA.ToString(x) + TrimEnd(TA.ToString(y)) + b
  {
    var list := List([Attribute(x), Attribute(y)]);
    var p, q := TA.ToString(x), TrimEnd(TA.ToString(y));
    OneKeyTemplate(a, list, b);
    KeyTextChunks(list);
    AttributePairChunks(x, y);
    assert a + (p + q) == a + p + q;
  }

  // ------------------------------------------------------------- vectors

  /** `html`<div>${0}</div>``. */
  lemma ZeroVector()
    ensures Render(Html(["<div>", "</div>"], [Value(Number(0))])) == "<div>" + "0" + "</div>"
  {
    OneKeyTemplate("<div>", Value(Number(0)), "</div>");
  }

  /** `html`<div>${4711}</div>``. */
  lemma NumberVector(a: string, b: string)
    requires a == "<div>" && b == "</div>"
    ensures Render(Html([a, b], [Value(Number(4711))])) == a + "4711" + b
  {
    NumberKeyText(4711);
    DecimalText4711();
    OneKeyTemplate(a, Value(Number(4711)), b);
  }

  /** A number key renders as its decimal text. */
  lemma NumberKeyText(n: int)
    ensures KeyText(Value(Number(n))) == IntToString(n)
  {
    KeyTextChunks(Value(Number(n)));
    NumberPart(n, false);
    JoinOne(IntToString(n));
  }

  lemma DecimalText4711()
    ensures IntToString(4711) == "4711"
  {
    assert NatToString(4711) == NatToString(471) + ['1'];
    assert NatToString(471) == NatToString(47) + ['1'];
    assert NatToString(47) == NatToString(4) + ['7'];
  }

  /** `html`<div>${[null, false, undefined]}</div>``. */
  lemma BlankListVector()
    ensures Render(Html(["<div>", "</div>"], [List([Value(Null), Value(Boolean(false)), Value(Undefined)])]))
         == "<div>" + "</div>"
  {
    var items := [Value(Null), Value(Boolean(false)), Value(Undefined)];
    OneKeyTemplate("<div>", List(items), "</div>");
    assert items[1..] == [Value(Boolean(false)), Value(Undefined)];
    assert items[1..][1..] == [Value(Undefined)];
    assert Resolve(items) == ["", "", ""];
  }

  /** `renderToString([html`<p>hello</p>`, html` `, html`<p>world!</p>`])`. */
  lemma CollectionVector(p: string, q: string, r: string)
    requires p == "<p>hello</p>" && q == " " && r == "<p>world!</p>"
    ensures Render(TemplateOf(Many([Html([p], []), Html([q], []), Html([r], [])]))) == p + q + r
  {
    var ts := [Html([p], []), Html([q], []), Html([r], [])];
    RenderMany(ts);
    StaticTemplate(p);
    StaticTemplate(q);
    StaticTemplate(r);
    assert ts[1..] == [Html([q], []), Html([r], [])];
    assert ts[1..][1..] == [Html([r], [])];
    assert RenderAll(ts[1..][1..]) == r + "";
    assert RenderAll(ts[1..]) == q + RenderAll(ts[1..][1..]);
    assert RenderAll(ts) == p + RenderAll(ts[1..]);
  }

  /** `minify(await renderToString(html`<button ${null}>label</button>`))`. */
  lemma ButtonTemplateVector(a: string, b: string)
    requires a == "<button " && b == ">label</button>"
    ensures Minify.Minify(Render(Html([a, b], [Value(Null)])))
         == "<button" + ">label" + "</" + "button" + ">"
  {
    OneKeyTemplate(a, Value(Null), b);
    assert KeyText(Value(Null)) == "" by {
      assert Resolve([Value(Null)]) == [""];
    }
    var text := a + b;
    assert Render(Html([a, b], [Value(Null)])) == text;
    assert text == "<button" + " >label" + "</" + "button" + ">";
    Minify.ButtonVector(text);
  }
}
