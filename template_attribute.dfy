/**
 * `TemplateAttribute` of lib/template_attribute.ts: a key, kebab-cased when
 * the attribute is built, and a value, rendered by `toString` as
 * `key="value" `, `key `, or nothing.
 */
module TemplateAttributes {
  import opened JsString
  import opened EscapeHtml

  /** The JavaScript values an attribute can hold. A plain object or an array
      carries the text `JSON.stringify` gives for it; an object of another
      class (a `RawContent`, a `Date`) carries what its `toString` gives,
      which is what `escapeHTML` reads from it. */
  datatype AttributeValue =
    | Str(s: string)
    | Num(n: int)
    | Bool(b: bool)
    | Null
    | Undefined
    | ObjectLiteral(json: string)
    | ArrayValue(json: string)
    | Instance(text: string)

  datatype TemplateAttribute = TemplateAttribute(key: string, value: AttributeValue)

  /** The first half of `kebabize`, `.replace(/([a-z])([A-Z])/g, "$1-$2")`: a
      hyphen goes between a lowercase and an uppercase ASCII letter. The scan
      resumes after the uppercase letter of each match. */
  function InsertHyphens(s: string): string {
    if |s| >= 2 && IsAsciiLower(s[0]) && IsAsciiUpper(s[1]) then [s[0], '-', s[1]] + InsertHyphens(s[2..])
    else if s == [] then []
    else [s[0]] + InsertHyphens(s[1..])
  }

  /** `kebabize`: hyphens at the case boundaries, then everything lowercased. */
  function Kebabize(str: string): string {
    ToLowerAscii(InsertHyphens(str))
  }

  /** The constructor: the key is stored kebab-cased, the value as given. */
  function New(key: string, value: AttributeValue): (a: TemplateAttribute)
    ensures a.value == value
    ensures NoAsciiUpper(a.key)
    ensures NoAsciiUpper(key) ==> a.key == key
  {
    var k := Kebabize(key);
    assert NoAsciiUpper(key) ==> k == key by {
      if NoAsciiUpper(key) {
        KebabizeKeepsLowercase(key);
      }
    }
    TemplateAttribute(k, value)
  }

  /** A text without uppercase letters has no boundary for a hyphen. */
  lemma {:induction false} InsertHyphensNoUpper(s: string)
    requires NoAsciiUpper(s)
    ensures InsertHyphens(s) == s
  {
    if s != [] {
      assert NoAsciiUpper(s[1..]);
      InsertHyphensNoUpper(s[1..]);
      if |s| >= 2 {
        assert !IsAsciiUpper(s[1]);
      }
    }
  }

  /** A key that is already kebab-cased, like `data-fubar`, is unchanged. */
  lemma KebabizeKeepsLowercase(s: string)
    requires NoAsciiUpper(s)
    ensures Kebabize(s) == s
  {
    InsertHyphensNoUpper(s);
    LowerOfLowerIsIdentity(s);
  }

  /** No ASCII uppercase letter survives `kebabize`. */
  lemma KebabizeNoUpper(s: string)
    ensures NoAsciiUpper(Kebabize(s))
  {
  }

  lemma KebabizeIdempotent(s: string)
    ensures Kebabize(Kebabize(s)) == Kebabize(s)
  {
    KebabizeKeepsLowercase(Kebabize(s));
  }

  /** `kebabize` leaves a key alone exactly when it has no ASCII uppercase letter. */
  lemma KebabizeUnchangedIff(s: string)
    ensures Kebabize(s) == s <==> NoAsciiUpper(s)
  {
    if NoAsciiUpper(s) {
      KebabizeKeepsLowercase(s);
    }
  }

  /** The hyphen pass splits at a cut that is not a lowercase-uppercase pair. */
  lemma {:induction false} InsertHyphensAppend(a: string, b: string)
    requires a == [] || b == [] || !(IsAsciiLower(a[|a| - 1]) && IsAsciiUpper(b[0]))
    ensures InsertHyphens(a + b) == InsertHyphens(a) + InsertHyphens(b)
  {
    if a == [] {
      assert a + b == b;
    } else if |a| >= 2 && IsAsciiLower(a[0]) && IsAsciiUpper(a[1]) {
      assert (a + b)[2..] == a[2..] + b;
      InsertHyphensAppend(a[2..], b);
    } else {
      assert (a + b)[1..] == a[1..] + b;
      InsertHyphensAppend(a[1..], b);
    }
  }

  /** At a lowercase-uppercase cut the pass inserts exactly one hyphen. */
  lemma {:induction false} InsertHyphensBoundary(a: string, b: string)
    requires a != [] && b != [] && IsAsciiLower(a[|a| - 1]) && IsAsciiUpper(b[0])
    ensures InsertHyphens(a + b) == InsertHyphens(a) + "-" + InsertHyphens(b)
  {
    var tail := InsertHyphens(b[1..]);
    assert InsertHyphens(b) == [b[0]] + tail by {
      assert !IsAsciiLower(b[0]);
    }
    var ab := a + b;
    assert ab[0] == a[0];
    if |a| == 1 {
      assert ab[1] == b[0] && ab[2..] == b[1..];
      assert InsertHyphens(ab) == [a[0], '-', b[0]] + tail;
      assert InsertHyphens(a) == a by {
        assert a[1..] == [];
      }
      assert [a[0], '-', b[0]] + tail == a + "-" + ([b[0]] + tail);
    } else if IsAsciiLower(a[0]) && IsAsciiUpper(a[1]) {
      var rest := a[2..];
      assert ab[1] == a[1] && ab[2..] == rest + b;
      assert rest != [] && rest[|rest| - 1] == a[|a| - 1];
      var head := [a[0], '-', a[1]];
      var h, hb := InsertHyphens(rest), InsertHyphens(b);
      assert InsertHyphens(ab) == head + InsertHyphens(rest + b);
      InsertHyphensBoundary(rest, b);
      assert head + (h + "-" + hb) == (head + h) + "-" + hb;
    } else {
      var rest := a[1..];
      assert ab[1..] == rest + b;
      assert rest != [] && rest[|rest| - 1] == a[|a| - 1];
      var h, hb := InsertHyphens(rest), InsertHyphens(b);
      assert InsertHyphens(ab) == [a[0]] + InsertHyphens(rest + b) by {
        assert !(IsAsciiLower(ab[0]) && IsAsciiUpper(ab[1]));
      }
      InsertHyphensBoundary(rest, b);
      assert [a[0]] + (h + "-" + hb) == ([a[0]] + h) + "-" + hb;
    }
  }

  lemma ToLowerAppend(a: string, b: string)
    ensures ToLowerAscii(a + b) == ToLowerAscii(a) + ToLowerAscii(b)
  {
  }

  /** One camel-case hump: `a` + uppercase `u` + `c`, with `a` ending in a
      lowercase letter and no other uppercase letter, becomes `a-u'c` with `u`
      lowercased. */
  lemma KebabizeHump(a: string, u: char, c: string)
    requires a != [] && IsAsciiLower(a[|a| - 1]) && NoAsciiUpper(a)
    requires IsAsciiUpper(u) && NoAsciiUpper(c)
    ensures Kebabize(a + [u] + c) == a + "-" + [LowerChar(u)] + c
  {
    assert InsertHyphens([u] + c) == [u] + c by {
      assert ([u] + c)[1..] == c;
      InsertHyphensNoUpper(c);
    }
    assert InsertHyphens(a + ([u] + c)) == a + "-" + ([u] + c) by {
      InsertHyphensBoundary(a, [u] + c);
      InsertHyphensNoUpper(a);
    }
    assert a + [u] + c == a + ([u] + c);
    var h := a + "-" + ([u] + c);
    assert h == (a + "-") + [u] + c;
    ToLowerAppend((a + "-") + [u], c);
    ToLowerAppend(a + "-", [u]);
    ToLowerAppend(a, "-");
    LowerOfLowerIsIdentity(a);
    LowerOfLowerIsIdentity(c);
  }

  /** The vector of synchronous_rendering_test.ts: `dataFubar` becomes `data-fubar`. */
  lemma KebabizeDataFubar(key: string)
    requires key == "data" + "Fubar"
    ensures Kebabize(key) == "data" + "-" + "f" + "ubar"
  {
    var a, c := "data", "ubar";
    assert key == a + ['F'] + c;
    assert NoAsciiUpper(a) && NoAsciiUpper(c);
    KebabizeHump(a, 'F', c);
  }

  /** The `isBoolean` getter. */
  predicate IsBoolean(a: TemplateAttribute) {
    a.value.Bool?
  }

  /** The `isObjectLiteral` getter: a truthy value whose prototype is `Object.prototype`. */
  predicate IsObjectLiteral(a: TemplateAttribute) {
    a.value.ObjectLiteral?
  }

  /** The `isArray` getter. */
  predicate IsArray(a: TemplateAttribute) {
    a.value.ArrayValue?
  }

  /** `key="text" `, the form of every rendered valued attribute. */
  function Quoted(key: string, text: string): string {
    key + "=\"" + EscapeHTML(text) + "\" "
  }

  /** The text a valued attribute is escaped from; none for `null`,
      `undefined` and booleans. `Number.prototype.toString` for numbers. */
  function ValueText(v: AttributeValue): string
    requires !v.Bool? && !v.Null? && !v.Undefined?
  {
    match v
    case Str(s) => s
    case Num(n) => IntToString(n)
    case ObjectLiteral(json) => json
    case ArrayValue(json) => json
    case Instance(text) => text
  }

  /** `toString`. */
  function ToString(a: TemplateAttribute): (r: string)
    ensures r == [] || r[|r| - 1] == ' '
    ensures r == [] <==> a.value in {Bool(false), Null, Undefined}
  {
    if IsBoolean(a) then
      (if a.value.b then a.key + " " else "")
    else if IsObjectLiteral(a) || IsArray(a) then
      Quoted(a.key, a.value.json)
    else if !a.value.Undefined? && !a.value.Null? then
      Quoted(a.key, ValueText(a.value))
    else ""
  }

  /** `true` renders as the bare key and a space, `false` as nothing. */
  lemma ToStringBoolean(a: TemplateAttribute)
    requires IsBoolean(a)
    ensures ToString(a) == if a.value.b then a.key + " " else ""
    ensures '=' !in a.key ==> '=' !in ToString(a)
  {
  }

  /** `null` and `undefined` render as nothing. */
  lemma ToStringNullish(a: TemplateAttribute)
    requires a.value.Null? || a.value.Undefined?
    ensures ToString(a) == ""
  {
  }

  /** Every other value renders as `key="escaped text" `, and the escaped text
      holds no double quote, so it cannot end the attribute value early. */
  lemma ToStringValued(a: TemplateAttribute)
    requires !a.value.Bool? && !a.value.Null? && !a.value.Undefined?
    ensures ToString(a) == a.key + "=\"" + EscapeHTML(ValueText(a.value)) + "\" "
    ensures '"' !in EscapeHTML(ValueText(a.value))
    ensures '<' !in EscapeHTML(ValueText(a.value)) && '>' !in EscapeHTML(ValueText(a.value))
  {
    EscapeLeavesNoMarkup(ValueText(a.value));
  }

  /** `trimEnd` of a rendered attribute drops exactly its trailing space when
      the key does not itself end in whitespace. */
  lemma TrimEndOfToString(a: TemplateAttribute)
    requires a.key == [] || !IsWhitespace(a.key[|a.key| - 1])
    ensures ToString(a) != [] ==> TrimEnd(ToString(a)) == ToString(a)[..|ToString(a)| - 1]
    ensures ToString(a) == [] ==> TrimEnd(ToString(a)) == []
  {
    var r := ToString(a);
    if r != [] {
      var body: string;
      if IsBoolean(a) {
        body := a.key;
      } else {
        ToStringValued(a);
        body := a.key + "=\"" + EscapeHTML(ValueText(a.value)) + "\"";
      }
      assert r == body + " ";
      assert body == [] || !IsWhitespace(body[|body| - 1]);
      TrimEndWhitespaceSuffix(body, " ");
      TrimEndKeeps(body);
      assert body == r[..|r| - 1];
    }
  }

  // The vectors of lib/template_attribute_test.ts, all on the key `data-fubar`.

  /** The key is already kebab-cased, so the constructor keeps it. */
  lemma VectorKey(key: string)
    requires key == "data-fubar"
    ensures New(key, Null).key == key
  {
    assert NoAsciiUpper(key);
  }

  lemma VectorTrue(key: string)
    requires key == "data-fubar"
    ensures IsBoolean(New(key, Bool(true)))
    ensures ToString(New(key, Bool(true))) == key + " "
  {
    VectorKey(key);
  }

  lemma VectorString(key: string, text: string)
    requires key == "data-fubar" && text == "hello, world!"
    ensures !IsBoolean(New(key, Str(text)))
    ensures ToString(New(key, Str(text))) == key + "=\"" + text + "\" "
  {
    VectorKey(key);
    assert forall i :: 0 <= i < |text| ==> !IsSpecial(text[i]);
    EscapeUnchangedIff(text);
  }

  lemma VectorNumber(key: string)
    requires key == "data-fubar"
    ensures !IsBoolean(New(key, Num(7)))
    ensures ToString(New(key, Num(7))) == key + "=\"" + "7" + "\" "
  {
    VectorKey(key);
    assert IntToString(7) == "7";
    assert EscapeHTML("7") == "7" by {
      EscapeOneChar('7');
    }
  }

  lemma VectorNullish(key: string)
    requires key == "data-fubar"
    ensures !IsBoolean(New(key, Null)) && ToString(New(key, Null)) == ""
    ensures !IsBoolean(New(key, Undefined)) && ToString(New(key, Undefined)) == ""
  {
  }
}
