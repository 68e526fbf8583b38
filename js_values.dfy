/** The JavaScript values the record is made of, with the coercions the
    application relies on: truthiness, template-literal stringification,
    String.prototype.trim and String.prototype.split. */
module JsValues {
  import opened Wrappers

  /** A value as JSON.parse yields it (numbers are not modelled). */
  datatype Value =
    | Str(s: string)
    | Bool(b: bool)
    | Null
    | List(items: seq<Value>)
    | Obj(fields: map<string, Value>)

  /** JavaScript truthiness: '', false and null are falsy; arrays and
      objects are truthy even when empty. */
  predicate Truthy(v: Value) {
    match v
    case Str(s) => s != ""
    case Bool(b) => b
    case Null => false
    case List(_) => true
    case Obj(_) => true
  }

  /** Truthiness of a property read, where None is `undefined`. */
  predicate Present(v: Option<Value>) {
    v.Some? && Truthy(v.value)
  }

  /** Property read `o[k]` on an object; None is `undefined`. */
  function Field(o: map<string, Value>, k: string): (r: Option<Value>)
    ensures r.Some? <==> k in o
    ensures r.Some? ==> r.value == o[k]
  {
    if k in o then Some(o[k]) else None
  }

  /** Property read `v.k` on an array element, for one of the item field
      names (none of which is a property of strings, booleans or arrays).
      Reading a property of null throws, so callers exclude it. */
  function Prop(v: Value, k: string): (r: Option<Value>)
    requires !v.Null?
    ensures r.Some? <==> v.Obj? && k in v.fields
  {
    if v.Obj? then Field(v.fields, k) else None
  }

  /** `${v}` for a value: arrays join their elements with ',' (null
      elements become ''), objects become '[object Object]'. */
  function ToText(v: Value): string
    decreases v
  {
    match v
    case Str(s) => s
    case Bool(b) => if b then "true" else "false"
    case Null => "null"
    case List(xs) =>
      Join(seq(|xs|, i requires 0 <= i < |xs| => if xs[i].Null? then "" else ToText(xs[i])), ",")
    case Obj(_) => "[object Object]"
  }

  /** `${v || fallback}` */
  function Or(v: Option<Value>, fallback: string): string
  {
    if Present(v) then ToText(v.value) else fallback
  }

  /** The concatenation of `parts` with `sep` between neighbours. */
  function Join(parts: seq<string>, sep: string): string
  {
    if |parts| == 0 then ""
    else if |parts| == 1 then parts[0]
    else parts[0] + sep + Join(parts[1..], sep)
  }

  /** The concatenation of `parts` (Array.prototype.join(''), and the
      pieces of a template literal). */
  function Concat(parts: seq<string>): string
  {
    if parts == [] then "" else parts[0] + Concat(parts[1..])
  }

  /** `s` occurs in `text` at position i. */
  predicate OccursAt(text: string, s: string, i: int) {
    0 <= i <= |text| - |s| && text[i..i + |s|] == s
  }

  /** `s` occurs in `text`. */
  ghost predicate Contains(text: string, s: string) {
    exists i :: OccursAt(text, s, i)
  }

  /** Every part occurs in the concatenation. */
  lemma {:induction false} ConcatContainsPart(parts: seq<string>, k: nat)
    requires k < |parts|
    ensures Contains(Concat(parts), parts[k])
  {
    var c := Concat(parts);
    assert c == parts[0] + Concat(parts[1..]);
    if k == 0 {
      assert OccursAt(c, parts[0], 0);
    } else {
      ConcatContainsPart(parts[1..], k - 1);
      var rest := Concat(parts[1..]);
      var i :| OccursAt(rest, parts[k], i);
      assert c[|parts[0]| + i..|parts[0]| + i + |parts[k]|] == rest[i..i + |parts[k]|];
      assert OccursAt(c, parts[k], |parts[0]| + i);
    }
  }

  /** The characters String.prototype.trim removes: white space and line
      terminators of ECMAScript. */
  predicate IsJsSpace(c: char) {
    var n := c as int;
    n == 0x09 || n == 0x0A || n == 0x0B || n == 0x0C || n == 0x0D || n == 0x20 ||
    n == 0xA0 || n == 0x1680 || (0x2000 <= n <= 0x200A) || n == 0x2028 || n == 0x2029 ||
    n == 0x202F || n == 0x205F || n == 0x3000 || n == 0xFEFF
  }

  /** No character of `s` survives trimming. */
  predicate Blank(s: string) {
    forall i :: 0 <= i < |s| ==> IsJsSpace(s[i])
  }

  function TrimStart(s: string): string
  {
    if s != [] && IsJsSpace(s[0]) then TrimStart(s[1..]) else s
  }

  function TrimEnd(s: string): string
  {
    if s != [] && IsJsSpace(s[|s| - 1]) then TrimEnd(s[..|s| - 1]) else s
  }

  /** String.prototype.trim */
  function Trim(s: string): string
  {
    TrimEnd(TrimStart(s))
  }

  lemma {:induction false} TrimStartFacts(s: string)
    ensures TrimStart(s) == "" <==> Blank(s)
    ensures TrimStart(s) != "" ==> !IsJsSpace(TrimStart(s)[0])
  {
    if s != [] && IsJsSpace(s[0]) {
      TrimStartFacts(s[1..]);
      assert Blank(s) <==> Blank(s[1..]) by {
        if Blank(s[1..]) {
          forall i | 0 <= i < |s| ensures IsJsSpace(s[i]) {
            if i > 0 { assert s[i] == s[1..][i - 1]; }
          }
        }
      }
    }
  }

  lemma {:induction false} TrimEndKeepsHead(s: string)
    requires s != [] && !IsJsSpace(s[0])
    ensures TrimEnd(s) != "" && TrimEnd(s)[0] == s[0]
  {
    if IsJsSpace(s[|s| - 1]) {
      TrimEndKeepsHead(s[..|s| - 1]);
    }
  }

  /** A value is "empty after trimming" exactly when it holds nothing but
      white space. */
  lemma TrimEmptyIffBlank(s: string)
    ensures Trim(s) == "" <==> Blank(s)
  {
    TrimStartFacts(s);
    if TrimStart(s) != "" {
      TrimEndKeepsHead(TrimStart(s));
    }
  }

  lemma TrimEmptyIffBlankAll()
    ensures forall s :: Trim(s) == "" <==> Blank(s)
  {
    forall s ensures Trim(s) == "" <==> Blank(s) {
      TrimEmptyIffBlank(s);
    }
  }

  /** String.prototype.split with a one-character separator. */
  function Split(s: string, sep: char): (parts: seq<string>)
    ensures |parts| >= 1
  {
    if s == [] then [""]
    else
      var rest := Split(s[1..], sep);
      if s[0] == sep then [""] + rest else [[s[0]] + rest[0]] + rest[1..]
  }

  /** Splitting and re-joining with the same separator gives back the key,
      and no part contains the separator. */
  lemma {:induction false} SplitJoin(s: string, sep: char)
    ensures Join(Split(s, sep), [sep]) == s
    ensures forall i :: 0 <= i < |Split(s, sep)| ==> sep !in Split(s, sep)[i]
  {
    if s != [] {
      var rest := Split(s[1..], sep);
      SplitJoin(s[1..], sep);
      if s[0] == sep {
        assert Split(s, sep) == [""] + rest;
        assert Join([""] + rest, [sep]) == "" + [sep] + Join(rest, [sep]);
        assert s == [s[0]] + s[1..];
      } else {
        var parts := Split(s, sep);
        assert parts == [[s[0]] + rest[0]] + rest[1..];
        if |rest| == 1 {
          assert Join(parts, [sep]) == [s[0]] + rest[0];
          assert s == [s[0]] + s[1..];
        } else {
          assert Join(rest, [sep]) == rest[0] + [sep] + Join(rest[1..], [sep]);
          assert Join(parts, [sep]) == [s[0]] + rest[0] + [sep] + Join(rest[1..], [sep]);
          assert s == [s[0]] + s[1..];
        }
        forall i | 0 <= i < |parts| ensures sep !in parts[i] {
          if i > 0 { assert parts[i] == rest[i]; }
        }
      }
    }
  }

  /** A key without the separator splits into itself alone. */
  lemma {:induction false} SplitWithoutSeparator(s: string, sep: char)
    requires sep !in s
    ensures Split(s, sep) == [s]
  {
    if s != [] {
      SplitWithoutSeparator(s[1..], sep);
      assert s == [s[0]] + s[1..];
    }
  }

  /** A key that holds the separator splits into at least two parts. */
  lemma {:induction false} SplitWithSeparator(s: string, sep: char)
    requires sep in s
    ensures |Split(s, sep)| >= 2
  {
    if s[0] != sep {
      assert sep in s[1..];
      SplitWithSeparator(s[1..], sep);
    }
  }

  /** Decimal spelling of an array index (the own keys that spreading an
      array or a string produces). */
  function DecimalKey(n: nat): (r: string)
    ensures r != "" && forall i :: 0 <= i < |r| ==> '0' <= r[i] <= '9'
  {
    var d := ['0' + (n % 10) as char];
    if n < 10 then d else DecimalKey(n / 10) + d
  }

  /** Distinct indices are spelled differently, so a spread never writes
      one index's key twice. */
  lemma {:induction false} DecimalKeyInjective(a: nat, b: nat)
    requires DecimalKey(a) == DecimalKey(b)
    ensures a == b
  {
    var ra, rb := DecimalKey(a), DecimalKey(b);
    assert ra[|ra| - 1] == rb[|rb| - 1];
    if a >= 10 && b >= 10 {
      assert DecimalKey(a / 10) == ra[..|ra| - 1];
      assert DecimalKey(b / 10) == rb[..|rb| - 1];
      DecimalKeyInjective(a / 10, b / 10);
    }
  }
}
