/** The shared helpers of src/shared/index.ts, over a small model of
    JavaScript values. Strings are sequences of characters and case mapping
    is restricted to ASCII. */
module Shared {

  /** A JavaScript value as far as the modelled code inspects it. Objects
      (plain objects, arrays, proxies) and functions are told apart by an
      identity `ref`; numbers are integers (no NaN, no -0). */
  datatype Value =
    | Undefined
    | Null
    | Bool(b: bool)
    | Num(n: int)
    | Str(s: string)
    | Obj(ref: nat)
    | Fn(ref: nat)

  /** The result of the `typeof` operator. */
  function TypeOf(v: Value): string
  {
    match v
    case Undefined => "undefined"
    case Null => "object"
    case Bool(_) => "boolean"
    case Num(_) => "number"
    case Str(_) => "string"
    case Obj(_) => "object"
    case Fn(_) => "function"
  }

  /** `Object.is` on the modelled values: primitives compare by value,
      objects and functions by identity. */
  predicate SameValue(a: Value, b: Value)
  {
    match (a, b)
    case (Undefined, Undefined) => true
    case (Null, Null) => true
    case (Bool(x), Bool(y)) => x == y
    case (Num(x), Num(y)) => x == y
    case (Str(x), Str(y)) => x == y
    case (Obj(x), Obj(y)) => x == y
    case (Fn(x), Fn(y)) => x == y
    case _ => false
  }

  /** JavaScript truthiness. */
  predicate Truthy(v: Value)
  {
    match v
    case Undefined => false
    case Null => false
    case Bool(b) => b
    case Num(n) => n != 0
    case Str(s) => s != ""
    case Obj(_) => true
    case Fn(_) => true
  }

  /** `isObject`: non-null and of type "object". Functions are not objects here. */
  predicate IsObject(v: Value)
    ensures IsObject(v) <==> v != Null && TypeOf(v) == "object"
  {
    v.Obj?
  }

  /** `hasChanged(a, b)` is `!Object.is(a, b)`. */
  predicate HasChanged(a: Value, b: Value)
    ensures HasChanged(a, b) <==> !SameValue(a, b)
    ensures HasChanged(a, b) <==> a != b
  {
    a != b
  }

  // ASCII character classes and case mapping

  predicate IsUpperAscii(c: char) { 'A' <= c <= 'Z' }

  predicate IsLowerAscii(c: char) { 'a' <= c <= 'z' }

  predicate IsAsciiLetter(c: char) { IsUpperAscii(c) || IsLowerAscii(c) }

  predicate IsDigit(c: char) { '0' <= c <= '9' }

  /** The regular-expression class `\w`: `[A-Za-z0-9_]`. */
  predicate IsWordChar(c: char) { IsAsciiLetter(c) || IsDigit(c) || c == '_' }

  function ToUpper(c: char): (u: char)
    ensures IsLowerAscii(c) ==> IsUpperAscii(u)
    ensures !IsLowerAscii(c) ==> u == c
  {
    if IsLowerAscii(c) then (c as int - 'a' as int + 'A' as int) as char else c
  }

  function ToLower(c: char): (l: char)
    ensures IsUpperAscii(c) ==> IsLowerAscii(l)
    ensures !IsUpperAscii(c) ==> l == c
  {
    if IsUpperAscii(c) then (c as int - 'A' as int + 'a' as int) as char else c
  }

  function LowerCase(s: string): (r: string)
    ensures |r| == |s|
    ensures forall k :: 0 <= k < |s| ==> r[k] == ToLower(s[k])
  {
    seq(|s|, k requires 0 <= k < |s| => ToLower(s[k]))
  }

  /** `camelize`: `str.replace(/-(\w)/g, (_, c) => c.toUpperCase())`. The
      matches are found from left to right and do not overlap, so a hyphen
      is dropped exactly when the next character is a word character that
      no earlier match consumed. */
  function Camelize(s: string): string
    decreases |s|
  {
    if |s| < 2 then s
    else if s[0] == '-' && IsWordChar(s[1]) then [ToUpper(s[1])] + Camelize(s[2..])
    else [s[0]] + Camelize(s[1..])
  }

  /** The number of replacements `camelize` makes. */
  function HyphenMatches(s: string): nat
    decreases |s|
  {
    if |s| < 2 then 0
    else if s[0] == '-' && IsWordChar(s[1]) then 1 + HyphenMatches(s[2..])
    else HyphenMatches(s[1..])
  }

  /** A string without a hyphen is left unchanged. */
  lemma {:induction false} CamelizeWithoutHyphen(s: string)
    requires forall k :: 0 <= k < |s| ==> s[k] != '-'
    ensures Camelize(s) == s
    decreases |s|
  {
    if |s| >= 2 {
      CamelizeWithoutHyphen(s[1..]);
    }
  }

  /** Each replacement removes exactly one character. */
  lemma {:induction false} CamelizeLength(s: string)
    ensures |Camelize(s)| == |s| - HyphenMatches(s)
    ensures HyphenMatches(s) <= |s| / 2
    decreases |s|
  {
    if |s| >= 2 {
      if s[0] == '-' && IsWordChar(s[1]) {
        CamelizeLength(s[2..]);
      } else {
        CamelizeLength(s[1..]);
      }
    }
  }

  /** The first character of `camelize(s)`. */
  lemma {:induction false} CamelizeHead(s: string)
    requires s != []
    ensures Camelize(s) != []
    ensures Camelize(s)[0] ==
      if |s| >= 2 && s[0] == '-' && IsWordChar(s[1]) then ToUpper(s[1]) else s[0]
  {
  }

  /** No hyphen of the result is followed by a lower-case letter: a hyphen
      survives only before a non-word character, before the end, or before a
      hyphen whose own match upper-cases the next letter. */
  lemma {:induction false} CamelizeNoHyphenBeforeLower(s: string)
    ensures forall k :: 0 <= k < |Camelize(s)| - 1 && Camelize(s)[k] == '-' ==>
      !IsLowerAscii(Camelize(s)[k + 1])
    decreases |s|
  {
    var r := Camelize(s);
    if |s| < 2 {
    } else if s[0] == '-' && IsWordChar(s[1]) {
      CamelizeNoHyphenBeforeLower(s[2..]);
      assert r == [ToUpper(s[1])] + Camelize(s[2..]);
      assert r[0] != '-';
    } else {
      var t := Camelize(s[1..]);
      CamelizeNoHyphenBeforeLower(s[1..]);
      CamelizeHead(s[1..]);
      assert r == [s[0]] + t;
      forall k | 0 <= k < |r| - 1 && r[k] == '-'
        ensures !IsLowerAscii(r[k + 1])
      {
        if k > 0 {
          assert r[k] == t[k - 1] && r[k + 1] == t[k];
        } else {
          assert r[1] == t[0];
        }
      }
    }
  }

  /** A trailing hyphen is never consumed. */
  lemma {:induction false} CamelizeKeepsTrailingHyphen(s: string)
    requires s != [] && s[|s| - 1] == '-'
    ensures Camelize(s) != [] && Camelize(s)[|Camelize(s)| - 1] == '-'
    decreases |s|
  {
    if |s| >= 2 {
      if s[0] == '-' && IsWordChar(s[1]) {
        assert |s| > 2;
        assert s[2..][|s[2..]| - 1] == '-';
        CamelizeKeepsTrailingHyphen(s[2..]);
      } else {
        assert s[1..][|s[1..]| - 1] == '-';
        CamelizeKeepsTrailingHyphen(s[1..]);
      }
    }
  }

  /** `capitalize`: the first character upper-cased, the rest unchanged. */
  function Capitalize(s: string): (r: string)
    ensures |r| == |s|
    ensures s != "" ==> r[0] == ToUpper(s[0]) && r[1..] == s[1..]
  {
    if s == "" then "" else [ToUpper(s[0])] + s[1..]
  }

  /** Capitalising twice is capitalising once, and only the first
      character can change. */
  lemma CapitalizeIdempotent(s: string)
    ensures Capitalize(Capitalize(s)) == Capitalize(s)
    ensures s == "" || Capitalize(s)[1..] == s[1..]
  {
  }

  /** `toHandlerKey`: "" for the empty string, else "on" + capitalize(str). */
  function ToHandlerKey(s: string): (r: string)
    ensures s == "" <==> r == ""
    ensures s != "" ==> |r| == |s| + 2 && r[..2] == "on" && r[2..] == Capitalize(s)
  {
    if s != "" then "on" + Capitalize(s) else ""
  }

  /** The test `/^on[A-Z]/` the DOM adapter applies to a property key
      (src/runtime_dom/index.ts:8). */
  predicate IsOn(key: string)
  {
    |key| >= 3 && key[..2] == "on" && IsUpperAscii(key[2])
  }

  /** A handler key built from a name that starts with an ASCII letter is
      one the DOM adapter treats as an event listener. */
  lemma HandlerKeyIsEventKey(s: string)
    requires s != "" && IsAsciiLetter(s[0])
    ensures IsOn(ToHandlerKey(s))
  {
    var r := ToHandlerKey(s);
    assert r[2] == ToUpper(s[0]);
  }
}
