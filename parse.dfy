/** The template parser of src/compiler-core/src/parse.ts. The parser
    consumes a mutable `source` and keeps a stack of open element tags; it
    is the class `Parser`, and each of its methods is proved to do what a
    function of the source and the stack says. A parse can return, throw,
    or loop forever: when an iteration of `parseChildren` leaves the
    source as it found it, the next iteration starts from the same state,
    and the parse `Diverges`. */
module Parse {
  import opened Shared
  import opened Wrappers

  /** The outcome of a parse step: a value, an exception, or a loop that never ends. */
  datatype Parsed<+T> = Done(value: T) | Thrown(error: Exception) | Diverges

  /** An AST node as the parser builds it. An element's `children` is the
      return value of `parseChildren`, which has no `return` statement, so
      it is always `undefined` and is not represented. */
  datatype Node = Element(tag: string) | Text(content: string) | Interpolation(content: string)

  /** `createRoot(children)`: `None` is `undefined`. */
  datatype Root = Root(children: Option<seq<Node>>)

  /** The message of the `Error` thrown for a missing end tag, before the tag name. */
  const MissingEndTag: string := "缺少结束标签:"

  // ---------------------------------------------------------------------
  // JavaScript string operations

  /** `s.startsWith(p)` */
  predicate StartsWith(s: string, p: string)
  {
    |p| <= |s| && forall k :: 0 <= k < |p| ==> s[k] == p[k]
  }

  function Min(a: int, b: int): int { if a <= b then a else b }

  /** `s.slice(n)`: a negative `n` counts from the end; both ends are clamped. */
  function Drop(s: string, n: int): (r: string)
    ensures |r| <= |s|
  {
    if n >= 0 then (if n <= |s| then s[n..] else "")
    else if |s| + n >= 0 then s[|s| + n..] else s
  }

  /** `s.slice(0, n)`: a negative `n` counts from the end; both ends are clamped. */
  function Take(s: string, n: int): (r: string)
    ensures |r| <= |s|
  {
    if n >= 0 then (if n <= |s| then s[..n] else s)
    else if |s| + n >= 0 then s[..|s| + n] else ""
  }

  /** `pat` occurs in `s` starting at `j`. */
  predicate OccursAt(s: string, pat: string, j: int)
  {
    0 <= j && j + |pat| <= |s| && s[j..j + |pat|] == pat
  }

  /** `s.indexOf(pat, from)`: the first occurrence at or after `from`, or -1. */
  function IndexOf(s: string, pat: string, from: nat): (k: int)
    requires pat != ""
    ensures k == -1 || (from <= k && OccursAt(s, pat, k))
    ensures forall j :: from <= j && (k == -1 || j < k) ==> !OccursAt(s, pat, j)
    decreases |s| - from
  {
    if from + |pat| > |s| then -1
    else if s[from..from + |pat|] == pat then from
    else IndexOf(s, pat, from + 1)
  }

  /** The ASCII characters `String.prototype.trim` removes. */
  predicate IsSpace(c: char)
  {
    c == ' ' || c == '\t' || c == '\n' || c == '\r' || c as int == 11 || c as int == 12
  }

  function TrimStart(s: string): string
    decreases |s|
  {
    if s != "" && IsSpace(s[0]) then TrimStart(s[1..]) else s
  }

  function TrimEnd(s: string): string
    decreases |s|
  {
    if s != "" && IsSpace(s[|s| - 1]) then TrimEnd(s[..|s| - 1]) else s
  }

  /** `s.trim()` */
  function Trim(s: string): string
  {
    TrimEnd(TrimStart(s))
  }

  // ---------------------------------------------------------------------
  // What the parser does, as functions of the source and the stack

  /** `startsWithEndTagOpen(source, tag)`: "</" followed by the next
      `|tag|` characters, which lower-case to the tag lower-cased. */
  predicate StartsWithEndTagOpen(source: string, tag: string)
  {
    StartsWith(source, "</") && LowerCase(source[2..Min(2 + |tag|, |source|)]) == LowerCase(tag)
  }

  /** An end tag for `tag` opens the source exactly when "</" is followed
      by at least `|tag|` characters that equal the tag up to ASCII case. */
  lemma EndTagOpenChars(source: string, tag: string)
    ensures StartsWithEndTagOpen(source, tag) <==>
      |source| >= 2 + |tag| && source[..2] == "</"
      && forall k :: 0 <= k < |tag| ==> ToLower(source[2 + k]) == ToLower(tag[k])
  {
    if StartsWithEndTagOpen(source, tag) {
      assert |LowerCase(source[2..Min(2 + |tag|, |source|)])| == |tag|;
      forall k | 0 <= k < |tag|
        ensures ToLower(source[2 + k]) == ToLower(tag[k])
      {
        assert LowerCase(source[2..2 + |tag|])[k] == LowerCase(tag)[k];
      }
    }
    if |source| >= 2 + |tag| && source[..2] == "</"
       && forall k :: 0 <= k < |tag| ==> ToLower(source[2 + k]) == ToLower(tag[k]) {
      assert LowerCase(source[2..2 + |tag|]) == LowerCase(tag);
    }
  }

  /** Some tag among `ancestors` has its end tag open the source, found
      scanning from the innermost one. */
  predicate EndTagOfAny(source: string, ancestors: seq<string>)
  {
    |ancestors| > 0 &&
    (StartsWithEndTagOpen(source, ancestors[|ancestors| - 1]) || EndTagOfAny(source, ancestors[..|ancestors| - 1]))
  }

  /** `isEnd(context, ancestors)` */
  predicate IsEndF(source: string, ancestors: seq<string>)
  {
    (StartsWith(source, "</") && EndTagOfAny(source, ancestors)) || source == ""
  }

  /** `isEnd` holds exactly when the source is used up or starts with the
      end tag of one of the open elements, whichever one that is. */
  lemma {:induction false} IsEndMeaning(source: string, ancestors: seq<string>)
    ensures EndTagOfAny(source, ancestors) <==>
      exists i :: 0 <= i < |ancestors| && StartsWithEndTagOpen(source, ancestors[i])
    ensures IsEndF(source, ancestors) <==>
      source == "" || exists i :: 0 <= i < |ancestors| && StartsWithEndTagOpen(source, ancestors[i])
  {
    if |ancestors| > 0 {
      var init := ancestors[..|ancestors| - 1];
      IsEndMeaning(source, init);
      if EndTagOfAny(source, init) {
        var i :| 0 <= i < |init| && StartsWithEndTagOpen(source, init[i]);
        assert ancestors[i] == init[i];
      }
      if exists i :: 0 <= i < |ancestors| && StartsWithEndTagOpen(source, ancestors[i]) {
        var i :| 0 <= i < |ancestors| && StartsWithEndTagOpen(source, ancestors[i]);
        if i < |init| {
          assert init[i] == ancestors[i];
        }
      }
    }
  }

  /** `endTokens` in `parseText`. */
  const EndTokens: seq<string> := ["{{", "<"]

  /** `endIndex` after the `parseText` loop has looked at `tokens`. */
  function EndOver(s: string, tokens: seq<string>): (e: int)
    requires forall t :: t in tokens ==> t != ""
    ensures 0 <= e <= |s|
    ensures forall t :: t in tokens ==> IndexOf(s, t, 0) == -1 || e <= IndexOf(s, t, 0)
    ensures e == |s| || exists t :: t in tokens && e == IndexOf(s, t, 0)
  {
    if tokens == [] then |s|
    else
      var init, t := tokens[..|tokens| - 1], tokens[|tokens| - 1];
      assert forall u :: u in init ==> u in tokens;
      assert forall u :: u in tokens ==> u in init || u == t;
      assert t in tokens;
      var e := EndOver(s, init);
      var index := IndexOf(s, t, 0);
      if index != -1 && e > index then index else e
  }

  /** Where `parseText` stops: the first "{{" or "<", or the end. */
  function TextEnd(s: string): (e: nat)
    ensures e <= |s|
  {
    EndOver(s, EndTokens)
  }

  /** `parseText` reads everything before the earliest "{{" or "<": no
      "<" and no "{{" starts before where it stops, and it stops at the
      end or at one of them. */
  lemma TextEndMeaning(s: string)
    ensures var e := TextEnd(s);
      && (forall j :: 0 <= j < e ==> s[j] != '<')
      && (forall j :: 0 <= j < e ==> !OccursAt(s, "{{", j))
      && (e == |s| || s[e] == '<' || OccursAt(s, "{{", e))
  {
    var e := TextEnd(s);
    assert "{{" in EndTokens && "<" in EndTokens;
    var lt, open := IndexOf(s, "<", 0), IndexOf(s, "{{", 0);
    assert lt == -1 || e <= lt;
    assert open == -1 || e <= open;
    forall j | 0 <= j < e
      ensures s[j] != '<'
    {
      assert s[j] == '<' ==> OccursAt(s, "<", j);
    }
    if e < |s| {
      var t :| t in EndTokens && e == IndexOf(s, t, 0);
    }
  }

  /** `parseText(context)`: the text node and the rest of the source. */
  function TextF(s: string): (Node, string)
  {
    var e := TextEnd(s);
    (Text(Take(s, e)), Drop(s, e))
  }

  /** The number of ASCII letters at the start of `s`. */
  function LetterRun(s: string): (n: nat)
    ensures n <= |s|
    ensures forall k :: 0 <= k < n ==> IsAsciiLetter(s[k])
    ensures n == |s| || !IsAsciiLetter(s[n])
    decreases |s|
  {
    if s != "" && IsAsciiLetter(s[0]) then 1 + LetterRun(s[1..]) else 0
  }

  /** `/^<\/?([a-z]*)/i.exec(s)` on a source starting with "<": the
      length of the match and the captured tag. */
  function TagMatch(s: string): (m: (nat, string))
    requires StartsWith(s, "<")
  {
    var p := if |s| >= 2 && s[1] == '/' then 2 else 1;
    var n := LetterRun(s[p..]);
    (p + n, s[p..p + n])
  }

  /** `parseTag(context, type)`: the tag, and the source after the match
      and one more character. */
  function TagF(s: string): (r: (string, string))
    requires StartsWith(s, "<")
    ensures |r.1| < |s|
  {
    var m := TagMatch(s);
    (m.1, Drop(Drop(s, m.0), 1))
  }

  /** `parseInterpolation(context)` on a source starting with "{{". */
  function InterpolationF(s: string): (Node, string)
    requires StartsWith(s, "{{")
  {
    var closeIndex := IndexOf(s, "}}", 2);
    var s1 := Drop(s, 2);
    var rawContentLength := closeIndex - 2;
    var rawContent := Take(s1, rawContentLength);
    var s2 := Drop(s1, rawContentLength);
    (Interpolation(Trim(rawContent)), Drop(s2, rawContentLength + 2))
  }

  /** `/[a-z]/i.test(s[1])` for a source starting with "<": `s[1]` is
      `undefined` for "<" alone, which the test reads as "undefined". */
  predicate LetterAfterOpen(s: string)
  {
    |s| < 2 || IsAsciiLetter(s[1])
  }

  /** One iteration of the `parseChildren` loop: the node and the rest. */
  function NodeF(s: string, ancestors: seq<string>): (r: (Parsed<Node>, string))
    ensures |r.1| <= |s|
    decreases |s|, 1
  {
    if StartsWith(s, "{{") then
      var n := InterpolationF(s);
      (Done(n.0), n.1)
    else if StartsWith(s, "<") && LetterAfterOpen(s) then ElementF(s, ancestors)
    else
      var n := TextF(s);
      (Done(n.0), n.1)
  }

  /** `parseElement(context, ancestors)` */
  function ElementF(s: string, ancestors: seq<string>): (r: (Parsed<Node>, string))
    requires StartsWith(s, "<")
    ensures |r.1| < |s|
    decreases |s|, 0
  {
    var t := TagF(s);
    Close(t.0, ChildrenF(t.1, ancestors + [t.0]))
  }

  /** The end of `parseElement` once the children of `tag` are parsed:
      an exception or a loop in the children is the element's, and the
      end tag must follow. */
  function Close(tag: string, c: (Parsed<seq<Node>>, string)): (r: (Parsed<Node>, string))
    ensures |r.1| <= |c.1|
  {
    if c.0.Thrown? then (Thrown(c.0.error), c.1)
    else if c.0.Diverges? then (Diverges, c.1)
    else if StartsWithEndTagOpen(c.1, tag) then (Done(Element(tag)), TagF(c.1).1)
    else (Thrown(Error(MissingEndTag + tag)), c.1)
  }

  /** `parseChildren(context, ancestors)`: the nodes it collects, and the
      rest of the source. An iteration that consumes nothing repeats forever. */
  function ChildrenF(s: string, ancestors: seq<string>): (r: (Parsed<seq<Node>>, string))
    ensures |r.1| <= |s|
    decreases |s|, 2
  {
    if IsEndF(s, ancestors) then (Done([]), s)
    else
      var n := NodeF(s, ancestors);
      if n.0.Thrown? then (Thrown(n.0.error), n.1)
      else if n.0.Diverges? || |n.1| == |s| then (Diverges, n.1)
      else
        var rest := ChildrenF(n.1, ancestors);
        (if rest.0.Done? then Done([n.0.value] + rest.0.value) else rest.0, rest.1)
  }

  /** `baseParse(content)`: the root's children are `undefined`. */
  function BaseParseF(content: string): Parsed<Root>
  {
    match ChildrenF(content, []).0
    case Done(_) => Done(Root(None))
    case Thrown(e) => Thrown(e)
    case Diverges => Diverges
  }

  // Properties

  /** An iteration of `parseChildren` that is not at the end consumes
      nothing exactly when the source starts with "<" followed by a
      character that is not an ASCII letter: `parseText` then reads the
      empty text. */
  lemma NoProgressIffStuck(s: string, ancestors: seq<string>)
    requires !IsEndF(s, ancestors)
    ensures |NodeF(s, ancestors).1| == |s| <==> StartsWith(s, "<") && !LetterAfterOpen(s)
    ensures StartsWith(s, "<") && !LetterAfterOpen(s) ==> NodeF(s, ancestors) == (Done(Text("")), s)
  {
    TextEndMeaning(s);
    if StartsWith(s, "<") && !LetterAfterOpen(s) {
      assert IndexOf(s, "<", 0) == 0;
      assert !OccursAt(s, "{{", 0);
    }
  }

  /** `parseInterpolation` over-consumes: with the first "}}" at `c`, it
      resumes at `2 * c` instead of `c + 2`, skipping as many characters
      again, past "}}", as the text between the delimiters had. */
  lemma InterpolationSkips(s: string)
    requires StartsWith(s, "{{")
    requires IndexOf(s, "}}", 2) != -1
    ensures var c := IndexOf(s, "}}", 2);
      && InterpolationF(s).0 == Interpolation(Trim(s[2..c]))
      && InterpolationF(s).1 == Drop(s, 2 * c)
  {
    InterpolationContent(s);
    InterpolationRest(s);
  }

  lemma InterpolationContent(s: string)
    requires StartsWith(s, "{{")
    requires IndexOf(s, "}}", 2) != -1
    ensures var c := IndexOf(s, "}}", 2);
      InterpolationF(s).0 == Interpolation(Trim(s[2..c]))
  {
    var c := IndexOf(s, "}}", 2);
    var s1 := Drop(s, 2);
    assert s1 == s[2..];
    assert Take(s1, c - 2) == s[2..c];
  }

  lemma InterpolationRest(s: string)
    requires StartsWith(s, "{{")
    requires IndexOf(s, "}}", 2) != -1
    ensures var c := IndexOf(s, "}}", 2);
      InterpolationF(s).1 == Drop(s, 2 * c)
  {
    var c := IndexOf(s, "}}", 2);
    DropTwice(s, 2, c - 2);
    DropTwice(s, c, c);
  }

  /** Two slices from the front are one. */
  lemma DropTwice(s: string, a: nat, b: nat)
    requires a <= |s|
    ensures Drop(Drop(s, a), b) == Drop(s, a + b)
  {
    if a + b <= |s| {
      assert s[a..][b..] == s[a + b..];
    }
  }

  /** `parseTag` takes the longest run of ASCII letters after "<" or "</"
      as the tag and consumes it and exactly one more character. */
  lemma TagMeaning(s: string)
    requires StartsWith(s, "<")
    ensures var p := if |s| >= 2 && s[1] == '/' then 2 else 1;
      var r := TagF(s);
      && p + |r.0| <= |s| && s[p..p + |r.0|] == r.0
      && (forall k :: 0 <= k < |r.0| ==> IsAsciiLetter(r.0[k]))
      && (p + |r.0| == |s| || !IsAsciiLetter(s[p + |r.0|]))
      && r.1 == Drop(s, p + |r.0| + 1)
  {
    var p := if |s| >= 2 && s[1] == '/' then 2 else 1;
    var n := LetterRun(s[p..]);
    var tag := s[p..p + n];
    assert TagMatch(s) == (p + n, tag);
    assert TagF(s) == (tag, Drop(Drop(s, p + n), 1));
    forall k | 0 <= k < n
      ensures IsAsciiLetter(tag[k])
    {
      assert tag[k] == s[p..][k];
    }
    if p + n < |s| {
      assert s[p..][n] == s[p + n];
      assert s[p + n..][1..] == s[p + n + 1..];
    }
  }

  // ---------------------------------------------------------------------
  // The parser

  class Parser {
    /** `context.source` */
    var source: string
    /** The tags of `ancestors`, outermost first. */
    var ancestors: seq<string>

    /** `createParserContext(content)` with an empty ancestor stack. */
    constructor(content: string)
      ensures source == content && ancestors == []
    {
      source := content;
      ancestors := [];
    }

    /** `advanceBy(context, length)` */
    method AdvanceBy(length: int)
      modifies this`source
      ensures source == Drop(old(source), length)
    {
      source := Drop(source, length);
    }

    /** `parseTextData(context, length)` */
    method ParseTextData(length: int) returns (content: string)
      modifies this`source
      ensures content == Take(old(source), length) && source == Drop(old(source), length)
    {
      content := Take(source, length);
      AdvanceBy(length);
    }

    /** `isEnd(context, ancestors)`: the ancestors are scanned from the
        innermost outwards. */
    method IsEnd() returns (b: bool)
      ensures b == IsEndF(source, ancestors)
    {
      var s := source;
      if StartsWith(s, "</") {
        var i := |ancestors| - 1;
        assert ancestors[..i + 1] == ancestors;
        while i >= 0
          invariant -1 <= i < |ancestors|
          invariant EndTagOfAny(s, ancestors) == EndTagOfAny(s, ancestors[..i + 1])
        {
          var tag := ancestors[i];
          assert ancestors[..i + 1][..i] == ancestors[..i];
          if StartsWithEndTagOpen(s, tag) {
            return true;
          }
          i := i - 1;
        }
      }
      b := source == "";
    }

    /** `parseText(context)` */
    method ParseText() returns (node: Node)
      modifies this`source
      ensures (node, source) == TextF(old(source))
    {
      var endTokens := EndTokens;
      var endIndex := |source|;
      for i := 0 to |endTokens|
        invariant endIndex == EndOver(source, endTokens[..i])
      {
        assert endTokens[..i + 1][..i] == endTokens[..i];
        var index := IndexOf(source, endTokens[i], 0);
        if index != -1 && endIndex > index {
          endIndex := index;
        }
      }
      assert endTokens[..|endTokens|] == EndTokens;
      var content := ParseTextData(endIndex);
      node := Text(content);
    }

    /** `parseTag(context, type)`: an element node for a start tag, nothing
        for an end tag. */
    method ParseTag(start: bool) returns (element: Option<Node>)
      requires StartsWith(source, "<")
      modifies this`source
      ensures source == TagF(old(source)).1
      ensures element == if start then Some(Element(TagF(old(source)).0)) else None
    {
      var (length, tag) := TagMatch(source);
      AdvanceBy(length);
      AdvanceBy(1);
      if !start {
        return None;
      }
      element := Some(Element(tag));
    }

    /** `parseInterpolation(context)` */
    method ParseInterpolation() returns (node: Node)
      requires StartsWith(source, "{{")
      modifies this`source
      ensures (node, source) == InterpolationF(old(source))
    {
      var openDelimiter, closeDelimiter := "{{", "}}";
      var closeIndex := IndexOf(source, closeDelimiter, |openDelimiter|);
      AdvanceBy(|openDelimiter|);
      var rawContentLength := closeIndex - |openDelimiter|;
      var rawContent := ParseTextData(rawContentLength);
      var content := Trim(rawContent);
      AdvanceBy(rawContentLength + |closeDelimiter|);
      node := Interpolation(content);
    }

    /** `parseElement(context, ancestors)`: the tag is pushed while the
        children are parsed and popped after; the element must then be
        closed by its end tag, or an `Error` is thrown. */
    method ParseElement() returns (r: Parsed<Node>)
      requires StartsWith(source, "<")
      modifies this
      ensures (r, source) == ElementF(old(source), old(ancestors))
      ensures r.Done? ==> ancestors == old(ancestors)
      decreases |source|, 0
    {
      ghost var a0 := ancestors;
      var element := ParseTag(true);
      var tag := element.value.tag;
      ancestors := ancestors + [tag];
      var children := ParseChildren();
      if children.Thrown? {
        return Thrown(children.error);
      } else if children.Diverges? {
        return Diverges;
      }
      ancestors := ancestors[..|ancestors| - 1];
      assert ancestors == a0;
      r := CloseElement(tag);
    }

    /** The end of `parseElement`: the end tag of `tag` is consumed, or an
        `Error` is thrown. */
    method CloseElement(tag: string) returns (r: Parsed<Node>)
      modifies this`source
      ensures (r, source) == Close(tag, (Done([]), old(source)))
    {
      if StartsWithEndTagOpen(source, tag) {
        var _ := ParseTag(false);
      } else {
        return Thrown(Error(MissingEndTag + tag));
      }
      r := Done(Element(tag));
    }

    /** `parseChildren(context, ancestors)`: nodes are parsed until
        `isEnd`. `Done(nodes)` carries the list the source builds, which
        its missing `return` then drops. */
    method ParseChildren() returns (r: Parsed<seq<Node>>)
      modifies this
      ensures (r, source) == ChildrenF(old(source), old(ancestors))
      ensures r.Done? ==> ancestors == old(ancestors)
      decreases |source|, 2
    {
      ghost var final := ChildrenF(source, ancestors);
      var nodes: seq<Node> := [];
      assert final.0.Done? ==> nodes + final.0.value == final.0.value;
      while true
        invariant ancestors == old(ancestors) && |source| <= |old(source)|
        invariant var now := ChildrenF(source, ancestors);
          (if now.0.Done? then Done(nodes + now.0.value) else now.0, now.1) == final
        decreases |source|
      {
        var atEnd := IsEnd();
        if atEnd {
          assert nodes + [] == nodes;
          return Done(nodes);
        }
        ghost var s0 := source;
        var s := source;
        var element := ParseNode();
        if element.Thrown? {
          return Thrown(element.error);
        } else if element.Diverges? {
          return Diverges;
        }
        var node := element.value;
        if |source| == |s| {
          // nothing was consumed: the next iteration starts from this state again
          return Diverges;
        }
        ghost var rest := ChildrenF(source, ancestors);
        assert ChildrenF(s0, ancestors)
          == (if rest.0.Done? then Done([node] + rest.0.value) else rest.0, rest.1);
        if rest.0.Done? {
          assert nodes + ([node] + rest.0.value) == (nodes + [node]) + rest.0.value;
        }
        nodes := nodes + [node];
      }
    }

    /** One iteration of the `parseChildren` loop after `isEnd`: an
        interpolation, an element, or else text. */
    method ParseNode() returns (r: Parsed<Node>)
      modifies this
      ensures (r, source) == NodeF(old(source), old(ancestors))
      ensures r.Done? ==> ancestors == old(ancestors)
      decreases |source|, 1
    {
      var s := source;
      if StartsWith(s, "{{") {
        var node := ParseInterpolation();
        r := Done(node);
      } else if StartsWith(s, "<") && LetterAfterOpen(s) {
        r := ParseElement();
      } else {
        var node := ParseText();
        r := Done(node);
      }
    }
  }

  /** `baseParse(content)` */
  method BaseParse(content: string) returns (r: Parsed<Root>)
    ensures r == BaseParseF(content)
    ensures r.Done? ==> r.value.children == None
  {
    var context := new Parser(content);
    var children := context.ParseChildren();
    match children {
      case Done(_) => r := Done(Root(None));
      case Thrown(e) => r := Thrown(e);
      case Diverges => r := Diverges;
    }
  }

  // Templates

  /** Every character of `t` is an ASCII letter. */
  predicate Letters(t: string)
  {
    forall k :: 0 <= k < |t| ==> IsAsciiLetter(t[k])
  }

  lemma {:induction false} LetterRunOfTag(t: string, rest: string)
    requires Letters(t) && (rest == "" || !IsAsciiLetter(rest[0]))
    ensures LetterRun(t + rest) == |t|
    decreases |t|
  {
    if t == "" {
      assert t + rest == rest;
    } else {
      assert (t + rest)[1..] == t[1..] + rest;
      LetterRunOfTag(t[1..], rest);
    }
  }

  /** The start tag `<t>`. */
  function StartTagText(t: string): string { "<" + t + ">" }

  /** The end tag `</t>`. */
  function EndTagText(t: string): string { "</" + t + ">" }

  /** The interpolation `{{m}}`. */
  function Mustache(m: string): string { "{{" + m + "}}" }

  /** A start tag `<t>` is read as the tag `t`, and parsing resumes after `>`. */
  lemma StartTag(t: string, rest: string)
    requires t != "" && Letters(t)
    ensures var s := StartTagText(t) + rest;
      |s| >= 2 && s[0] == '<' && IsAsciiLetter(s[1]) && TagF(s) == (t, rest)
  {
    var s := StartTagText(t) + rest;
    assert s[1..] == t + (">" + rest);
    LetterRunOfTag(t, ">" + rest);
    assert s[1..1 + |t|] == t;
    assert s[|t| + 2..] == rest;
  }

  /** An end tag `</t>` opens with `t` and is read as the tag `t`. */
  lemma EndTag(t: string, rest: string)
    requires Letters(t)
    ensures StartsWithEndTagOpen(EndTagText(t) + rest, t)
    ensures TagF(EndTagText(t) + rest) == (t, rest)
  {
    var s := EndTagText(t) + rest;
    assert s[2..] == t + (">" + rest);
    LetterRunOfTag(t, ">" + rest);
    assert s[2..2 + |t|] == t;
    assert s[|t| + 3..] == rest;
  }

  /** A source with no "<" and no "{" is one text node, read whole. */
  lemma PlainText(r: string, ancestors: seq<string>)
    requires forall k :: 0 <= k < |r| ==> r[k] != '<' && r[k] != '{'
    ensures ChildrenF(r, ancestors) == (Done(if r == "" then [] else [Text(r)]), "")
  {
    if r != "" {
      TextEndMeaning(r);
      var e := TextEnd(r);
      assert e == |r|;
      assert r[..|r|] == r;
      assert !StartsWith(r, "{{") && !StartsWith(r, "<") by {
        assert r[0] != '{' && r[0] != '<';
      }
      assert NodeF(r, ancestors) == (Done(Text(r)), "");
      assert ChildrenF("", ancestors) == (Done([]), "");
      assert [Text(r)] + [] == [Text(r)];
    }
  }

  /** A template that is one element parses as that element does. */
  lemma WholeElement(s: string)
    requires |s| >= 2 && s[0] == '<' && IsAsciiLetter(s[1])
    requires ElementF(s, []).1 == "" && !ElementF(s, []).0.Diverges?
    ensures BaseParseF(s) == if ElementF(s, []).0.Done? then Done(Root(None)) else Thrown(ElementF(s, []).0.error)
  {
    assert !IsEndF(s, []);
    var e := ElementF(s, []);
    assert NodeF(s, []) == e;
    assert ChildrenF("", []) == (Done([]), "");
    if e.0.Done? {
      assert ChildrenF(s, []).0 == Done([e.0.value] + []);
    } else {
      assert ChildrenF(s, []).0 == Thrown(e.0.error);
    }
  }

  /** `<t></t>` parses under any open elements and consumes exactly itself. */
  lemma EmptyElementParses(t: string, ancestors: seq<string>)
    requires t != "" && Letters(t)
    ensures ElementF(StartTagText(t) + EndTagText(t), ancestors) == (Done(Element(t)), "")
  {
    var close := EndTagText(t);
    StartTag(t, close);
    assert close + "" == close;
    EndTag(t, "");
    assert ChildrenF(close, ancestors + [t]) == (Done([]), close);
  }

  /** The template `<t></t>` parses, and its root has `undefined` children. */
  lemma EmptyElementTemplate(t: string)
    requires t != "" && Letters(t)
    ensures BaseParseF(StartTagText(t) + EndTagText(t)) == Done(Root(None))
  {
    EmptyElementParses(t, []);
    StartTag(t, EndTagText(t));
    WholeElement(StartTagText(t) + EndTagText(t));
  }

  /** `<t>` without an end tag throws under any open elements. */
  lemma UnclosedElementThrows(t: string, ancestors: seq<string>)
    requires t != "" && Letters(t)
    ensures ElementF(StartTagText(t), ancestors) == (Thrown(Error(MissingEndTag + t)), "")
  {
    StartTag(t, "");
    assert StartTagText(t) + "" == StartTagText(t);
    assert ChildrenF("", ancestors + [t]) == (Done([]), "");
  }

  /** The template `<t>` throws. */
  lemma UnclosedElementTemplate(t: string)
    requires t != "" && Letters(t)
    ensures BaseParseF(StartTagText(t)) == Thrown(Error(MissingEndTag + t))
  {
    UnclosedElementThrows(t, []);
    StartTag(t, "");
    assert StartTagText(t) + "" == StartTagText(t);
    WholeElement(StartTagText(t));
  }

  /** With `m` free of "}", the interpolation `{{m}}` followed by the end
      tag `</t>` reads `m`, and then skips `|m|` more characters after
      "}}": what is left of the end tag has no "<" and no "{". */
  lemma InterpolationOverreads(t: string, m: string)
    requires Letters(t)
    requires m != "" && forall k :: 0 <= k < |m| ==> m[k] != '}'
    ensures var inner := Mustache(m) + EndTagText(t);
      var r := InterpolationF(inner).1;
      && InterpolationF(inner).0 == Interpolation(Trim(m))
      && r == Drop("}}" + EndTagText(t), |m| + 2)
      && forall k :: 0 <= k < |r| ==> r[k] != '<' && r[k] != '{'
  {
    var inner := Mustache(m) + EndTagText(t);
    // the first "}}" is the one after m
    var c := IndexOf(inner, "}}", 2);
    assert OccursAt(inner, "}}", 2 + |m|);
    forall j | 2 <= j < 2 + |m|
      ensures !OccursAt(inner, "}}", j)
    {
      assert inner[j] == m[j - 2];
      assert j + 2 <= |inner| ==> inner[j..j + 2][0] == inner[j];
    }
    assert c == 2 + |m|;
    var s1 := Drop(inner, 2);
    assert s1 == inner[2..];
    var s2 := "}}" + EndTagText(t);
    assert s1[..|m|] == m;
    assert s1[|m|..] == s2;
    EndTagTail(t, |m| + 2);
  }

  /** Dropping three or more characters of "}}</t>" leaves no "<" and no "{". */
  lemma EndTagTail(t: string, n: int)
    requires Letters(t) && n >= 3
    ensures var r := Drop("}}" + EndTagText(t), n);
      forall k :: 0 <= k < |r| ==> r[k] != '<' && r[k] != '{'
  {
    var s2 := "}}" + EndTagText(t);
    var r := Drop(s2, n);
    if n <= |s2| {
      assert r == s2[n..];
      forall k | 0 <= k < |r|
        ensures r[k] != '<' && r[k] != '{'
      {
        assert r[k] == s2[n + k];
      }
    } else {
      assert r == "";
    }
  }

  /** Under any open elements, `{{m}}</t>` is read as the interpolation
      and the text left over from the end tag, and nothing is left. */
  lemma InterpolationChildren(t: string, m: string, ancestors: seq<string>)
    requires Letters(t)
    requires m != "" && forall k :: 0 <= k < |m| ==> m[k] != '}'
    ensures var c := ChildrenF(Mustache(m) + EndTagText(t), ancestors);
      c.0.Done? && c.1 == ""
  {
    var inner := Mustache(m) + EndTagText(t);
    InterpolationOverreads(t, m);
    var r := InterpolationF(inner).1;
    PlainText(r, ancestors);
    assert !IsEndF(inner, ancestors) by {
      assert inner[0] == '{';
    }
    assert NodeF(inner, ancestors) == (Done(Interpolation(Trim(m))), r);
  }

  /** An element whose only child is a non-empty interpolation never
      parses, under any open elements: the interpolation consumes its own
      length again past "}}", which swallows "</" and more of the end tag,
      the rest is read as text, and the element finds no end tag. The
      template `<div>{{ msg }}</div>` is one of these. */
  lemma InterpolationChildThrows(t: string, m: string, ancestors: seq<string>)
    requires t != "" && Letters(t)
    requires m != "" && forall k :: 0 <= k < |m| ==> m[k] != '}'
    ensures ElementF(StartTagText(t) + (Mustache(m) + EndTagText(t)), ancestors)
      == (Thrown(Error(MissingEndTag + t)), "")
  {
    StartTag(t, Mustache(m) + EndTagText(t));
    InterpolationChildren(t, m, ancestors + [t]);
  }

  /** The template `<t>{{m}}</t>` throws. */
  lemma InterpolationChildTemplate(t: string, m: string)
    requires t != "" && Letters(t)
    requires m != "" && forall k :: 0 <= k < |m| ==> m[k] != '}'
    ensures BaseParseF(StartTagText(t) + (Mustache(m) + EndTagText(t))) == Thrown(Error(MissingEndTag + t))
  {
    InterpolationChildThrows(t, m, []);
    StartTag(t, Mustache(m) + EndTagText(t));
    WholeElement(StartTagText(t) + (Mustache(m) + EndTagText(t)));
  }
  /** A template that starts with "<" and a character that is not an
      ASCII letter, such as a stray end tag "</t>", never finishes parsing. */
  lemma NonLetterAfterOpenDiverges(s: string)
    requires |s| >= 2 && s[0] == '<' && !IsAsciiLetter(s[1])
    ensures BaseParseF(s) == Diverges
  {
    assert !IsEndF(s, []);
    NoProgressIffStuck(s, []);
    assert ChildrenF(s, []).0 == Diverges;
  }
}
