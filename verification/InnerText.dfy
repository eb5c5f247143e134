/**
  `inner_text`: the text of an HTML element, given the markup after its opening tag. The reference is a
  tree: what the scanner returns for a rendered tree is that tree's text.
 */
module InnerText {
  import opened Prelude
  import opened Text

  /** The position of the first occurrence of `pattern`, or None. */
  function Find(s: string, pattern: string): Option<nat> {
    if pattern <= s then Some(0)
    else if s == "" then None
    else
      match Find(s[1..], pattern)
      case Some(i) => Some(i + 1)
      case None => None
  }

  predicate OccursAt(s: string, i: nat, pattern: string) {
    i <= |s| && pattern <= s[i..]
  }

  predicate EndsWith(s: string, suffix: string) {
    |suffix| <= |s| && s[|s| - |suffix|..] == suffix
  }

  function TrimStart(s: string, c: char): string {
    if s != "" && s[0] == c then TrimStart(s[1..], c) else s
  }

  predicate EndsName(c: char) {
    IsWhitespace(c) || c == '>' || c == '/'
  }

  /** The part of `s` before its first whitespace, `>` or `/`. */
  function NameOf(s: string): string {
    if s == "" || EndsName(s[0]) then "" else [s[0]] + NameOf(s[1..])
  }

  const VOID_NAMES: set<string> :=
    {"area", "base", "br", "col", "embed", "hr", "img", "input", "link", "meta", "param", "source", "track", "wbr"}

  predicate IsVoidName(name: string) {
    ToLower(name) in VOID_NAMES
  }

  predicate IsVoidTag(tag: string) {
    IsVoidName(NameOf(TrimStart(tag, '<')))
  }

  /** A tag that opens a nested level. */
  predicate Opens(tag: string) {
    !EndsWith(tag, "/>") && !IsVoidTag(tag)
  }

  /** The text still to be collected from `rest`, `depth` levels below the element. */
  function TextFrom(rest: string, depth: nat): string
    decreases |rest|, 1
  {
    var lt := IndexOf(rest, '<');
    if lt == |rest| then "" else rest[..lt] + MarkupText(rest[lt..], depth)
  }

  /** The same for a rest that starts with `<`: skip the comment or the tag, and stop at the element's own end. */
  function MarkupText(tail: string, depth: nat): string
    requires tail != ""
    decreases |tail|, 0
  {
    if "<!--" <= tail then
      match Find(tail[4..], "-->")
      case None => " "
      case Some(end) => FindInside(tail[4..], "-->"); " " + TextFrom(tail[4 + end + 3..], depth)
    else
      var gt := IndexOf(tail, '>');
      if gt == |tail| then ""
      else " " + AfterTag(tail[..gt + 1], tail[gt + 1..], depth)
  }

  function AfterTag(tag: string, after: string, depth: nat): string
    decreases |after|, 2
  {
    if "</" <= tag then (if depth == 0 then "" else TextFrom(after, depth - 1))
    else TextFrom(after, if Opens(tag) then depth + 1 else depth)
  }

  lemma {:induction false} FindInside(s: string, pattern: string)
    ensures Find(s, pattern).Some? ==> Find(s, pattern).value + |pattern| <= |s|
  {
    if pattern <= s || s == "" {
    } else {
      FindInside(s[1..], pattern);
    }
  }

  /** The scanner as it is written: one pass that appends to `out` and shortens `rest`. */
  method CollectInnerText(html: string) returns (out: string)
    ensures out == TextFrom(html, 0)
  {
    out := "";
    var rest, depth := html, 0;
    while true
      invariant depth >= 0
      invariant out + TextFrom(rest, depth) == TextFrom(html, 0)
      decreases |rest|
    {
      var lt := IndexOf(rest, '<');
      if lt == |rest| {
        break;
      }
      var tail := rest[lt..];
      Regroup(out, rest[..lt], MarkupText(tail, depth));
      out := out + rest[..lt];
      var skipped, stop := SkipMarkup(tail, depth);
      Regroup(out, skipped.0, TextFrom(skipped.1, skipped.2));
      out := out + skipped.0;
      if stop {
        return;
      }
      rest, depth := skipped.1, skipped.2;
    }
  }

  /** The rest of one turn of the loop: the space to push, what remains, the new depth, and whether to stop. */
  method SkipMarkup(tail: string, depth: nat) returns (next: (string, string, nat), stop: bool)
    requires tail != ""
    ensures MarkupText(tail, depth) == next.0 + if stop then "" else TextFrom(next.1, next.2)
    ensures |next.1| < |tail|
  {
    hide TextFrom, IsVoidTag, EndsWith;
    if "<!--" <= tail {
      var end := Find(tail[4..], "-->");
      if end.None? {
        return (" ", "", 0), true;
      }
      FindInside(tail[4..], "-->");
      return (" ", tail[4 + end.value + 3..], depth), false;
    }
    var gt := IndexOf(tail, '>');
    if gt == |tail| {
      return ("", "", 0), true;
    }
    var tag, after := tail[..gt + 1], tail[gt + 1..];
    if "</" <= tag {
      if depth == 0 {
        return (" ", after, 0), true;
      }
      return (" ", after, depth - 1), false;
    }
    if !EndsWith(tag, "/>") && !IsVoidTag(tag) {
      return (" ", after, depth + 1), false;
    }
    return (" ", after, depth), false;
  }

  /* ---- the reference: a tree of nodes ---- */

  datatype Node =
    | Plain(text: string)
    | Comment(body: string)
    | Leaf(tag: string)
    | Element(open: string, children: Forest, close: string)
  datatype Forest = Bare | Grow(first: Node, others: Forest)

  /** `<…>` with no `>` before its end. */
  predicate IsTag(t: string) {
    |t| >= 2 && t[0] == '<' && t[|t| - 1] == '>' && '>' !in t[..|t| - 1]
  }

  predicate IsOpening(t: string) {
    IsTag(t) && !("</" <= t) && !("<!--" <= t)
  }

  predicate IsClosing(t: string) {
    IsTag(t) && "</" <= t
  }

  /** The fourteen HTML elements that have no content. */
  predicate HasNoContent(name: string) {
    || name == "area" || name == "base" || name == "br" || name == "col" || name == "embed" || name == "hr"
    || name == "img" || name == "input" || name == "link" || name == "meta" || name == "param"
    || name == "source" || name == "track" || name == "wbr"
  }

  /** Cutting `tag` here gives its name: after every leading `<`, up to white space, `/` or `>`. */
  predicate NameIsAt(tag: string, from: nat, to: nat) {
    && from <= to <= |tag|
    && (forall i :: 0 <= i < from ==> tag[i] == '<') && (from < |tag| ==> tag[from] != '<')
    && (forall i :: from <= i < to ==> !IsWhitespace(tag[i]) && tag[i] != '/' && tag[i] != '>')
    && (to < |tag| ==> IsWhitespace(tag[to]) || tag[to] == '/' || tag[to] == '>')
  }

  /** A tag that stands alone: it closes itself, or its name in any letter case is one of the fourteen. */
  predicate StandsAlone(tag: string) {
    (|tag| >= 2 && tag[|tag| - 2] == '/' && tag[|tag| - 1] == '>')
    || exists from: nat, to: nat ::
         from <= |tag| && to <= |tag| && NameIsAt(tag, from, to) && HasNoContent(ToLower(tag[from..to]))
  }

  /** Text has no `<`; a comment ends at its first `-->`; a leaf is a void or self-closing tag. */
  predicate NodeOk(n: Node) {
    match n
    case Plain(text) => '<' !in text
    case Comment(body) => forall i :: 0 <= i < |body| ==> !OccursAt(body + "-->", i, "-->")
    case Leaf(tag) => IsOpening(tag) && StandsAlone(tag)
    case Element(open, children, close) =>
      IsOpening(open) && !StandsAlone(open) && ForestOk(children) && IsClosing(close)
  }

  lemma {:induction false} TrimAndName(tag: string) returns (from: nat, to: nat)
    ensures NameIsAt(tag, from, to) && tag[from..to] == NameOf(TrimStart(tag, '<'))
  {
    if tag != "" && tag[0] == '<' {
      from, to := TrimAndName(tag[1..]);
      from, to := from + 1, to + 1;
      assert forall i :: 1 <= i < |tag| ==> tag[i] == tag[1..][i - 1];
      assert tag[from..to] == tag[1..][from - 1..to - 1];
    } else {
      from := 0;
      to := NameLength(tag);
    }
  }

  lemma {:induction false} NameLength(s: string) returns (n: nat)
    ensures n <= |s| && s[..n] == NameOf(s)
    ensures forall i :: 0 <= i < n ==> !EndsName(s[i])
    ensures n < |s| ==> EndsName(s[n])
  {
    hide EndsName;
    if s == "" || EndsName(s[0]) {
      n := 0;
    } else {
      n := NameLength(s[1..]);
      n := n + 1;
      assert forall i :: 1 <= i < |s| ==> s[i] == s[1..][i - 1];
      assert s[..n] == [s[0]] + s[1..][..n - 1];
    }
  }

  lemma NameIsUnique(tag: string, from: nat, to: nat, from': nat, to': nat)
    requires NameIsAt(tag, from, to) && NameIsAt(tag, from', to')
    ensures from == from' && to == to'
  {
  }

  /** The scanner's test is the one written out. */
  lemma OpensIff(tag: string)
    ensures Opens(tag) <==> !StandsAlone(tag)
  {
    hide NameIsAt, TrimStart, NameOf;
    var from, to := TrimAndName(tag);
    SuffixIs(tag);
    hide EndsWith;
    NamesAre(ToLower(tag[from..to]));
    assert from <= to <= |tag| by {
      NameInside(tag, from, to);
    }
    forall f: nat, t: nat | f <= |tag| && t <= |tag| && NameIsAt(tag, f, t)
      ensures f == from && t == to
    {
      NameIsUnique(tag, from, to, f, t);
    }
  }

  lemma NameInside(tag: string, from: nat, to: nat)
    requires NameIsAt(tag, from, to)
    ensures from <= to <= |tag|
  {
  }

  lemma NamesAre(name: string)
    ensures name in VOID_NAMES <==> HasNoContent(name)
  {
  }

  lemma SuffixIs(tag: string)
    ensures EndsWith(tag, "/>") <==> |tag| >= 2 && tag[|tag| - 2] == '/' && tag[|tag| - 1] == '>'
  {
    if |tag| >= 2 {
      assert tag[|tag| - 2..] == [tag[|tag| - 2], tag[|tag| - 1]];
    }
  }

  lemma {:induction false} CommentEnds(body: string, i: nat)
    requires i <= |body| && forall j :: i <= j < |body| ==> !OccursAt(body + "-->", j, "-->")
    ensures Find((body + "-->")[i..], "-->") == Some(|body| - i)
    decreases |body| - i
  {
    var s := body + "-->";
    if i == |body| {
      assert s[i..] == "-->";
    } else {
      CommentEnds(body, i + 1);
      assert s[i..][1..] == s[i + 1..] && !OccursAt(s, i, "-->");
    }
  }

  predicate ForestOk(f: Forest) {
    f.Grow? ==> NodeOk(f.first) && ForestOk(f.others)
  }

  function Render(n: Node): string {
    match n
    case Plain(text) => text
    case Comment(body) => "<!--" + body + "-->"
    case Leaf(tag) => tag
    case Element(open, children, close) => open + RenderAll(children) + close
  }

  function RenderAll(f: Forest): string {
    match f
    case Bare => ""
    case Grow(first, others) => Render(first) + RenderAll(others)
  }

  /** The text of a node: a space stands for every tag and every comment. */
  function TextOf(n: Node): string {
    match n
    case Plain(text) => text
    case Comment(_) => " "
    case Leaf(_) => " "
    case Element(_, children, _) => " " + TextOfAll(children) + " "
  }

  function TextOfAll(f: Forest): string {
    match f
    case Bare => ""
    case Grow(first, others) => TextOf(first) + TextOfAll(others)
  }

  /** A tag is void by its name alone: attributes, a trailing slash and letter case make no difference. */
  lemma VoidByName(name: string, attributes: string)
    requires name != "" && name[0] != '<' && (forall i :: 0 <= i < |name| ==> !EndsName(name[i]))
    requires attributes != "" && EndsName(attributes[0])
    ensures IsVoidTag("<" + name + attributes) <==> IsVoidName(name)
  {
    hide IsVoidName, EndsName;
    var s := name + attributes;
    assert ("<" + name + attributes)[1..] == s;
    assert TrimStart(s, '<') == s;
    NameEnds(name, attributes);
  }

  lemma {:induction false} NameEnds(name: string, attributes: string)
    requires forall i :: 0 <= i < |name| ==> !EndsName(name[i])
    requires attributes != "" && EndsName(attributes[0])
    ensures NameOf(name + attributes) == name
  {
    hide EndsName;
    if name == "" {
      assert name + attributes == attributes;
    } else {
      NameEnds(name[1..], attributes);
      assert (name + attributes)[1..] == name[1..] + attributes;
      assert name == [name[0]] + name[1..];
    }
  }

  /* ---- the scanner reads trees ---- */

  lemma {:induction false} IndexOfIn(a: string, c: char, b: string)
    requires c !in a && b != "" && b[0] == c
    ensures IndexOf(a + b, c) == |a|
  {
    assert (a + b)[|a|] == c;
    assert forall k :: 0 <= k < |a| ==> (a + b)[k] == a[k];
  }

  lemma {:induction false} SkipText(text: string, rest: string, depth: nat)
    requires '<' !in text && '<' in rest
    ensures TextFrom(text + rest, depth) == text + TextFrom(rest, depth)
  {
    hide MarkupText;
    var i := IndexOf(rest, '<');
    var head, tail := rest[..i], rest[i..];
    Regroup(text, head, tail);
    assert rest == head + tail;
    IndexOfIn(text + head, '<', tail);
    assert (text + head + tail)[..|text + head|] == text + head && (text + head + tail)[|text + head|..] == tail;
    Regroup(text, head, MarkupText(tail, depth));
  }

  /** A rendered string that starts with `<` is scanned as markup straight away. */
  lemma {:induction false} StartsWithMarkup(s: string, depth: nat)
    requires s != "" && s[0] == '<'
    ensures TextFrom(s, depth) == MarkupText(s, depth)
  {
    hide MarkupText;
    assert s[0..] == s && s[..0] + MarkupText(s, depth) == MarkupText(s, depth);
  }

  lemma {:induction false} SkipTag(tag: string, rest: string, depth: nat)
    requires IsTag(tag) && !("<!--" <= tag)
    ensures TextFrom(tag + rest, depth) == " " + AfterTag(tag, rest, depth)
  {
    hide AfterTag, TextFrom;
    var s, n := tag + rest, |tag| - 1;
    StartsWithMarkup(s, depth);
    assert s == tag[..n] + ([tag[n]] + rest);
    IndexOfIn(tag[..n], '>', [tag[n]] + rest);
    assert s[n] == '>' && s[..n + 1] == tag && s[n + 1..] == rest;
    NotAComment(s, n, tag);
  }

  lemma NotAComment(s: string, n: nat, tag: string)
    requires tag <= s && |tag| == n + 1 && !("<!--" <= tag) && s[n] == '>'
    ensures !("<!--" <= s)
  {
    if |tag| >= 4 {
      assert tag[..4] == s[..4];
    }
  }

  lemma {:induction false} FindAppend(s: string, pattern: string, rest: string)
    requires pattern != "" && Find(s, pattern).Some? && Find(s, pattern).value + |pattern| == |s|
    ensures Find(s + rest, pattern) == Find(s, pattern)
  {
    if pattern <= s {
      assert pattern <= s + rest;
    } else {
      assert (s + rest)[1..] == s[1..] + rest;
      FindAppend(s[1..], pattern, rest);
      FindInside(s[1..], pattern);
      assert |s| > |pattern|;
      assert (s + rest)[..|pattern|] == s[..|pattern|];
    }
  }

  lemma {:induction false} SkipComment(body: string, rest: string, depth: nat)
    requires forall i :: 0 <= i < |body| ==> !OccursAt(body + "-->", i, "-->")
    ensures TextFrom("<!--" + body + "-->" + rest, depth) == " " + TextFrom(rest, depth)
  {
    hide TextFrom, Find, OccursAt;
    var s := "<!--" + body + "-->" + rest;
    StartsWithMarkup(s, depth);
    assert s[4..] == body + "-->" + rest;
    CommentEnds(body, 0);
    assert (body + "-->")[0..] == body + "-->";
    FindAppend(body + "-->", "-->", rest);
    assert s[4 + |body| + 3..] == rest;
  }

  lemma {:induction false} ScanNode(n: Node, rest: string, depth: nat)
    requires NodeOk(n) && '<' in rest
    ensures TextFrom(Render(n) + rest, depth) == TextOf(n) + TextFrom(rest, depth)
    decreases n
  {
    hide TextFrom, Opens, StandsAlone;
    match n {
      case Plain(text) => SkipText(text, rest, depth);
      case Comment(body) => SkipComment(body, rest, depth);
      case Leaf(tag) =>
        OpensIff(tag);
        SkipTag(tag, rest, depth);
      case Element(open, children, close) => ScanElement(open, children, close, rest, depth);
    }
  }

  lemma {:induction false} ScanElement(open: string, children: Forest, close: string, rest: string, depth: nat)
    requires IsOpening(open) && !StandsAlone(open) && ForestOk(children) && IsClosing(close) && '<' in rest
    ensures TextFrom(open + RenderAll(children) + close + rest, depth)
         == " " + TextOfAll(children) + " " + TextFrom(rest, depth)
    decreases children, 1
  {
    hide TextFrom, Opens, StandsAlone, ForestOk, RenderAll, TextOfAll;
    OpensIff(open);
    var inner := RenderAll(children) + (close + rest);
    assert open + RenderAll(children) + close + rest == open + inner;
    SkipTag(open, inner, depth);
    assert (close + rest)[0] == '<';
    ScanForest(children, close + rest, depth + 1);
    SkipTag(close, rest, depth + 1);
    var t := TextFrom(rest, depth);
    assert " " + (TextOfAll(children) + (" " + t)) == " " + TextOfAll(children) + " " + t;
  }

  lemma {:induction false} ScanForest(f: Forest, rest: string, depth: nat)
    requires ForestOk(f) && '<' in rest
    ensures TextFrom(RenderAll(f) + rest, depth) == TextOfAll(f) + TextFrom(rest, depth)
    decreases f, 0
  {
    hide TextFrom, NodeOk, Render, TextOf;
    match f {
      case Bare => assert "" + rest == rest && "" + TextFrom(rest, depth) == TextFrom(rest, depth);
      case Grow(first, others) =>
        Regroup(Render(first), RenderAll(others), rest);
        ScanNode(first, RenderAll(others) + rest, depth);
        ScanForest(others, rest, depth);
        Regroup(TextOf(first), TextOfAll(others), TextFrom(rest, depth));
    }
  }

  /** Markup that is cut off: a tag that never ends is dropped, a comment that never ends leaves its space. */
  lemma {:induction false} CutOffMarkup(f: Forest, junk: string, depth: nat)
    requires ForestOk(f)
    ensures '>' !in junk && !("!--" <= junk) ==> TextFrom(RenderAll(f) + ("<" + junk), depth) == TextOfAll(f)
    ensures (forall i :: 0 <= i <= |junk| ==> !OccursAt(junk, i, "-->")) ==>
              TextFrom(RenderAll(f) + ("<!--" + junk), depth) == TextOfAll(f) + " "
  {
    hide TextFrom, ForestOk, RenderAll, TextOfAll;
    var tag, comment := "<" + junk, "<!--" + junk;
    assert tag[0] == '<' && comment[0] == '<';
    ScanForest(f, tag, depth);
    ScanForest(f, comment, depth);
    if '>' !in junk && !("!--" <= junk) {
      StartsWithMarkup(tag, depth);
      OpensNoComment(junk);
      assert TextOfAll(f) + "" == TextOfAll(f);
    }
    if forall i :: 0 <= i <= |junk| ==> !OccursAt(junk, i, "-->") {
      StartsWithMarkup(comment, depth);
      assert comment[4..] == junk;
      NeverFound(junk, "-->");
    }
  }

  lemma OpensNoComment(junk: string)
    requires !("!--" <= junk)
    ensures !("<!--" <= "<" + junk)
  {
    if |junk| >= 3 {
      var start := "<" + junk[..3];
      assert ("<" + junk)[..4] == start && start[1..] == junk[..3] && "<!--"[1..] == "!--";
    }
  }

  lemma {:induction false} NeverFound(s: string, pattern: string)
    requires forall i :: 0 <= i <= |s| ==> !OccursAt(s, i, pattern)
    ensures Find(s, pattern) == None
  {
    assert s[0..] == s && !OccursAt(s, 0, pattern);
    if s == "" {
    } else {
      forall i | 0 <= i <= |s[1..]|
        ensures !OccursAt(s[1..], i, pattern)
      {
        assert s[1..][i..] == s[i + 1..] && !OccursAt(s, i + 1, pattern);
      }
      NeverFound(s[1..], pattern);
    }
  }

  /** Text that no markup follows is not returned. */
  lemma {:induction false} TrailingTextIsDropped(text: string, depth: nat)
    requires '<' !in text
    ensures TextFrom(text, depth) == ""
  {
  }

  /** The scanner returns the element's own text and one space for its closing tag, whatever follows it. */
  lemma {:induction false} InnerTextOfTree(f: Forest, close: string, tail: string)
    requires ForestOk(f) && IsClosing(close)
    ensures TextFrom(RenderAll(f) + close + tail, 0) == TextOfAll(f) + " "
  {
    hide TextFrom, ForestOk, RenderAll, TextOfAll;
    Regroup(RenderAll(f), close, tail);
    assert (close + tail)[0] == '<' && close[1] == '/';
    ScanForest(f, close + tail, 0);
    SkipTag(close, tail, 0);
  }
}
