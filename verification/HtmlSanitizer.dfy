/**
 * The notification HTML sanitizer: what it means on trees as values, and what the result is like.
 *
 * HtmlTree proves that the rewriting of a mutable tree in place has exactly this meaning.
 */
module HtmlSanitizer {

  datatype NodeType = ErrorNode | TextNode | DocumentNode | ElementNode | CommentNode | DoctypeNode | RawNode

  datatype Attribute = Attribute(namespace: string, key: string, val: string)

  datatype Node = Node(kind: NodeType, data: string, attr: seq<Attribute>, children: seq<Node>)

  const ALLOWED_TAGS: set<string> := {
    "a", "b", "blockquote", "br", "code", "del",
    "em", "h1", "h2", "h3", "h4", "h5", "h6",
    "hr", "li", "ol", "p", "pre", "strong", "ul"
  }

  const BLOCKED_TAGS: set<string> := {
    "button", "embed", "form", "iframe", "input", "math",
    "object", "script", "style", "svg"
  }

  // ----- Attributes -----

  /** Lower case as far as it reaches ASCII.  Besides the capital letters, only the dotted I and
      the Kelvin sign do; every other character that has a lower case keeps out of ASCII, so
      mapping it or not decides no test for a prefix of ASCII characters. */
  function LowerChar(c: char): char {
    if 'A' <= c <= 'Z' then (c as int - 'A' as int + 'a' as int) as char
    else if c == '\U{130}' then 'i'
    else if c == '\U{212A}' then 'k'
    else c
  }

  function ToLower(s: string): string {
    seq(|s|, i requires 0 <= i < |s| => LowerChar(s[i]))
  }

  /** Unicode's white space. */
  predicate IsSpace(c: char) {
    || c == ' ' || '\t' <= c <= '\r' || c == '\U{85}' || c == '\U{A0}' || c == '\U{1680}'
    || '\U{2000}' <= c <= '\U{200A}' || c == '\U{2028}' || c == '\U{2029}' || c == '\U{202F}'
    || c == '\U{205F}' || c == '\U{3000}'
  }

  function TrimLeft(s: string): string {
    if s != [] && IsSpace(s[0]) then TrimLeft(s[1..]) else s
  }

  /** Only the left end matters to a prefix test, but the code trims both. */
  function TrimRight(s: string): string {
    if s != [] && IsSpace(s[|s| - 1]) then TrimRight(s[..|s| - 1]) else s
  }

  predicate IsSafeURL(value: string) {
    var url := TrimRight(TrimLeft(ToLower(value)));
    "https://" <= url || "http://" <= url || "mailto:" <= url
  }

  // ----- Which addresses are safe -----

  /** A character and a small letter or punctuation mark that are the same but for letter case.
      Two letters have a second capital form. */
  predicate SameButForCase(c: char, p: char) {
    || c == p || ('a' <= p <= 'z' && c as int + 32 == p as int)
    || (p == 'i' && c == '\U{130}') || (p == 'k' && c == '\U{212A}')
  }

  predicate StartsWith(s: string, scheme: string) {
    |scheme| <= |s| && forall j :: 0 <= j < |scheme| ==> SameButForCase(s[j], scheme[j])
  }

  /** The address starts with one of the three schemes, after white space if any. */
  ghost predicate SafeAddress(value: string) {
    exists i: nat :: AfterSpaces(value, i) &&
      (StartsWith(value[i..], "https://") || StartsWith(value[i..], "http://") || StartsWith(value[i..], "mailto:"))
  }

  predicate AfterSpaces(value: string, i: nat) {
    i <= |value| && forall j :: 0 <= j < i ==> IsSpace(value[j])
  }

  /** White space, character by character. */
  lemma SpacesAre(c: char)
    ensures IsSpace(c) <==> c in {
      '\U{9}', '\U{A}', '\U{B}', '\U{C}', '\U{D}', '\U{20}', '\U{85}', '\U{A0}', '\U{1680}',
      '\U{2000}', '\U{2001}', '\U{2002}', '\U{2003}', '\U{2004}', '\U{2005}', '\U{2006}', '\U{2007}',
      '\U{2008}', '\U{2009}', '\U{200A}', '\U{2028}', '\U{2029}', '\U{202F}', '\U{205F}', '\U{3000}'}
  {
  }

  predicate Small(p: char) {
    'a' <= p <= 'z' || p == ':' || p == '/'
  }

  lemma LowerIff(c: char, p: char)
    requires Small(p)
    ensures LowerChar(c) == p <==> SameButForCase(c, p)
  {
  }

  lemma LowerStartsIff(s: string, scheme: string)
    requires forall j :: 0 <= j < |scheme| ==> Small(scheme[j])
    ensures scheme <= ToLower(s) <==> StartsWith(s, scheme)
  {
    forall j | 0 <= j < |scheme| && j < |s| ensures ToLower(s)[j] == scheme[j] <==> SameButForCase(s[j], scheme[j]) {
      LowerIff(s[j], scheme[j]);
    }
  }

  /** Trimming on the left stops at the first character that is no white space. */
  lemma {:induction false} TrimLeftStops(s: string) returns (i: nat)
    ensures i <= |s| && TrimLeft(s) == s[i..] && (forall j :: 0 <= j < i ==> IsSpace(s[j]))
    ensures i < |s| ==> !IsSpace(s[i])
  {
    if s != [] && IsSpace(s[0]) {
      var k := TrimLeftStops(s[1..]);
      i := k + 1;
      assert s[1..][k..] == s[i..];
      assert forall j :: 0 < j < i ==> s[j] == s[1..][j - 1];
    } else {
      i := 0;
    }
  }

  /** Trimming on the right does not reach a start without white space. */
  lemma {:induction false} TrimRightKeeps(s: string, scheme: string)
    requires forall j :: 0 <= j < |scheme| ==> Small(scheme[j])
    ensures scheme <= TrimRight(s) <==> scheme <= s
  {
    if s != [] && IsSpace(s[|s| - 1]) {
      TrimRightKeeps(s[..|s| - 1], scheme);
      assert |scheme| == |s| ==> scheme[|s| - 1] != s[|s| - 1];
    }
  }

  lemma LowerSpaces(c: char)
    ensures IsSpace(LowerChar(c)) <==> IsSpace(c)
  {
  }

  lemma {:induction false} SchemeAfterSpaces(value: string, scheme: string, i: nat, k: nat)
    requires AfterSpaces(value, i) && (i < |value| ==> !IsSpace(value[i]))
    requires AfterSpaces(value, k) && StartsWith(value[k..], scheme) && scheme != "" && Small(scheme[0])
    ensures i == k
  {
    assert SameButForCase(value[k..][0], scheme[0]) && !IsSpace(value[k]);
  }

  /** What trimming and folding do to one scheme. */
  lemma SchemeIff(value: string, scheme: string)
    requires scheme != "" && forall j :: 0 <= j < |scheme| ==> Small(scheme[j])
    ensures scheme <= TrimRight(TrimLeft(ToLower(value))) <==>
              exists k: nat :: AfterSpaces(value, k) && StartsWith(value[k..], scheme)
  {
    var lower := ToLower(value);
    var i := TrimLeftStops(lower);
    forall j | 0 <= j < |value| ensures IsSpace(lower[j]) <==> IsSpace(value[j]) {
      LowerSpaces(value[j]);
    }
    assert AfterSpaces(value, i) && lower[i..] == ToLower(value[i..]);
    TrimRightKeeps(TrimLeft(lower), scheme);
    LowerStartsIff(value[i..], scheme);
    forall k: nat | AfterSpaces(value, k) && StartsWith(value[k..], scheme) ensures k == i {
      SchemeAfterSpaces(value, scheme, i, k);
    }
  }

  /** The test lets exactly the safe addresses through. */
  lemma IsSafeIffSafeAddress(value: string)
    ensures IsSafeURL(value) <==> SafeAddress(value)
  {
    SchemeIff(value, "https://");
    SchemeIff(value, "http://");
    SchemeIff(value, "mailto:");
  }

  predicate SafeLink(a: Attribute) {
    a.key == "href" && IsSafeURL(a.val)
  }

  /** Safe link targets stay, without a name space. */
  function KeptLinks(attr: seq<Attribute>): seq<Attribute> {
    if attr == [] then []
    else
      var n := |attr| - 1;
      KeptLinks(attr[..n]) + if SafeLink(attr[n]) then [Attribute("", "href", attr[n].val)] else []
  }

  /** Only links keep attributes, and of those only safe targets. */
  function SanitizedAttr(tag: string, attr: seq<Attribute>): seq<Attribute> {
    if tag != "a" then [] else KeptLinks(attr)
  }

  // ----- What sanitizing means -----

  /** What becomes of one child: nothing, its sanitized children, or itself sanitized. */
  function SanitizeOne(node: Node): seq<Node>
    decreases node, 1
  {
    if node.kind != ElementNode then [node.(children := Sanitize(node.children))]
    else if node.data in BLOCKED_TAGS then []
    else if node.data !in ALLOWED_TAGS then Sanitize(node.children)
    else [node.(attr := SanitizedAttr(node.data, node.attr), children := Sanitize(node.children))]
  }

  function Sanitize(nodes: seq<Node>): seq<Node>
    decreases nodes, 0
  {
    if nodes == [] then []
    else
      var n := |nodes| - 1;
      Sanitize(nodes[..n]) + SanitizeOne(nodes[n])
  }

  lemma {:induction false} SanitizeConcat(left: seq<Node>, right: seq<Node>)
    ensures Sanitize(left + right) == Sanitize(left) + Sanitize(right)
    decreases right
  {
    if right == [] {
      assert left + right == left;
    } else {
      var n := |right| - 1;
      var init, last := right[..n], right[n];
      calc {
        Sanitize(left + right);
        { assert left + right == (left + init) + [last]; }
        Sanitize((left + init) + [last]);
        { SanitizeSnoc(left + init, last); }
        Sanitize(left + init) + SanitizeOne(last);
        { SanitizeConcat(left, init); }
        (Sanitize(left) + Sanitize(init)) + SanitizeOne(last);
        Sanitize(left) + (Sanitize(init) + SanitizeOne(last));
      }
    }
  }

  lemma SanitizeSnoc(nodes: seq<Node>, last: Node)
    ensures Sanitize(nodes + [last]) == Sanitize(nodes) + SanitizeOne(last)
  {
    assert (nodes + [last])[..|nodes|] == nodes;
  }

  // ----- What the result is like -----

  /** The attributes that an element with this tag may carry. */
  predicate Permitted(tag: string, attr: seq<Attribute>) {
    if tag != "a" then attr == [] else forall a :: a in attr ==> SafeLink(a) && a.namespace == ""
  }

  /** Every element is an allowed tag with permitted attributes. */
  predicate Clean(nodes: seq<Node>)
    decreases nodes, 0
  {
    forall node :: node in nodes ==> CleanOne(node)
  }

  predicate CleanOne(node: Node)
    decreases node, 1
  {
    && (node.kind == ElementNode ==> node.data in ALLOWED_TAGS && Permitted(node.data, node.attr))
    && Clean(node.children)
  }

  lemma {:induction false} KeptLinksAreSafe(attr: seq<Attribute>)
    ensures forall kept :: kept in KeptLinks(attr) <==>
              exists a :: a in attr && SafeLink(a) && kept == Attribute("", "href", a.val)
    ensures (forall a :: a in attr ==> SafeLink(a) && a.namespace == "") ==> KeptLinks(attr) == attr
  {
    if attr != [] {
      var n := |attr| - 1;
      KeptLinksAreSafe(attr[..n]);
      assert attr == attr[..n] + [attr[n]];
    }
  }

  lemma SanitizedAttrPermitted(tag: string, attr: seq<Attribute>)
    ensures Permitted(tag, SanitizedAttr(tag, attr))
    ensures Permitted(tag, attr) ==> SanitizedAttr(tag, attr) == attr
    ensures tag == "a" ==>
              forall kept :: kept in SanitizedAttr(tag, attr) <==>
                exists a :: a in attr && SafeLink(a) && kept == Attribute("", "href", a.val)
  {
    KeptLinksAreSafe(attr);
  }

  /** Nothing that is blocked, unknown or decorated survives. */
  lemma {:induction false} SanitizedIsClean(nodes: seq<Node>)
    ensures Clean(Sanitize(nodes))
    decreases nodes, 0
  {
    if nodes != [] {
      var n := |nodes| - 1;
      SanitizedIsClean(nodes[..n]);
      SanitizedOneIsClean(nodes[n]);
    }
  }

  lemma {:induction false} SanitizedOneIsClean(node: Node)
    ensures Clean(SanitizeOne(node))
    decreases node, 1
  {
    SanitizedIsClean(node.children);
    SanitizedAttrPermitted(node.data, node.attr);
  }

  /** What a reader of the result can rely on: only these elements, no attributes but the targets of
      links, and only safe addresses among those. */
  ghost predicate Decent(nodes: seq<Node>)
    decreases nodes, 0
  {
    forall node :: node in nodes ==> DecentOne(node)
  }

  ghost predicate DecentOne(node: Node)
    decreases node, 1
  {
    && (node.kind == ElementNode ==>
          && node.data in {"a", "b", "blockquote", "br", "code", "del", "em", "h1", "h2", "h3", "h4", "h5", "h6",
                           "hr", "li", "ol", "p", "pre", "strong", "ul"}
          && (node.data != "a" ==> node.attr == [])
          && forall a :: a in node.attr ==> a.namespace == "" && a.key == "href" && SafeAddress(a.val))
    && Decent(node.children)
  }

  lemma {:induction false} CleanIsDecent(nodes: seq<Node>)
    requires Clean(nodes)
    ensures Decent(nodes)
    decreases nodes, 0
  {
    forall node | node in nodes ensures DecentOne(node) {
      CleanOneIsDecent(node);
    }
  }

  lemma {:induction false} CleanOneIsDecent(node: Node)
    requires CleanOne(node)
    ensures DecentOne(node)
    decreases node, 1
  {
    CleanIsDecent(node.children);
    if node.kind == ElementNode {
      forall a | a in node.attr ensures a.namespace == "" && a.key == "href" && SafeAddress(a.val) {
        IsSafeIffSafeAddress(a.val);
      }
    }
  }

  /** Whatever the input was. */
  lemma SanitizedIsDecent(nodes: seq<Node>)
    ensures Decent(Sanitize(nodes))
  {
    SanitizedIsClean(nodes);
    CleanIsDecent(Sanitize(nodes));
  }

  /** Of a link's attributes exactly the safe addresses survive, in order. */
  lemma {:induction false} LinksKeepSafeAddresses(attr: seq<Attribute>, value: string)
    ensures Attribute("", "href", value) in SanitizedAttr("a", attr) <==>
              SafeAddress(value) && exists a :: a in attr && a.key == "href" && a.val == value
  {
    KeptLinksAreSafe(attr);
    IsSafeIffSafeAddress(value);
    if SafeAddress(value) && exists a :: a in attr && a.key == "href" && a.val == value {
      var a :| a in attr && a.key == "href" && a.val == value;
      assert SafeLink(a);
    }
  }

  /** A clean tree is left alone. */
  lemma {:induction false} CleanIsKept(nodes: seq<Node>)
    requires Clean(nodes)
    ensures Sanitize(nodes) == nodes
    decreases nodes, 0
  {
    if nodes != [] {
      var n := |nodes| - 1;
      assert nodes[n] in nodes;
      CleanOneIsKept(nodes[n]);
      CleanIsKept(nodes[..n]);
      assert nodes == nodes[..n] + [nodes[n]];
    }
  }

  lemma {:induction false} CleanOneIsKept(node: Node)
    requires CleanOne(node)
    ensures SanitizeOne(node) == [node]
    decreases node, 1
  {
    CleanIsKept(node.children);
    SanitizedAttrPermitted(node.data, node.attr);
  }

  /** The sanitizer leaves exactly the clean trees alone. */
  lemma FixpointIffClean(nodes: seq<Node>)
    ensures Sanitize(nodes) == nodes <==> Clean(nodes)
  {
    SanitizedIsClean(nodes);
    if Clean(nodes) {
      CleanIsKept(nodes);
    }
  }

  /** Sanitizing twice is sanitizing once. */
  lemma SanitizeIdempotent(nodes: seq<Node>)
    ensures Sanitize(Sanitize(nodes)) == Sanitize(nodes)
  {
    SanitizedIsClean(nodes);
    CleanIsKept(Sanitize(nodes));
  }

  // ----- An independent definition, on the token stream -----

  /** A tree written out as a stream of tokens, as a serializer meets it. */
  datatype Token =
    | Open(kind: NodeType, data: string, attr: seq<Attribute>)
    | Close(kind: NodeType, data: string)

  function TokensOne(node: Node): seq<Token>
    decreases node, 1
  {
    [Open(node.kind, node.data, node.attr)] + Tokens(node.children) + [Close(node.kind, node.data)]
  }

  function Tokens(nodes: seq<Node>): seq<Token>
    decreases nodes, 0
  {
    if nodes == [] then []
    else
      var n := |nodes| - 1;
      Tokens(nodes[..n]) + TokensOne(nodes[n])
  }

  /** A one-pass filter that knows nothing of trees.  It counts how deep it is inside a blocked
      element and drops everything there; elsewhere it drops the tags that are not allowed and
      cleans the attributes of those that are. */
  function FilterTokens(tokens: seq<Token>, depth: nat): seq<Token> {
    if tokens == [] then []
    else
      var t, rest := tokens[0], tokens[1..];
      if depth > 0 then
        FilterTokens(rest, if t.Open? then depth + 1 else depth - 1)
      else if t.kind != ElementNode then
        [t] + FilterTokens(rest, 0)
      else if t.data in BLOCKED_TAGS then
        FilterTokens(rest, if t.Open? then 1 else 0)
      else if t.data !in ALLOWED_TAGS then
        FilterTokens(rest, 0)
      else
        [if t.Open? then t.(attr := SanitizedAttr(t.data, t.attr)) else t] + FilterTokens(rest, 0)
  }

  /** Inside a blocked element a whole subtree is passed over. */
  lemma {:induction false} FilterSkips(nodes: seq<Node>, rest: seq<Token>, depth: nat)
    requires depth > 0
    ensures FilterTokens(Tokens(nodes) + rest, depth) == FilterTokens(rest, depth)
  {
    if nodes == [] {
      assert Tokens(nodes) + rest == rest;
    } else {
      var n := |nodes| - 1;
      var node := nodes[n];
      var open, close := Open(node.kind, node.data, node.attr), Close(node.kind, node.data);
      var tail := [close] + rest;
      var inner := Tokens(node.children) + tail;
      Regroup([open], Tokens(node.children), [close], rest);
      assert Tokens(nodes) + rest == Tokens(nodes[..n]) + (TokensOne(node) + rest);
      FilterSkips(nodes[..n], [open] + inner, depth);
      assert ([open] + inner)[1..] == inner && tail[1..] == rest;
      FilterSkips(node.children, tail, depth + 1);
    }
  }

  /** The sanitized tree, written out, is the filtered stream of the original tree: the text
      outside blocked elements, the allowed tags and their safe links all survive, in order and
      properly nested, and nothing else does. */
  lemma {:induction false} SanitizeFiltersTokens(nodes: seq<Node>, rest: seq<Token>)
    ensures FilterTokens(Tokens(nodes) + rest, 0) == Tokens(Sanitize(nodes)) + FilterTokens(rest, 0)
    decreases nodes, 0
  {
    if nodes == [] {
      assert Tokens(nodes) + rest == rest;
    } else {
      var n := |nodes| - 1;
      var init, node := nodes[..n], nodes[n];
      calc {
        FilterTokens(Tokens(nodes) + rest, 0);
        { assert Tokens(nodes) + rest == Tokens(init) + (TokensOne(node) + rest); }
        FilterTokens(Tokens(init) + (TokensOne(node) + rest), 0);
        { SanitizeFiltersTokens(init, TokensOne(node) + rest); }
        Tokens(Sanitize(init)) + FilterTokens(TokensOne(node) + rest, 0);
        { FilterOne(node, rest); }
        Tokens(Sanitize(init)) + (Tokens(SanitizeOne(node)) + FilterTokens(rest, 0));
        (Tokens(Sanitize(init)) + Tokens(SanitizeOne(node))) + FilterTokens(rest, 0);
        { TokensConcat(Sanitize(init), SanitizeOne(node)); }
        Tokens(Sanitize(nodes)) + FilterTokens(rest, 0);
      }
    }
  }

  lemma {:induction false} FilterOne(node: Node, rest: seq<Token>)
    ensures FilterTokens(TokensOne(node) + rest, 0) == Tokens(SanitizeOne(node)) + FilterTokens(rest, 0)
    decreases node, 1
  {
    var open, close := Open(node.kind, node.data, node.attr), Close(node.kind, node.data);
    var tail := [close] + rest;
    var inner := Tokens(node.children) + tail;
    assert TokensOne(node) + rest == [open] + inner;
    assert ([open] + inner)[1..] == inner && tail[1..] == rest;
    if node.kind == ElementNode && node.data in BLOCKED_TAGS {
      FilterSkips(node.children, tail, 1);
    } else {
      SanitizeFiltersTokens(node.children, tail);
      if node.kind != ElementNode || node.data in ALLOWED_TAGS {
        KeptTokens(node, FilterTokens(rest, 0));
      }
    }
  }

  /** An element or text that is kept, written out in front of more tokens. */
  lemma KeptTokens(node: Node, more: seq<Token>)
    requires node.kind != ElementNode || (node.data in ALLOWED_TAGS && node.data !in BLOCKED_TAGS)
    ensures
      var attr := if node.kind == ElementNode then SanitizedAttr(node.data, node.attr) else node.attr;
      Tokens(SanitizeOne(node)) + more ==
        [Open(node.kind, node.data, attr)] + (Tokens(Sanitize(node.children)) + ([Close(node.kind, node.data)] + more))
  {
    var kept := SanitizeOne(node)[0];
    TokensSingle(kept);
    Regroup([Open(kept.kind, kept.data, kept.attr)], Tokens(kept.children), [Close(kept.kind, kept.data)], more);
  }

  lemma TokensSingle(node: Node)
    ensures Tokens([node]) == TokensOne(node)
  {
    assert [node][..0] == [];
    assert Tokens([node]) == Tokens([]) + TokensOne(node) == TokensOne(node);
  }

  lemma Regroup<T>(a: seq<T>, b: seq<T>, c: seq<T>, d: seq<T>)
    ensures a + b + c + d == a + (b + (c + d))
  {
  }

  lemma {:induction false} TokensConcat(left: seq<Node>, right: seq<Node>)
    ensures Tokens(left + right) == Tokens(left) + Tokens(right)
  {
    if right == [] {
      assert left + right == left;
    } else {
      var n := |right| - 1;
      var init, last := right[..n], right[n];
      calc {
        Tokens(left + right);
        { assert left + right == (left + init) + [last]; }
        Tokens((left + init) + [last]);
        { TokensSnoc(left + init, last); }
        Tokens(left + init) + TokensOne(last);
        { TokensConcat(left, init); }
        (Tokens(left) + Tokens(init)) + TokensOne(last);
        Tokens(left) + (Tokens(init) + TokensOne(last));
      }
    }
  }

  lemma TokensSnoc(nodes: seq<Node>, last: Node)
    ensures Tokens(nodes + [last]) == Tokens(nodes) + TokensOne(last)
  {
    assert (nodes + [last])[..|nodes|] == nodes;
  }

  lemma SanitizeIsTokenFilter(nodes: seq<Node>)
    ensures Tokens(Sanitize(nodes)) == FilterTokens(Tokens(nodes), 0)
  {
    SanitizeFiltersTokens(nodes, []);
    assert Tokens(nodes) + [] == Tokens(nodes);
    assert Tokens(Sanitize(nodes)) + [] == Tokens(Sanitize(nodes));
  }

  /** The text nodes in document order, leaving out what lies inside elements with `skipped` tags. */
  function Text(nodes: seq<Node>, skipped: set<string>): seq<string>
    decreases nodes, 0
  {
    if nodes == [] then []
    else
      var n := |nodes| - 1;
      Text(nodes[..n], skipped) + TextOf(nodes[n], skipped)
  }

  function TextOf(node: Node, skipped: set<string>): seq<string>
    decreases node, 1
  {
    if node.kind == ElementNode && node.data in skipped then []
    else (if node.kind == TextNode then [node.data] else []) + Text(node.children, skipped)
  }

  lemma {:induction false} TextConcat(left: seq<Node>, right: seq<Node>, skipped: set<string>)
    ensures Text(left + right, skipped) == Text(left, skipped) + Text(right, skipped)
  {
    if right == [] {
      assert left + right == left;
    } else {
      var n := |right| - 1;
      var init, last := right[..n], right[n];
      calc {
        Text(left + right, skipped);
        { assert left + right == (left + init) + [last]; }
        Text((left + init) + [last], skipped);
        { TextSnoc(left + init, last, skipped); }
        Text(left + init, skipped) + TextOf(last, skipped);
        { TextConcat(left, init, skipped); }
        (Text(left, skipped) + Text(init, skipped)) + TextOf(last, skipped);
        Text(left, skipped) + (Text(init, skipped) + TextOf(last, skipped));
      }
    }
  }

  lemma TextSnoc(nodes: seq<Node>, last: Node, skipped: set<string>)
    ensures Text(nodes + [last], skipped) == Text(nodes, skipped) + TextOf(last, skipped)
  {
    assert (nodes + [last])[..|nodes|] == nodes;
  }

  lemma SanitizedText(node: Node)
    requires Text(Sanitize(node.children), {}) == Text(node.children, BLOCKED_TAGS)
    ensures Text(SanitizeOne(node), {}) == TextOf(node, BLOCKED_TAGS)
  {
    var result := SanitizeOne(node);
    if |result| == 1 {
      assert result[..0] == [];
      assert Text(result, {}) == TextOf(result[0], {});
    }
  }

  /** The whole text of the result is, in order, the text of the input outside blocked elements. */
  lemma SanitizeKeepsText(nodes: seq<Node>)
    ensures Text(Sanitize(nodes), {}) ==
              Text(nodes, {"button", "embed", "form", "iframe", "input", "math", "object", "script", "style", "svg"})
  {
    SanitizedTexts(nodes);
  }

  lemma {:induction false} SanitizedTexts(nodes: seq<Node>)
    ensures Text(Sanitize(nodes), {}) == Text(nodes, BLOCKED_TAGS)
  {
    if nodes != [] {
      var n := |nodes| - 1;
      var node := nodes[n];
      SanitizedTexts(nodes[..n]);
      SanitizedTexts(node.children);
      TextConcat(Sanitize(nodes[..n]), SanitizeOne(node), {});
      SanitizedText(node);
    }
  }
}
