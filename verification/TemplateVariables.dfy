/**
 * Template variables in notifications: how ${category:name} is written, found in a template and
 * replaced, one variable after another.  TemplateOrder says when their order matters.
 */
module TemplateVariables {
  import opened Prelude

  datatype Variable = Variable(category: string, name: string)

  /** The value of a variable, or None where the code leaves the text as it is. */
  type Values = Variable -> Option<string>

  predicate WordChar(c: char) {
    '0' <= c <= '9' || 'A' <= c <= 'Z' || 'a' <= c <= 'z' || c == '_'
  }

  predicate Word(s: string) {
    s != "" && forall i :: 0 <= i < |s| ==> WordChar(s[i])
  }

  /** How a variable is written in a template. */
  function Key(v: Variable): string {
    "${" + v.category + ":" + v.name + "}"
  }

  predicate WellNamed(v: Variable) {
    Word(v.category) && Word(v.name)
  }

  /** The length of the longest run of word characters at the start. */
  function WordLength(s: string): (n: nat)
    ensures n <= |s| && (forall i :: 0 <= i < n ==> WordChar(s[i]))
    ensures n < |s| ==> !WordChar(s[n])
  {
    if s != "" && WordChar(s[0]) then 1 + WordLength(s[1..]) else 0
  }

  /** A word at the start that is closed by the given character, and what follows. */
  function WordThen(s: string, close: char): (r: Option<(string, string)>)
    ensures r.Some? ==> Word(r.value.0) && s == r.value.0 + ([close] + r.value.1)
  {
    var n := WordLength(s);
    if n == 0 || n == |s| || s[n] != close then None else Some((s[..n], s[n + 1..]))
  }

  /** The variable written at the very start of a text, if there is one. */
  function MatchAt(s: string): (r: Option<Variable>)
    ensures r.Some? ==> WellNamed(r.value) && Key(r.value) <= s
  {
    if !("${" <= s) then None
    else
      var first := WordThen(s[2..], ':');
      if first.None? then None
      else
        var second := WordThen(first.value.1, '}');
        if second.None? then None
        else
          var v := Variable(first.value.0, second.value.0);
          KeyAssoc(v, second.value.1);
          assert s == "${" + s[2..];
          Some(v)
  }

  lemma KeyAssoc(v: Variable, rest: string)
    ensures Key(v) + rest == "${" + (v.category + ([':'] + (v.name + (['}'] + rest))))
  {
  }

  /** The text after the variable written at the start. */
  function After(s: string): (rest: string)
    requires MatchAt(s).Some?
    ensures |rest| < |s| && s == Key(MatchAt(s).value) + rest
  {
    var key := Key(MatchAt(s).value);
    assert key <= s && key[0] == '$';
    s[|key|..]
  }

  /** All variables of a template, leftmost first and not overlapping. */
  function FindAll(template: string): seq<Variable>
    decreases |template|
  {
    if template == "" then []
    else if MatchAt(template).Some? then [MatchAt(template).value] + FindAll(After(template))
    else FindAll(template[1..])
  }

  /** Go's strings.ReplaceAll for a non-empty old text: leftmost, not overlapping, one pass. */
  function ReplaceAll(s: string, key: string, value: string): string
    requires key != ""
    decreases |s|
  {
    if s == "" then ""
    else if key <= s then value + ReplaceAll(s[|key|..], key, value)
    else [s[0]] + ReplaceAll(s[1..], key, value)
  }

  /** One iteration of the replacement loop. */
  function ReplaceOne(content: string, v: Variable, values: Values): string {
    match values(v)
    case Some(value) => ReplaceAll(content, Key(v), value)
    case None => content
  }

  /** The replacement loop over a list of variables. */
  function ReplaceInTurn(content: string, vars: seq<Variable>, values: Values): string {
    if vars == [] then content
    else
      var n := |vars| - 1;
      ReplaceOne(ReplaceInTurn(content, vars[..n], values), vars[n], values)
  }

  /** What the loop is for: every variable of the template replaced at the same time. */
  function Substitute(template: string, values: Values): string
    decreases |template|
  {
    if template == "" then ""
    else if MatchAt(template).Some? then
      var v := MatchAt(template).value;
      (if values(v).Some? then values(v).value else Key(v)) + Substitute(After(template), values)
    else [template[0]] + Substitute(template[1..], values)
  }

  // ----- Reading back what is written -----

  /** No two different variables are written alike, whatever follows them. */
  lemma KeysDiffer(v: Variable, w: Variable, rest: string)
    requires WellNamed(v) && WellNamed(w) && Key(v) <= Key(w) + rest
    ensures v == w
  {
    var s := Key(w) + rest;
    WordEnds(s[2..], v.category, w.category, ':');
    assert s[2..] == w.category + [':'] + s[3 + |w.category|..];
    var t := s[3 + |w.category|..];
    assert t == w.name + "}" + rest;
    assert v.name + "}" <= t by {
      assert t[..|v.name| + 1] == Key(v)[3 + |v.category|..];
    }
    WordEnds(t, v.name, w.name, '}');
  }

  /** A word closed by a character outside words is determined by the text it starts. */
  lemma WordEnds(s: string, left: string, right: string, close: char)
    requires Word(left) && Word(right) && !WordChar(close)
    requires left + [close] <= s && right + [close] <= s
    ensures left == right
  {
    assert s[|left|] == (left + [close])[|left|] && s[|right|] == (right + [close])[|right|];
    assert forall i :: 0 <= i < |left| ==> s[i] == (left + [close])[i] == left[i];
    assert forall i :: 0 <= i < |right| ==> s[i] == (right + [close])[i] == right[i];
    assert left == s[..|left|] && right == s[..|right|];
  }

  /** A word closed by another character has its own length. */
  lemma {:induction false} WordLengthExact(word: string, rest: string)
    requires forall i :: 0 <= i < |word| ==> WordChar(word[i])
    requires rest != "" && !WordChar(rest[0])
    ensures WordLength(word + rest) == |word|
  {
    if word == "" {
      assert word + rest == rest;
    } else {
      assert (word + rest)[1..] == word[1..] + rest;
      WordLengthExact(word[1..], rest);
    }
  }

  lemma WordThenExact(word: string, close: char, rest: string)
    requires Word(word) && !WordChar(close)
    ensures WordThen(word + ([close] + rest), close) == Some((word, rest))
  {
    WordLengthExact(word, [close] + rest);
    var s := word + ([close] + rest);
    assert s[..|word|] == word && s[|word| + 1..] == rest;
  }

  lemma WrittenMatches(v: Variable, rest: string)
    requires WellNamed(v)
    ensures MatchAt(Key(v) + rest) == Some(v)
  {
    var last := v.name + (['}'] + rest);
    KeyAssoc(v, rest);
    assert (Key(v) + rest)[2..] == v.category + ([':'] + last);
    WordThenExact(v.category, ':', last);
    WordThenExact(v.name, '}', rest);
  }

  /** The characters of a word, one by one. */
  lemma WordCharsAre(c: char)
    ensures WordChar(c) <==> c in {
      '0', '1', '2', '3', '4', '5', '6', '7', '8', '9', 'A', 'B', 'C', 'D', 'E', 'F', 'G', 'H', 'I', 'J',
      'K', 'L', 'M', 'N', 'O', 'P', 'Q', 'R', 'S', 'T', 'U', 'V', 'W', 'X', 'Y', 'Z', 'a', 'b', 'c', 'd',
      'e', 'f', 'g', 'h', 'i', 'j', 'k', 'l', 'm', 'n', 'o', 'p', 'q', 'r', 's', 't', 'u', 'v', 'w', 'x',
      'y', 'z', '_'}
  {
  }

  /** Exactly the texts that start with a dollar sign, braces, and two words with a colon between
      them start with a variable. */
  lemma MatchesIff(s: string, category: string, name: string)
    ensures MatchAt(s) == Some(Variable(category, name)) <==>
      && category != "" && name != "" && "${" + category + ":" + name + "}" <= s
      && forall c :: c in category || c in name ==> WordChar(c)
  {
    var v := Variable(category, name);
    if Word(category) && Word(name) && Key(v) <= s {
      var rest := s[|Key(v)|..];
      assert s == Key(v) + rest;
      WrittenMatches(v, rest);
    }
  }

  /** A written variable is read back, whatever follows it. */
  lemma WrittenIsFound(v: Variable, rest: string)
    requires WellNamed(v)
    ensures FindAll(Key(v) + rest) == [v] + FindAll(rest)
    ensures MatchAt(Key(v) + rest) == Some(v)
  {
    var s := Key(v) + rest;
    WrittenMatches(v, rest);
    assert s[|Key(v)|..] == rest;
    assert After(s) == rest;
  }

  /** What substituting means: a variable gives its value, or stays if it has none, */
  lemma SubstituteWritten(v: Variable, rest: string, values: Values)
    requires WellNamed(v)
    ensures Substitute("${" + v.category + ":" + v.name + "}" + rest, values) ==
      (if values(v).Some? then values(v).value else "${" + v.category + ":" + v.name + "}") + Substitute(rest, values)
  {
    WrittenIsFound(v, rest);
    assert After(Key(v) + rest) == rest;
  }

  lemma SubstituteChar(c: char, rest: string, values: Values)
    requires c != '$'
    ensures Substitute([c] + rest, values) == [c] + Substitute(rest, values)
  {
    assert "${"[0] == '$' && ([c] + rest)[1..] == rest;
    assert MatchAt([c] + rest).None?;
  }

  lemma FirstApart(text: string, rest: string)
    requires text != ""
    ensures [text[0]] + (text[1..] + rest) == text + rest
  {
  }

  /** and all other text stays. */
  lemma {:induction false} SubstituteText(text: string, rest: string, values: Values)
    requires '$' !in text
    ensures Substitute(text + rest, values) == text + Substitute(rest, values)
  {
    if text == "" {
      assert text + rest == rest;
    } else {
      FirstApart(text, rest);
      FirstApart(text, Substitute(rest, values));
      SubstituteChar(text[0], text[1..] + rest, values);
      SubstituteText(text[1..], rest, values);
    }
  }

  lemma {:induction false} FoundAreWellNamed(template: string)
    ensures forall v :: v in FindAll(template) ==> WellNamed(v)
    decreases |template|
  {
    if template != "" {
      FoundAreWellNamed(if MatchAt(template).Some? then After(template) else template[1..]);
    }
  }

  /** A list of exactly the variables of a template, each once, in any order. */
  ghost predicate Lists(vars: seq<Variable>, template: string) {
    && (forall v :: v in vars <==> v in FindAll(template))
    && (forall i, j :: 0 <= i < j < |vars| ==> vars[i] != vars[j])
  }

  // ----- The parsing loops -----

  /** Collects the variables of a template through a map, so in no particular order. */
  method ParseTemplateVariables(template: string) returns (variables: seq<Variable>)
    ensures Lists(variables, template)
  {
    FoundAreWellNamed(template);
    var matches := FindAll(template);
    var byKey: map<string, Variable> := map[];
    for i := 0 to |matches|
      invariant forall k :: k in byKey ==> k == MapKey(byKey[k]) && byKey[k] in matches
      invariant forall j :: 0 <= j < i ==> MapKey(matches[j]) in byKey && byKey[MapKey(matches[j])] == matches[j]
    {
      var key := MapKey(matches[i]);
      if key !in byKey {
        byKey := byKey[key := matches[i]];
      } else {
        MapKeysDiffer(matches[i], byKey[key]);
      }
    }
    variables := [];
    var pending := byKey.Keys;
    while pending != {}
      invariant pending <= byKey.Keys
      invariant forall v :: v in variables <==> MapKey(v) in byKey && MapKey(v) !in pending && byKey[MapKey(v)] == v
      invariant forall i, j :: 0 <= i < j < |variables| ==> variables[i] != variables[j]
    {
      var key := Pick(pending);
      pending := pending - {key};
      variables := variables + [byKey[key]];
    }
  }

  function MapKey(v: Variable): string {
    v.category + ":" + v.name
  }

  lemma MapKeysDiffer(v: Variable, w: Variable)
    requires WellNamed(v) && WellNamed(w) && MapKey(v) == MapKey(w)
    ensures v == w
  {
    WordEnds(MapKey(v), v.category, w.category, ':');
    assert v.name == MapKey(v)[|v.category| + 1..] == w.name;
  }
}
