/**
 * Both conditions of TemplateOrder are exact: without them some order of the variables gives
 * another content than replacing all of them at the same time.
 */
module TemplateExactness {
  import opened Prelude
  import opened TemplateVariables
  import opened TemplateOrder

  // ----- Templates -----

  /** How many dollar signs a text has. */
  function Dollars(s: string): nat {
    if s == "" then 0 else (if s[0] == '$' then 1 else 0) + Dollars(s[1..])
  }

  /** How often a key occurs in a text; two occurrences never overlap. */
  function Occurrences(s: string, w: Variable): nat {
    if s == "" then 0 else (if Key(w) <= s then 1 else 0) + Occurrences(s[1..], w)
  }

  /** How often a variable is written in a template. */
  function Written(template: string, w: Variable): nat
    decreases |template|
  {
    if template == "" then 0
    else (if MatchAt(template) == Some(w) then 1 else 0) + Written(Next(template), w)
  }

  lemma {:induction false} DollarsConcat(a: string, b: string)
    ensures Dollars(a + b) == Dollars(a) + Dollars(b)
  {
    if a == "" {
      assert a + b == b;
    } else {
      assert (a + b)[1..] == a[1..] + b;
      DollarsConcat(a[1..], b);
    }
  }

  lemma {:induction false} NoDollars(s: string)
    requires DollarFree(s)
    ensures Dollars(s) == 0
  {
    if s != "" {
      NoDollars(s[1..]);
    }
  }

  lemma OneDollar(w: Variable)
    requires WellNamed(w)
    ensures Dollars(Key(w)) == 1
  {
    OneDollarInKey(w);
    NoDollars(Key(w)[1..]);
  }

  lemma {:induction false} OccurrencesSkip(piece: string, rest: string, w: Variable)
    requires WellNamed(w) && !Meets(piece, Key(w))
    ensures Occurrences(piece + rest, w) == Occurrences(rest, w)
  {
    if piece == "" {
      assert piece + rest == rest;
    } else {
      NotHere(piece, rest, w);
      assert (piece + rest)[1..] == piece[1..] + rest;
      OccurrencesSkip(piece[1..], rest, w);
    }
  }

  lemma OccurrencesHere(rest: string, w: Variable)
    requires WellNamed(w)
    ensures Occurrences(Key(w) + rest, w) == 1 + Occurrences(rest, w)
  {
    OneDollarInKey(w);
    assert (Key(w) + rest)[1..] == Key(w)[1..] + rest;
    OccurrencesSkip(Key(w)[1..], rest, w);
  }

  /** Replacing a key by a text without dollar signs takes one dollar sign per occurrence. */
  lemma {:induction false} ReplacedDollars(s: string, w: Variable, value: string)
    requires WellNamed(w) && DollarFree(value)
    ensures Dollars(ReplaceAll(s, Key(w), value)) + Occurrences(s, w) == Dollars(s)
    decreases |s|
  {
    if s != "" {
      if Key(w) <= s {
        var rest := s[|Key(w)|..];
        assert s == Key(w) + rest;
        ReplacedDollars(rest, w, value);
        OccurrencesHere(rest, w);
        DollarsConcat(Key(w), rest);
        DollarsConcat(value, ReplaceAll(rest, Key(w), value));
        OneDollar(w);
        NoDollars(value);
      } else {
        ReplacedDollars(s[1..], w, value);
        DollarsConcat([s[0]], ReplaceAll(s[1..], Key(w), value));
        assert [s[0]] + s[1..] == s;
        DollarsConcat([s[0]], s[1..]);
      }
    }
  }

  /** Substituting one more variable takes one dollar sign each time it is written. */
  lemma {:induction false} SubstitutedDollars(template: string, w: Variable, values: Values, done: set<Variable>)
    requires WellNamed(w) && w !in done && values(w).Some? && DollarFree(values(w).value)
    ensures Dollars(SubstituteOnly(template, values, done + {w})) + Written(template, w)
         == Dollars(SubstituteOnly(template, values, done))
    decreases |template|
  {
    if template != "" {
      SubstitutedDollars(Next(template), w, values, done);
      var before := SubstituteOnly(Next(template), values, done);
      var after := SubstituteOnly(Next(template), values, done + {w});
      if MatchAt(template).Some? {
        var v := MatchAt(template).value;
        DollarsConcat(Shown(v, values, done), before);
        DollarsConcat(Shown(v, values, done + {w}), after);
        OneDollar(w);
        NoDollars(values(w).value);
      } else {
        DollarsConcat([template[0]], before);
        DollarsConcat([template[0]], after);
      }
    }
  }

  /** A joint somewhere in a template, with exactly these variables and this length. */
  predicate JointAt(template: string, w: Variable, v: Variable, k: nat)
    decreases |template|
  {
    && template != ""
    && ((MatchAt(template).None? && JoinsAs(template, w, v, k)) || JointAt(Next(template), w, v, k))
  }

  lemma {:induction false} FindJoint(template: string, w: Variable, others: set<Variable>) returns (v: Variable, k: nat)
    requires WellNamed(w) && !Jointless(template, w, others)
    ensures JointAt(template, w, v, k) && v in others && v in FindAll(template)
    decreases |template|
  {
    if MatchAt(template).None? && Joins(template, w, others) {
      k :| k <= |template| && MatchAt(template[k..]).Some? && MatchAt(template[k..]).value in others
        && JoinsAs(template, w, MatchAt(template[k..]).value, k);
      v := MatchAt(template[k..]).value;
      JointIsFound(template, w, v, k);
    } else {
      v, k := FindJoint(Next(template), w, others);
    }
  }

  /** The variable behind a joint is one of the template's. */
  lemma {:induction false} JointIsFound(template: string, w: Variable, v: Variable, k: nat)
    requires WellNamed(w) && template != "" && MatchAt(template).None? && JoinsAs(template, w, v, k)
    ensures v in FindAll(template)
  {
    FoundBehind(template, w, k);
    assert FindAll(template[k..])[0] == v;
  }

  lemma {:induction false} FoundBehind(template: string, w: Variable, k: nat)
    requires WellNamed(w) && k <= |template| && k <= |Key(w)| && template[..k] == Key(w)[..k]
    requires MatchAt(template).None?
    ensures FindAll(template) == FindAll(template[k..])
    ensures Written(template, w) == Written(template[k..], w)
  {
    if k == 0 {
      assert template[0..] == template;
    } else {
      assert template[..k - 1] == template[..k][..k - 1] == Key(w)[..k - 1];
      FoundBehind(template, w, k - 1);
      SplitAt(template, k - 1);
      LiteralStep(template, w, k);
    }
  }

  /** Every written occurrence that is left can be found in the content. */
  lemma {:induction false} WrittenOccur(template: string, w: Variable, values: Values, done: set<Variable>)
    requires WellNamed(w) && w !in done
    requires forall v :: v in done ==> DollarFreeValues(values, v)
    ensures Occurrences(SubstituteOnly(template, values, done), w) >= Written(template, w)
    decreases |template|
  {
    if template != "" {
      WrittenOccur(Next(template), w, values, done);
      var tail := SubstituteOnly(Next(template), values, done);
      if MatchAt(template).Some? {
        WrittenOccursOnce(MatchAt(template).value, tail, w, values, done);
      } else {
        assert ([template[0]] + tail)[1..] == tail;
      }
    }
  }

  lemma WrittenOccursOnce(v: Variable, tail: string, w: Variable, values: Values, done: set<Variable>)
    requires WellNamed(v) && WellNamed(w) && w !in done && (v in done ==> DollarFreeValues(values, v))
    ensures Occurrences(Shown(v, values, done) + tail, w) == (if v == w then 1 else 0) + Occurrences(tail, w)
  {
    if v == w {
      OccurrencesHere(tail, w);
    } else {
      KeysDoNotMeet(v, w);
      OccurrencesSkip(Shown(v, values, done), tail, w);
    }
  }

  /** A value that completes a key at a joint makes one more occurrence, */
  lemma JointHereOccurs(template: string, w: Variable, v: Variable, k: nat, values: Values)
    requires WellNamed(w) && v != w && template != "" && MatchAt(template).None? && JoinsAs(template, w, v, k)
    requires values(v) == Some(Key(w)[k..]) && DollarFreeValues(values, v)
    ensures Occurrences(SubstituteOnly(template, values, {v}), w) > Written(template, w)
  {
    var rest := SubstituteOnly(After(template[k..]), values, {v});
    Literal(template, w, k, values, {v});
    Regroup(Key(w)[..k], Key(w)[k..], rest);
    assert Key(w)[..k] + Key(w)[k..] == Key(w);
    OccurrencesHere(rest, w);
    FoundBehind(template, w, k);
    WrittenOccur(After(template[k..]), w, values, {v});
  }

  /** and nothing before it in the template takes one away. */
  lemma {:induction false} JointOccurs(template: string, w: Variable, v: Variable, k: nat, values: Values)
    requires WellNamed(w) && v != w && JointAt(template, w, v, k) && k < |Key(w)|
    requires values(v) == Some(Key(w)[k..]) && DollarFreeValues(values, v)
    ensures Occurrences(SubstituteOnly(template, values, {v}), w) > Written(template, w)
    decreases |template|
  {
    if MatchAt(template).None? && JoinsAs(template, w, v, k) {
      JointHereOccurs(template, w, v, k, values);
    } else {
      JointOccurs(Next(template), w, v, k, values);
      OccursBefore(template, w, v, values);
    }
  }

  lemma OccursBefore(template: string, w: Variable, v: Variable, values: Values)
    requires WellNamed(w) && v != w && template != "" && DollarFreeValues(values, v)
    requires Occurrences(SubstituteOnly(Next(template), values, {v}), w) > Written(Next(template), w)
    ensures Occurrences(SubstituteOnly(template, values, {v}), w) > Written(template, w)
  {
    var tail := SubstituteOnly(Next(template), values, {v});
    if MatchAt(template).Some? {
      WrittenOccursOnce(MatchAt(template).value, tail, w, values, {v});
    } else {
      OccurrencesChar(template[0], tail, w);
    }
  }

  lemma OccurrencesChar(c: char, rest: string, w: Variable)
    ensures Occurrences([c] + rest, w) >= Occurrences(rest, w)
  {
    assert ([c] + rest)[1..] == rest;
  }

  /** Replacing variables without a value changes nothing. */
  lemma {:induction false} OthersChangeNothing(
      content: string, first: seq<Variable>, others: seq<Variable>, values: Values)
    requires forall v :: v in others ==> values(v).None?
    ensures ReplaceInTurn(content, first + others, values) == ReplaceInTurn(content, first, values)
  {
    if others == [] {
      assert first + others == first;
    } else {
      var n := |others| - 1;
      var all := first + others;
      assert all[..|all| - 1] == first + others[..n] && all[|all| - 1] == others[n];
      OthersChangeNothing(content, first, others[..n], values);
    }
  }

  lemma {:induction false} ListOf(s: set<Variable>) returns (list: seq<Variable>)
    ensures forall v :: v in list <==> v in s
    ensures forall i, j :: 0 <= i < j < |list| ==> list[i] != list[j]
  {
    if s == {} {
      list := [];
    } else {
      var v :| v in s;
      var rest := ListOf(s - {v});
      list := [v] + rest;
      assert forall i :: 0 <= i < |rest| ==> rest[i] in s - {v};
      assert forall u :: u in s - {v} <==> u in rest;
    }
  }

  lemma InTurnTwo(content: string, first: Variable, second: Variable, values: Values)
    ensures ReplaceInTurn(content, [first, second], values)
         == ReplaceOne(ReplaceOne(content, first, values), second, values)
  {
    assert [first, second][..1] == [first] && [first][..0] == [];
    assert ReplaceInTurn(content, [first], values) == ReplaceOne(content, first, values);
  }

  lemma {:induction false} JointlessAlone(template: string, w: Variable)
    ensures Jointless(template, w, {})
    decreases |template|
  {
    if template != "" {
      JointlessAlone(Next(template), w);
    }
  }

  /** Only two variables have values, and they come first. */
  ghost predicate TwoLead(v: Variable, w: Variable, vars: seq<Variable>, values: Values) {
    && v != w && [v, w] <= vars && values(v).Some? && values(w) == Some("")
    && (forall i :: 2 <= i < |vars| ==> vars[i] !in {v, w})
    && (forall u :: u != v && u != w ==> values(u).None?)
  }

  lemma TwoLeadResult(template: string, w: Variable, v: Variable, vars: seq<Variable>, values: Values)
    requires WellNamed(v) && TwoLead(v, w, vars, values)
    ensures ReplaceInTurn(template, vars, values) == ReplaceAll(SubstituteOnly(template, values, {v}), Key(w), "")
    ensures Substitute(template, values) == SubstituteOnly(template, values, {v} + {w})
  {
    JointlessAlone(template, v);
    SubstituteNone(template, values);
    ReplaceIsOneMore(template, v, values, {});
    assert {} + {v} == {v};
    assert vars == [v, w] + vars[2..];
    OthersChangeNothing(template, [v, w], vars[2..], values);
    InTurnTwo(template, v, w, values);
    SubstituteAll(template, values, {v} + {w});
  }

  /** The value that completes the key at the joint, put in before that key's turn. */
  lemma JointShowsOrder(template: string, w: Variable, v: Variable, k: nat, vars: seq<Variable>, values: Values)
    requires WellNamed(v) && WellNamed(w) && JointAt(template, w, v, k) && 0 < k < |Key(w)|
    requires TwoLead(v, w, vars, values) && values(v) == Some(Key(w)[k..]) && DollarFreeValues(values, v)
    ensures ReplaceInTurn(template, vars, values) != Substitute(template, values)
  {
    var first := SubstituteOnly(template, values, {v});
    TwoLeadResult(template, w, v, vars, values);
    ReplacedDollars(first, w, "");
    SubstitutedDollars(template, w, values, {v});
    JointOccurs(template, w, v, k, values);
    assert Dollars(ReplaceAll(first, Key(w), "")) < Dollars(SubstituteOnly(template, values, {v} + {w}));
  }

  /** At a joint of two variables of the template, some values without dollar signs show the order. */
  lemma JointBreaksOrder(template: string, w: Variable, v: Variable, k: nat)
    returns (vars: seq<Variable>, values: Values)
    requires w in FindAll(template) && v in FindAll(template) && v != w && JointAt(template, w, v, k)
    ensures Lists(vars, template) && forall u :: DollarFreeValues(values, u)
    ensures ReplaceInTurn(template, vars, values) != Substitute(template, values)
  {
    FoundAreWellNamed(template);
    JointLength(template, w, v, k);
    vars := LeadWith(template, v, w);
    values := Completing(v, w, k);
    CompletingIsDollarFree(v, w, k);
    JointShowsOrder(template, w, v, k, vars, values);
  }

  /** The values that show a joint. */
  function Completing(v: Variable, w: Variable, k: nat): Values
    requires k < |Key(w)|
  {
    (u: Variable) => if u == v then Some(Key(w)[k..]) else if u == w then Some("") else None
  }

  lemma CompletingIsDollarFree(v: Variable, w: Variable, k: nat)
    requires WellNamed(w) && 0 < k < |Key(w)|
    ensures forall u :: DollarFreeValues(Completing(v, w, k), u)
  {
    OneDollarInKey(w);
    var rest := Key(w)[k..];
    assert forall i :: 0 <= i < |rest| ==> rest[i] == Key(w)[k + i];
    assert DollarFree(rest);
  }

  /** The variables of a template with two of them first. */
  lemma LeadWith(template: string, v: Variable, w: Variable) returns (vars: seq<Variable>)
    requires v != w && v in FindAll(template) && w in FindAll(template)
    ensures Lists(vars, template) && [v, w] <= vars && forall i :: 2 <= i < |vars| ==> vars[i] !in {v, w}
  {
    var others := ListOf(Elements(FindAll(template)) - {v, w});
    vars := [v, w] + others;
    LeadOnce(v, w, others);
    forall u ensures u in vars <==> u in FindAll(template) {
      assert u in others <==> u in Elements(FindAll(template)) - {v, w};
    }
  }

  /** Two more in front of a list without repetition. */
  lemma LeadOnce(v: Variable, w: Variable, others: seq<Variable>)
    requires v != w && v !in others && w !in others
    requires forall i, j :: 0 <= i < j < |others| ==> others[i] != others[j]
    ensures
      var vars := [v, w] + others;
      && (forall i :: 2 <= i < |vars| ==> vars[i] !in {v, w})
      && (forall i, j :: 0 <= i < j < |vars| ==> vars[i] != vars[j])
      && (forall u :: u in vars <==> u == v || u == w || u in others)
  {
    var vars := [v, w] + others;
    assert forall i :: 2 <= i < |vars| ==> vars[i] == others[i - 2] && vars[i] in others;
  }

  /** Every order gives the simultaneous substitution, whatever the values, as long as they have
      no dollar signs. */
  ghost predicate OrderFree(template: string) {
    forall vars, values: Values ::
      Lists(vars, template) && (forall v :: DollarFreeValues(values, v)) ==>
        ReplaceInTurn(template, vars, values) == Substitute(template, values)
  }

  lemma DollarFreeIsHarmless(v: Variable, w: Variable, values: Values)
    requires DollarFreeValues(values, v)
    ensures Harmless(v, w, values)
  {
  }

  /** That is so exactly for the templates without joints. */
  lemma OrderFreeIffNoJoints(template: string)
    ensures OrderFree(template) <==> NoJoints(template)
  {
    FoundAreWellNamed(template);
    if NoJoints(template) {
      forall vars, values: Values | Lists(vars, template) && (forall v :: DollarFreeValues(values, v))
        ensures ReplaceInTurn(template, vars, values) == Substitute(template, values)
      {
        forall v, w | v in vars && w in vars && v != w ensures Harmless(v, w, values) {
          DollarFreeIsHarmless(v, w, values);
        }
        OrderDoesNotMatter(template, vars, values);
      }
    } else {
      var w :| w in FindAll(template) && !Jointless(template, w, Elements(FindAll(template)) - {w});
      var v, k := FindJoint(template, w, Elements(FindAll(template)) - {w});
      var vars, values := JointBreaksOrder(template, w, v, k);
    }
  }

  lemma {:induction false} JointLength(template: string, w: Variable, v: Variable, k: nat)
    requires JointAt(template, w, v, k)
    ensures 0 < k < |Key(w)|
    decreases |template|
  {
    if !(MatchAt(template).None? && JoinsAs(template, w, v, k)) {
      JointLength(Next(template), w, v, k);
    }
  }

  // ----- Values -----

  /** Replacing makes a text longer or shorter, as the value is longer or shorter than the key. */
  lemma {:induction false} ReplacedLength(s: string, key: string, value: string)
    requires key != ""
    ensures |value| >= |key| ==> |ReplaceAll(s, key, value)| >= |s|
    ensures |value| <= |key| ==> |ReplaceAll(s, key, value)| <= |s|
    decreases |s|
  {
    if s != "" {
      ReplacedLength(if key <= s then s[|key|..] else s[1..], key, value);
    }
  }

  /** Replacing a key that occurs by another text makes a difference. */
  lemma {:induction false} ReplaceChanges(s: string, key: string, value: string)
    requires key != "" && key != value && Contains(s, key)
    ensures ReplaceAll(s, key, value) != s
    decreases |s|
  {
    if key <= s {
      var rest := s[|key|..];
      ReplacedLength(rest, key, value);
      assert s == key + rest;
      if |key| == |value| {
        DifferentStart(value, ReplaceAll(rest, key, value), key, rest);
      }
    } else {
      var i :| 0 <= i <= |s| && key <= s[i..];
      assert i > 0 && s[1..][i - 1..] == s[i..];
      ReplaceChanges(s[1..], key, value);
      assert ReplaceAll(s, key, value)[1..] == ReplaceAll(s[1..], key, value);
    }
  }

  lemma DifferentStart(a: string, b: string, c: string, d: string)
    requires |a| == |c| && a != c
    ensures a + b != c + d
  {
    assert (a + b)[..|a|] == a && (c + d)[..|c|] == c;
  }

  /** A key at the very end of a text is replaced there, whatever comes before it. */
  lemma {:induction false} ReplaceAtEnd(s: string, w: Variable, value: string)
    requires WellNamed(w)
    ensures ReplaceAll(s + Key(w), Key(w), value) == ReplaceAll(s, Key(w), value) + value
    decreases |s|
  {
    var key := Key(w);
    if s == "" {
      ReplaceHere(w, "", value);
      assert s + key == key + "" && value + "" == "" + value;
    } else if key <= s {
      var rest := s[|key|..];
      assert s == key + rest && s + key == key + (rest + key);
      ReplaceHere(w, rest + key, value);
      ReplaceAtEnd(rest, w, value);
    } else {
      NotAcross(s, w);
      assert (s + key)[1..] == s[1..] + key;
      ReplaceAtEnd(s[1..], w, value);
    }
  }

  /** An occurrence does not reach into a key that follows. */
  lemma NotAcross(s: string, w: Variable)
    requires WellNamed(w) && s != "" && !(Key(w) <= s)
    ensures !(Key(w) <= s + Key(w))
  {
    OneDollarInKey(w);
    if |s| < |Key(w)| {
      NextCharDiffers(Key(w), s, Key(w));
    } else {
      assert (s + Key(w))[..|Key(w)|] == s[..|Key(w)|];
    }
  }

  /** A template of keys and pieces without dollar signs has no joints. */
  lemma {:induction false} PieceJointless(piece: string, rest: string, w: Variable, others: set<Variable>)
    requires DollarFree(piece) && WellNamed(w) && Jointless(rest, w, others)
    ensures Jointless(piece + rest, w, others) && FindAll(piece + rest) == FindAll(rest)
  {
    if piece == "" {
      assert piece + rest == rest;
    } else {
      var s := piece + rest;
      assert s[0] == piece[0] && s[1..] == piece[1..] + rest;
      PieceJointless(piece[1..], rest, w, others);
      NoJoinHere(s, w, others);
    }
  }

  lemma NoJoinHere(s: string, w: Variable, others: set<Variable>)
    requires WellNamed(w) && s != "" && s[0] != '$'
    ensures MatchAt(s).None? && !Joins(s, w, others)
  {
    forall k: nat | 0 < k <= |s| && k < |Key(w)| ensures s[..k] != Key(w)[..k] {
      assert s[..k][0] == s[0] && Key(w)[..k][0] == '$';
    }
  }

  /** The template that shows an interfering value: the variable, a piece, and the other one. */
  function Showing(v: Variable, piece: string, w: Variable): string {
    Key(v) + (piece + Key(w))
  }

  lemma ShowingJointless(v: Variable, piece: string, w: Variable, u: Variable, others: set<Variable>)
    requires WellNamed(v) && WellNamed(w) && WellNamed(u) && DollarFree(piece)
    ensures Jointless(Showing(v, piece, w), u, others) && FindAll(Showing(v, piece, w)) == [v, w]
  {
    WrittenIsFound(w, "");
    assert Key(w) + "" == Key(w) && After(Key(w)) == "";
    PieceJointless(piece, Key(w), u, others);
    WrittenIsFound(v, piece + Key(w));
    assert After(Showing(v, piece, w)) == piece + Key(w);
  }

  lemma ShowingHasNoJoints(v: Variable, piece: string, w: Variable)
    requires WellNamed(v) && WellNamed(w) && DollarFree(piece)
    ensures FindAll(Showing(v, piece, w)) == [v, w] && NoJoints(Showing(v, piece, w))
  {
    var all := Elements(FindAll(Showing(v, piece, w)));
    ShowingJointless(v, piece, w, v, all - {v});
    ShowingJointless(v, piece, w, w, all - {w});
  }

  /** Replaced first, the value of v turns the piece behind it into an occurrence of w's key. */
  lemma InterferenceShowsOrder(v: Variable, w: Variable, values: Values, piece: string, before: string)
    requires WellNamed(v) && WellNamed(w) && v != w && DollarFree(piece)
    requires values(v).Some? && Live(w, values) && values(v).value + piece == before && Contains(before, Key(w))
    ensures ReplaceInTurn(Showing(v, piece, w), [v, w], values)
         == ReplaceAll(before, Key(w), values(w).value) + values(w).value
    ensures Substitute(Showing(v, piece, w), values) == before + values(w).value
    ensures ReplaceInTurn(Showing(v, piece, w), [v, w], values) != Substitute(Showing(v, piece, w), values)
  {
    var value, x := values(v).value, values(w).value;
    ShowingInTurn(v, w, values, piece);
    Regroup(value, piece, Key(w));
    ReplaceAtEnd(before, w, x);
    ShowingSubstituted(v, w, values, piece);
    Regroup(value, piece, x);
    ReplaceChanges(before, Key(w), x);
    DifferentUpToEnd(ReplaceAll(before, Key(w), x), before, x);
  }

  lemma DifferentUpToEnd(a: string, b: string, x: string)
    requires a != b
    ensures a + x != b + x
  {
    if |a| == |b| {
      DifferentStart(a, x, b, x);
    }
  }

  lemma ShowingInTurn(v: Variable, w: Variable, values: Values, piece: string)
    requires WellNamed(v) && WellNamed(w) && v != w && DollarFree(piece) && values(v).Some? && values(w).Some?
    ensures ReplaceInTurn(Showing(v, piece, w), [v, w], values)
         == ReplaceAll(values(v).value + (piece + Key(w)), Key(w), values(w).value)
  {
    var value := values(v).value;
    InTurnTwo(Showing(v, piece, w), v, w, values);
    ReplaceHere(v, piece + Key(w), value);
    ReplaceSkips(piece, Key(w), v, value);
    KeysDoNotMeet(w, v);
    ReplaceSkips(Key(w), "", v, value);
    assert Key(w) + "" == Key(w);
  }

  lemma ShowingSubstituted(v: Variable, w: Variable, values: Values, piece: string)
    requires WellNamed(v) && WellNamed(w) && DollarFree(piece) && values(v).Some? && values(w).Some?
    ensures Substitute(Showing(v, piece, w), values) == values(v).value + (piece + values(w).value)
  {
    WrittenIsFound(v, piece + Key(w));
    assert After(Showing(v, piece, w)) == piece + Key(w);
    PieceSubstituted(piece, Key(w), values);
    WrittenIsFound(w, "");
    assert Key(w) + "" == Key(w) && After(Key(w)) == "" && values(w).value + "" == values(w).value;
  }

  lemma {:induction false} PieceSubstituted(piece: string, rest: string, values: Values)
    requires DollarFree(piece)
    ensures Substitute(piece + rest, values) == piece + Substitute(rest, values)
  {
    if piece == "" {
      assert piece + rest == rest;
    } else {
      var s := piece + rest;
      assert s[0] == piece[0] && s[1..] == piece[1..] + rest;
      PieceSubstituted(piece[1..], rest, values);
      assert MatchAt(s).None?;
      Regroup([piece[0]], piece[1..], Substitute(rest, values));
      assert [piece[0]] + piece[1..] == piece;
    }
  }

  /** So with a value that writes another variable, */
  lemma ValueWithVariableShowsOrder(v: Variable, w: Variable, x: string)
    requires WellNamed(v) && WellNamed(w) && v != w && x != Key(w)
    ensures var template, values := Key(v) + Key(w), u => if u == v then Some(Key(w)) else Some(x);
      ReplaceInTurn(template, [v, w], values) == x + x && Substitute(template, values) == Key(w) + x
  {
    var values := u => if u == v then Some(Key(w)) else Some(x);
    assert Key(w) + "" == Key(w) && "" + Key(w) == Key(w) && x + "" == x && Key(w)[0..] == Key(w);
    InterferenceShowsOrder(v, w, values, "", Key(w));
    ReplaceHere(w, "", x);
  }

  /** and with a value that is a single dollar sign. */
  lemma DollarValueShowsOrder(v: Variable, w: Variable, x: string)
    requires WellNamed(v) && WellNamed(w) && v != w && x != Key(w)
    ensures
      var template, values := Key(v) + (Key(w)[1..] + Key(w)), u => if u == v then Some("$") else Some(x);
      ReplaceInTurn(template, [v, w], values) == x + x && Substitute(template, values) == Key(w) + x
  {
    var values := u => if u == v then Some("$") else Some(x);
    OneDollarInKey(w);
    assert "$" + Key(w)[1..] == Key(w) && Key(w) + "" == Key(w) && x + "" == x && Key(w)[0..] == Key(w);
    InterferenceShowsOrder(v, w, values, Key(w)[1..], Key(w));
    ReplaceHere(w, "", x);
  }

  lemma StrayDollarFound(v: Variable, w: Variable)
    requires WellNamed(v) && WellNamed(w)
    ensures var template := "$" + (Key(v) + Key(w));
      MatchAt(template).None? && MatchAt(template[1..]) == Some(v) && v in FindAll(template) && w in FindAll(template)
  {
    var body := Key(v) + Key(w);
    var template := "$" + body;
    OneDollarInKey(v);
    WrittenIsFound(v, Key(w));
    WrittenIsFound(w, "");
    assert Key(w) + "" == Key(w) && template[1..] == body && template[1] == Key(v)[0];
    assert FindAll(body) == [v] + FindAll(Key(w)) && FindAll(Key(w))[0] == w;
  }

  /** A dollar sign in front of a variable is a joint with every other one. */
  lemma StrayDollarIsJoint(v: Variable, w: Variable)
    requires WellNamed(v) && WellNamed(w) && v != w
    ensures !NoJoints("$" + (Key(v) + Key(w)))
  {
    var template := "$" + (Key(v) + Key(w));
    var others := Elements(FindAll(template)) - {w};
    StrayDollarFound(v, w);
    OneDollarInKey(w);
    assert template[..1] == [template[0]] == Key(w)[..1];
    assert JoinsAs(template, w, MatchAt(template[1..]).value, 1);
    assert !Jointless(template, w, others);
  }

  /** Every template without joints gives the simultaneous substitution in every order. */
  ghost predicate SafeValues(values: Values) {
    forall template, vars :: NoJoints(template) && Lists(vars, template) ==>
      ReplaceInTurn(template, vars, values) == Substitute(template, values)
  }

  /** A value that meets another variable's key contains it, or is completed to it by a piece. */
  lemma MeetingPiece(value: string, w: Variable) returns (piece: string)
    requires WellNamed(w) && Meets(value, Key(w))
    ensures DollarFree(piece) && Contains(value + piece, Key(w))
  {
    var i :| 0 <= i < |value| && value[i] == '$' && (Key(w) <= value[i..] || value[i..] <= Key(w));
    OneDollarInKey(w);
    if Key(w) <= value[i..] {
      piece := "";
      assert value + piece == value;
    } else {
      var n := |value| - i;
      piece := Key(w)[n..];
      assert forall j :: 0 <= j < |piece| ==> piece[j] == Key(w)[n + j];
      assert (value + piece)[i..] == value[i..] + piece == Key(w);
    }
  }

  /** That is so exactly for the values that do not meet other variables' keys. */
  lemma SafeValuesIffHarmless(values: Values)
    ensures SafeValues(values) <==>
              forall v, w :: WellNamed(v) && WellNamed(w) && v != w ==> Harmless(v, w, values)
  {
    if forall v, w :: WellNamed(v) && WellNamed(w) && v != w ==> Harmless(v, w, values) {
      forall template, vars | NoJoints(template) && Lists(vars, template)
        ensures ReplaceInTurn(template, vars, values) == Substitute(template, values)
      {
        FoundAreWellNamed(template);
        OrderDoesNotMatter(template, vars, values);
      }
    } else {
      var v, w :| WellNamed(v) && WellNamed(w) && v != w && !Harmless(v, w, values);
      var piece := MeetingPiece(values(v).value, w);
      ShowingHasNoJoints(v, piece, w);
      InterferenceShowsOrder(v, w, values, piece, values(v).value + piece);
      assert Lists([v, w], Showing(v, piece, w));
    }
  }
}
