/**
 * When the order of the replacement loop matters.
 *
 * The loop is meant to replace all variables of a template at the same time.  It does so in
 * every order for the templates without joints, and with values that do not meet other
 * variables' keys; both conditions are exact.
 */
module TemplateOrder {
  import opened Prelude
  import opened TemplateVariables

  // ----- The two conditions -----

  predicate DollarFree(s: string) {
    '$' !in s
  }

  predicate DollarFreeValues(values: Values, v: Variable) {
    values(v).Some? ==> DollarFree(values(v).value)
  }

  /** From some dollar sign on, the text starts with the key, or the key with the rest of the text. */
  predicate Meets(s: string, key: string) {
    exists i :: 0 <= i < |s| && s[i] == '$' && (key <= s[i..] || s[i..] <= key)
  }

  /** Replacing this variable makes a difference. */
  predicate Live(v: Variable, values: Values) {
    values(v).Some? && values(v).value != Key(v)
  }

  /** The value of one variable does not interfere with the replacement of another. */
  predicate Harmless(v: Variable, w: Variable, values: Values) {
    values(v).Some? && Live(w, values) ==> !Meets(values(v).value, Key(w))
  }

  /** The text starts with the first k characters of a key, and then a variable is written. */
  predicate JoinsAs(s: string, w: Variable, v: Variable, k: nat) {
    0 < k < |Key(w)| && k <= |s| && s[..k] == Key(w)[..k] && MatchAt(s[k..]) == Some(v)
  }

  predicate Joins(s: string, w: Variable, others: set<Variable>) {
    exists k: nat :: k <= |s| && MatchAt(s[k..]).Some? && MatchAt(s[k..]).value in others
      && JoinsAs(s, w, MatchAt(s[k..]).value, k)
  }

  /** Nowhere outside the written variables does part of w's key run into one of the others. */
  predicate Jointless(template: string, w: Variable, others: set<Variable>)
    decreases |template|
  {
    if template == "" then true
    else if MatchAt(template).Some? then Jointless(After(template), w, others)
    else !Joins(template, w, others) && Jointless(template[1..], w, others)
  }

  function Elements(vars: seq<Variable>): set<Variable> {
    set v | v in vars
  }

  predicate NoJoints(template: string) {
    forall w :: w in FindAll(template) ==> Jointless(template, w, Elements(FindAll(template)) - {w})
  }

  // ----- The template with some of its variables replaced -----

  /** What becomes of a written variable once those in `done` are replaced. */
  function Shown(w: Variable, values: Values, done: set<Variable>): string {
    if w in done && values(w).Some? then values(w).value else Key(w)
  }

  function SubstituteOnly(template: string, values: Values, done: set<Variable>): string
    decreases |template|
  {
    if template == "" then ""
    else if MatchAt(template).Some? then
      Shown(MatchAt(template).value, values, done) + SubstituteOnly(After(template), values, done)
    else [template[0]] + SubstituteOnly(template[1..], values, done)
  }

  /** The next template to look at. */
  function Next(template: string): (rest: string)
    requires template != ""
    ensures |rest| < |template|
  {
    if MatchAt(template).Some? then After(template) else template[1..]
  }

  lemma {:induction false} SubstituteNone(template: string, values: Values)
    ensures SubstituteOnly(template, values, {}) == template
    decreases |template|
  {
    if template != "" {
      SubstituteNone(Next(template), values);
    }
  }

  /** Once all variables with a value are done, nothing is left to replace. */
  lemma {:induction false} SubstituteAll(template: string, values: Values, done: set<Variable>)
    requires forall v :: v in FindAll(template) ==> v in done || values(v).None?
    ensures SubstituteOnly(template, values, done) == Substitute(template, values)
    decreases |template|
  {
    if template != "" {
      SubstituteAll(Next(template), values, done);
    }
  }

  /** A variable without a value, or with its own text as its value, changes nothing. */
  lemma {:induction false} SubstituteDull(template: string, v: Variable, values: Values, done: set<Variable>)
    requires !Live(v, values)
    ensures SubstituteOnly(template, values, done + {v}) == SubstituteOnly(template, values, done)
    decreases |template|
  {
    if template != "" {
      SubstituteDull(Next(template), v, values, done);
    }
  }

  // ----- Replacing one variable -----

  lemma OneDollarInKey(v: Variable)
    requires WellNamed(v)
    ensures Key(v)[0] == '$' && |Key(v)| > 1 && DollarFree(Key(v)[1..])
    ensures forall i :: 0 < i < |Key(v)| ==> Key(v)[i] != '$'
  {
    assert forall i :: 0 < i < |Key(v)| ==> Key(v)[i] == Key(v)[1..][i - 1];
  }

  /** A piece that does not meet the key is passed over, whatever follows it. */
  lemma {:induction false} ReplaceSkips(piece: string, rest: string, w: Variable, value: string)
    requires WellNamed(w) && !Meets(piece, Key(w))
    ensures ReplaceAll(piece + rest, Key(w), value) == piece + ReplaceAll(rest, Key(w), value)
  {
    if piece == "" {
      assert piece + rest == rest;
    } else {
      NotHere(piece, rest, w);
      assert (piece + rest)[1..] == piece[1..] + rest && piece == [piece[0]] + piece[1..];
      ReplaceSkips(piece[1..], rest, w, value);
    }
  }

  /** No occurrence of the key starts where a piece starts that does not meet it. */
  lemma NotHere(piece: string, rest: string, w: Variable)
    requires WellNamed(w) && piece != "" && !Meets(piece, Key(w))
    ensures !(Key(w) <= piece + rest) && !Meets(piece[1..], Key(w))
  {
    assert forall i :: 0 <= i < |piece| - 1 ==> piece[1..][i..] == piece[i + 1..] && piece[1..][i] == piece[i + 1];
    assert piece[0..] == piece;
    if Key(w) <= piece + rest {
      PrefixesCompare(Key(w), piece, rest);
    }
  }

  lemma PrefixesCompare(key: string, piece: string, rest: string)
    requires key != "" && key <= piece + rest && piece != ""
    ensures key[0] == piece[0] && (key <= piece || piece <= key)
  {
    var n := if |key| <= |piece| then |key| else |piece|;
    assert key[..n] == (piece + rest)[..n] == piece[..n];
    assert key[0] == (piece + rest)[0];
  }

  lemma ReplaceHere(v: Variable, rest: string, value: string)
    ensures ReplaceAll(Key(v) + rest, Key(v), value) == value + ReplaceAll(rest, Key(v), value)
  {
    assert (Key(v) + rest)[|Key(v)|..] == rest;
  }

  /** Two variables' keys do not meet. */
  lemma KeysDoNotMeet(v: Variable, w: Variable)
    requires WellNamed(v) && WellNamed(w) && v != w
    ensures !Meets(Key(v), Key(w))
  {
    OneDollarInKey(v);
    assert Key(v)[0..] == Key(v);
    if Key(w) <= Key(v) {
      assert Key(w) <= Key(v) + "";
      KeysDiffer(w, v, "");
    } else if Key(v) <= Key(w) {
      assert Key(v) <= Key(w) + "";
      KeysDiffer(v, w, "");
    }
  }

  /** Up to a joint a template is literal text. */
  lemma {:induction false} Literal(template: string, w: Variable, k: nat, values: Values, done: set<Variable>)
    requires WellNamed(w) && k <= |template| && k <= |Key(w)| && template[..k] == Key(w)[..k]
    requires MatchAt(template).None?
    ensures SubstituteOnly(template, values, done) == template[..k] + SubstituteOnly(template[k..], values, done)
    decreases k
  {
    if k == 0 {
      assert template[0..] == template && template[..0] == "";
    } else {
      var init, rest := template[..k - 1], template[k - 1..];
      assert init == template[..k][..k - 1] == Key(w)[..k - 1];
      Literal(template, w, k - 1, values, done);
      LiteralStep(template, w, k);
      SplitAt(template, k - 1);
      Regroup(init, [rest[0]], SubstituteOnly(template[k..], values, done));
    }
  }

  lemma SplitAt(s: string, k: nat)
    requires k < |s|
    ensures s[k..][1..] == s[k + 1..] && s[k..][0] == s[k] && s[..k + 1] == s[..k] + [s[k]]
  {
  }

  lemma Regroup(a: string, b: string, c: string)
    ensures a + (b + c) == a + b + c
  {
  }

  /** No variable starts at a later character of a key. */
  lemma LiteralStep(template: string, w: Variable, k: nat)
    requires WellNamed(w) && 0 < k <= |template| && k <= |Key(w)| && template[..k] == Key(w)[..k]
    requires MatchAt(template).None?
    ensures MatchAt(template[k - 1..]).None?
  {
    OneDollarInKey(w);
    if k == 1 {
      assert template[0..] == template;
    } else {
      assert template[k - 1..][0] == template[..k][k - 1] == Key(w)[..k][k - 1] == Key(w)[k - 1];
    }
  }

  /** A character that writes no variable is text. */
  lemma OneCharFurther(template: string, k: nat, values: Values, done: set<Variable>)
    requires k < |template| && MatchAt(template[k..]).None?
    ensures template[..k] + SubstituteOnly(template[k..], values, done)
         == template[..k + 1] + SubstituteOnly(template[k + 1..], values, done)
  {
    SplitAt(template, k);
    Regroup(template[..k], [template[k]], SubstituteOnly(template[k + 1..], values, done));
  }

  lemma SamePrefix(template: string, key: string, k: nat)
    requires k < |template| && k < |key| && template[..k] == key[..k] && template[k] == key[k]
    ensures template[..k + 1] == key[..k + 1]
  {
  }

  lemma KeyIsWritten(template: string, w: Variable)
    requires WellNamed(w) && |Key(w)| <= |template| && template[..|Key(w)|] == Key(w)
    ensures MatchAt(template) == Some(w)
  {
    WrittenMatches(w, template[|Key(w)|..]);
    assert template == Key(w) + template[|Key(w)|..];
  }

  /** Without a joint, no occurrence of the key starts at a character that writes no variable. */
  lemma {:induction false} NoKeyHere(template: string, w: Variable, k: nat, values: Values, done: set<Variable>)
    requires WellNamed(w) && k < |Key(w)| && 0 < k <= |template| && template[..k] == Key(w)[..k]
    requires MatchAt(template).None? && !Joins(template, w, done)
    ensures !(Key(w) <= template[..k] + SubstituteOnly(template[k..], values, done))
    decreases |Key(w)| - k
  {
    if k < |template| {
      if MatchAt(template[k..]).Some? {
        NoKeyBeforeVariable(template, w, k, values, done);
      } else {
        OneCharFurther(template, k, values, done);
        if template[k] == Key(w)[k] {
          SamePrefix(template, Key(w), k);
          if k + 1 < |Key(w)| {
            NoKeyHere(template, w, k + 1, values, done);
          } else {
            KeyIsWritten(template, w);
          }
        } else {
          NextCharDiffers(Key(w), template[..k], [template[k]] + SubstituteOnly(template[k + 1..], values, done));
          Regroup(template[..k], [template[k]], SubstituteOnly(template[k + 1..], values, done));
          SplitAt(template, k);
        }
      }
    }
  }

  lemma NoKeyBeforeVariable(template: string, w: Variable, k: nat, values: Values, done: set<Variable>)
    requires WellNamed(w) && k < |Key(w)| && 0 < k <= |template| && template[..k] == Key(w)[..k]
    requires MatchAt(template[k..]).Some? && !Joins(template, w, done)
    ensures !(Key(w) <= template[..k] + SubstituteOnly(template[k..], values, done))
  {
    var v := MatchAt(template[k..]).value;
    assert JoinsAs(template, w, v, k);
    assert v !in done;
    OneDollarInKey(w);
    NextCharDiffers(Key(w), template[..k], Key(v) + SubstituteOnly(After(template[k..]), values, done));
  }

  lemma NextCharDiffers(key: string, start: string, rest: string)
    requires |start| < |key| && rest != "" && rest[0] != key[|start|]
    ensures !(key <= start + rest)
  {
    assert (start + rest)[|start|] == rest[0];
  }

  /** A character that writes no variable and starts no joint is passed over. */
  lemma CharSkipped(template: string, w: Variable, values: Values, done: set<Variable>, value: string)
    requires WellNamed(w) && template != "" && MatchAt(template).None? && !Joins(template, w, done)
    ensures
      var tail := SubstituteOnly(template[1..], values, done);
      ReplaceAll(SubstituteOnly(template, values, done), Key(w), value)
        == [template[0]] + ReplaceAll(tail, Key(w), value)
  {
    var content := SubstituteOnly(template, values, done);
    var tail := SubstituteOnly(template[1..], values, done);
    OneDollarInKey(w);
    assert content == [template[0]] + tail && content[1..] == tail;
    if template[0] == '$' {
      assert template[..1] == [template[0]] == Key(w)[..1];
      NoKeyHere(template, w, 1, values, done);
    }
  }

  /** A written variable, whether replaced before, replaced now or left. */
  lemma WrittenReplaced(v: Variable, tail: string, w: Variable, values: Values, done: set<Variable>)
    requires WellNamed(v) && WellNamed(w) && values(w).Some? && w !in done
    requires v in done && values(v).Some? ==> !Meets(values(v).value, Key(w))
    ensures ReplaceAll(Shown(v, values, done) + tail, Key(w), values(w).value)
         == Shown(v, values, done + {w}) + ReplaceAll(tail, Key(w), values(w).value)
  {
    if v == w {
      ReplaceHere(w, tail, values(w).value);
    } else {
      KeysDoNotMeet(v, w);
      ReplaceSkips(Shown(v, values, done), tail, w, values(w).value);
    }
  }

  /** Replacing one more variable in a partly substituted template. */
  lemma {:induction false} ReplaceIsOneMore(template: string, w: Variable, values: Values, done: set<Variable>)
    requires WellNamed(w) && values(w).Some? && w !in done && Jointless(template, w, done)
    requires forall v :: v in done && values(v).Some? ==> !Meets(values(v).value, Key(w))
    ensures ReplaceAll(SubstituteOnly(template, values, done), Key(w), values(w).value)
         == SubstituteOnly(template, values, done + {w})
    decreases |template|
  {
    if template != "" {
      ReplaceIsOneMore(Next(template), w, values, done);
      if MatchAt(template).Some? {
        var tail := SubstituteOnly(After(template), values, done);
        WrittenReplaced(MatchAt(template).value, tail, w, values, done);
      } else {
        CharSkipped(template, w, values, done, values(w).value);
      }
    }
  }

  // ----- Enough: the loop substitutes -----

  lemma {:induction false} JointlessForFewer(template: string, w: Variable, others: set<Variable>, fewer: set<Variable>)
    requires Jointless(template, w, others) && fewer <= others
    ensures Jointless(template, w, fewer)
    decreases |template|
  {
    if template != "" {
      JointlessForFewer(Next(template), w, others, fewer);
    }
  }

  /** Replacing every occurrence by itself changes nothing. */
  lemma {:induction false} ReplaceBySelf(s: string, key: string)
    requires key != ""
    ensures ReplaceAll(s, key, key) == s
    decreases |s|
  {
    if s != "" {
      if key <= s {
        ReplaceBySelf(s[|key|..], key);
        assert s == key + s[|key|..];
      } else {
        ReplaceBySelf(s[1..], key);
        assert s == [s[0]] + s[1..];
      }
    }
  }

  lemma OneMoreDone(vars: seq<Variable>)
    requires vars != []
    ensures Elements(vars) == Elements(vars[..|vars| - 1]) + {vars[|vars| - 1]}
  {
    assert vars == vars[..|vars| - 1] + [vars[|vars| - 1]];
  }

  /** What the loop needs of a list of variables: no joints and no interfering values among them. */
  ghost predicate Compatible(template: string, vars: seq<Variable>, values: Values) {
    && (forall i :: 0 <= i < |vars| ==> WellNamed(vars[i]))
    && (forall i, j :: 0 <= i < j < |vars| ==> vars[i] != vars[j])
    && (forall w :: w in vars ==> Jointless(template, w, Elements(vars) - {w}))
    && (forall v, w :: v in vars && w in vars && v != w ==> Harmless(v, w, values))
  }

  lemma CompatiblePrefix(template: string, vars: seq<Variable>, values: Values)
    requires Compatible(template, vars, values) && vars != []
    ensures Compatible(template, vars[..|vars| - 1], values)
  {
    var init := vars[..|vars| - 1];
    forall w | w in init ensures Jointless(template, w, Elements(init) - {w}) {
      JointlessForFewer(template, w, Elements(vars) - {w}, Elements(init) - {w});
    }
  }

  /** After some iterations the content is the template with just those variables replaced. */
  lemma {:induction false} LoopSubstitutes(template: string, vars: seq<Variable>, values: Values)
    requires Compatible(template, vars, values)
    ensures ReplaceInTurn(template, vars, values) == SubstituteOnly(template, values, Elements(vars))
  {
    if vars == [] {
      assert Elements(vars) == {};
      SubstituteNone(template, values);
    } else {
      var n := |vars| - 1;
      var w, done := vars[n], Elements(vars[..n]);
      CompatiblePrefix(template, vars, values);
      LoopSubstitutes(template, vars[..n], values);
      OneMoreDone(vars);
      assert w !in done;
      if Live(w, values) {
        JointlessForFewer(template, w, Elements(vars) - {w}, done);
        assert forall v :: v in done ==> v in vars && v != w;
        ReplaceIsOneMore(template, w, values, done);
      } else {
        SubstituteDull(template, w, values, done);
        ReplaceBySelf(ReplaceInTurn(template, vars[..n], values), Key(w));
      }
    }
  }

  /** For a template without joints and values that do not interfere, every order of the
      variables gives the simultaneous substitution. */
  lemma OrderDoesNotMatter(template: string, vars: seq<Variable>, values: Values)
    requires NoJoints(template) && Lists(vars, template)
    requires forall v, w :: v in vars && w in vars && v != w ==> Harmless(v, w, values)
    ensures ReplaceInTurn(template, vars, values) == Substitute(template, values)
  {
    FoundAreWellNamed(template);
    assert Elements(vars) == Elements(FindAll(template));
    LoopSubstitutes(template, vars, values);
    SubstituteAll(template, values, Elements(vars));
  }

  // ----- The loop of the service -----

  method GetContentWithVariables(template: string, values: Values) returns (content: string)
    ensures exists vars :: Lists(vars, template) && content == ReplaceInTurn(template, vars, values)
    ensures (NoJoints(template)
             && forall v, w :: v in FindAll(template) && w in FindAll(template) && v != w ==> Harmless(v, w, values))
            ==> content == Substitute(template, values)
  {
    content := template;
    var variables := ParseTemplateVariables(template);
    for i := 0 to |variables|
      invariant content == ReplaceInTurn(template, variables[..i], values)
    {
      assert variables[..i + 1][..i] == variables[..i];
      var v := variables[i];
      var value := values(v);
      if value.Some? {
        content := ReplaceAll(content, Key(v), value.value);
      }
    }
    assert variables[..|variables|] == variables;
    if NoJoints(template) && forall v, w :: v in variables && w in variables && v != w ==> Harmless(v, w, values) {
      OrderDoesNotMatter(template, variables, values);
    }
  }
}
