/**
 * The textual form of an encrypted value, `agcm:v1:<kid>:<payload>`: joining and splitting at
 * colons, and the parser that decryptGCM starts with.
 */
module Envelope {
  import opened Prelude

  const PREFIX := "agcm"
  const VERSION := "v1"

  /** strings.Join with a colon. */
  function Join(parts: seq<string>): string {
    if parts == [] then "" else if |parts| == 1 then parts[0] else parts[0] + ":" + Join(parts[1..])
  }

  /** strings.Split at every colon: one part more than there are colons. */
  function Split(s: string): (parts: seq<string>)
    ensures parts != []
  {
    if s == "" then [""]
    else
      var rest := Split(s[1..]);
      if s[0] == ':' then [""] + rest else [[s[0]] + rest[0]] + rest[1..]
  }

  /** Splitting yields colon-free parts that join to the whole, */
  lemma {:induction false} SplitThenJoin(s: string)
    ensures Join(Split(s)) == s
    ensures forall i :: 0 <= i < |Split(s)| ==> ':' !in Split(s)[i]
  {
    if s != "" {
      var rest := Split(s[1..]);
      SplitThenJoin(s[1..]);
      assert s == [s[0]] + s[1..];
      if s[0] == ':' {
        assert Split(s)[1..] == rest;
        assert Join(Split(s)) == "" + ":" + Join(rest);
      } else {
        assert Split(s)[1..] == rest[1..];
      }
    }
  }

  /** and colon-free parts are what their join splits into. */
  lemma {:induction false} JoinThenSplit(parts: seq<string>)
    requires parts != [] && forall i :: 0 <= i < |parts| ==> ':' !in parts[i]
    ensures Split(Join(parts)) == parts
    decreases |parts|, |parts[0]|
  {
    var whole := Join(parts);
    if parts[0] == "" {
      if |parts| > 1 {
        assert whole[1..] == Join(parts[1..]);
        JoinThenSplit(parts[1..]);
      }
    } else {
      var shorter := [parts[0][1..]] + parts[1..];
      assert shorter[1..] == parts[1..];
      assert whole[1..] == Join(shorter);
      JoinThenSplit(shorter);
      assert whole[0] == parts[0][0] && parts[0][0] in parts[0];
      assert parts[0] == [parts[0][0]] + parts[0][1..];
      assert parts == [[whole[0]] + shorter[0]] + shorter[1..];
    }
  }

  function Print(kid: string, payload: string): string {
    Join([PREFIX, VERSION, kid, payload])
  }

  /** The first check of decryptGCM. */
  function Parse(s: string): Option<(string, string)> {
    var parts := Split(s);
    if |parts| != 4 || parts[0] != PREFIX || parts[1] != VERSION || parts[2] == "" || parts[3] == "" then None
    else Some((parts[2], parts[3]))
  }

  lemma PrintedIs(kid: string, payload: string)
    ensures Print(kid, payload) == "agcm:v1:" + kid + ":" + payload
  {
    assert [kid] + [payload] == [kid, payload] && [VERSION] + [kid, payload] == [VERSION, kid, payload];
    assert [PREFIX] + [VERSION, kid, payload] == [PREFIX, VERSION, kid, payload];
    JoinStep(kid, [payload]);
    JoinStep(VERSION, [kid, payload]);
    JoinStep(PREFIX, [VERSION, kid, payload]);
    assert Print(kid, payload) == "agcm" + ":" + ("v1" + ":" + (kid + ":" + payload));
    assert "agcm:v1:" == "agcm" + ":" + "v1" + ":";
  }

  lemma JoinStep(first: string, rest: seq<string>)
    requires rest != []
    ensures Join([first] + rest) == first + ":" + Join(rest)
  {
    assert ([first] + rest)[1..] == rest;
  }

  /** The parser accepts exactly what the printer makes of a key id and a payload that are not
      empty and contain no colon. */
  lemma ParseInvertsPrint(s: string, kid: string, payload: string)
    ensures Parse(s) == Some((kid, payload))
            <==> s == "agcm:v1:" + kid + ":" + payload && kid != "" && payload != "" && ':' !in kid && ':' !in payload
  {
    PrintedIs(kid, payload);
    if s == Print(kid, payload) && ':' !in kid && ':' !in payload {
      JoinThenSplit([PREFIX, VERSION, kid, payload]);
    }
    if Parse(s) == Some((kid, payload)) {
      SplitThenJoin(s);
      assert Split(s) == [PREFIX, VERSION, kid, payload];
    }
  }

  /** The test that tells a current value from a legacy one. */
  predicate IsCurrent(s: string) {
    PREFIX + ":" <= s
  }

  lemma PrintedIsCurrent(kid: string, payload: string)
    ensures IsCurrent(Print(kid, payload))
  {
    assert Print(kid, payload) == PREFIX + ":" + Join([PREFIX, VERSION, kid, payload][1..]);
  }

  lemma CurrentHasColon(s: string)
    requires IsCurrent(s)
    ensures ':' in s
  {
    assert s[4] == (PREFIX + ":")[4];
  }
}
