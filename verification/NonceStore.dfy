/**
 * Replay protection of the sync endpoints: the store of consumed nonces and the timestamp check
 * that stands before it.
 */
module NonceStore {
  import opened Prelude

  const SYNC_NONCE_TTL: Time := 2 * MINUTE

  /** Until when each consumed nonce is remembered. */
  type Nonces = map<string, Time>

  function Purged(values: Nonces, now: Time): Nonces {
    map k | k in values && now <= values[k] :: values[k]
  }

  /** One attempt to consume a nonce: expired nonces go first, then the key must be new. */
  function Consume(values: Nonces, key: string, now: Time): (Nonces, bool) {
    var live := Purged(values, now);
    if key in live then (live, false) else (live[key := now + SYNC_NONCE_TTL], true)
  }

  function NonceKey(nodeKey: string, nonce: string): string {
    nodeKey + ":" + nonce
  }

  /** Different nonces of one node have different keys, and so have the nonces of different nodes
      whose own keys contain no colon. */
  lemma NonceKeysDiffer(nodeKey: string, nonce: string, nodeKey': string, nonce': string)
    requires nodeKey == nodeKey' || (':' !in nodeKey && ':' !in nodeKey')
    ensures NonceKey(nodeKey, nonce) == NonceKey(nodeKey', nonce') <==> nodeKey == nodeKey' && nonce == nonce'
  {
    var a, b := NonceKey(nodeKey, nonce), NonceKey(nodeKey', nonce');
    assert nonce == a[|nodeKey| + 1..] && nonce' == b[|nodeKey'| + 1..];
    assert nodeKey == a[..|nodeKey|] && nodeKey' == b[..|nodeKey'|];
    assert a[|nodeKey|] == ':' && b[|nodeKey'|] == ':';
    assert |nodeKey| < |nodeKey'| ==> b[|nodeKey|] in nodeKey';
    assert |nodeKey'| < |nodeKey| ==> a[|nodeKey'|] in nodeKey;
  }

  /** Nonces of nodes whose keys contain colons can share a key, in exactly this way. */
  lemma NonceKeysMeetIff(nodeKey: string, nonce: string, nodeKey': string, nonce': string)
    requires |nodeKey| < |nodeKey'|
    ensures NonceKey(nodeKey, nonce) == NonceKey(nodeKey', nonce') <==>
              exists x :: nodeKey' == nodeKey + ":" + x && nonce == x + ":" + nonce'
  {
    var a, b := NonceKey(nodeKey, nonce), NonceKey(nodeKey', nonce');
    var x := nodeKey'[|nodeKey| + 1..];
    assert nonce == a[|nodeKey| + 1..] && b[|nodeKey| + 1..] == x + ":" + nonce';
    if a == b {
      assert nodeKey == a[..|nodeKey|] == nodeKey'[..|nodeKey|] && a[|nodeKey|] == nodeKey'[|nodeKey|];
      assert nodeKey' == nodeKey'[..|nodeKey|] + [nodeKey'[|nodeKey|]] + x;
    }
    if y :| nodeKey' == nodeKey + ":" + y && nonce == y + ":" + nonce' {
      assert a == nodeKey + ":" + (y + ":" + nonce') == b;
    }
  }

  class SyncNonces {
    var values: Nonces

    constructor ()
      ensures values == map[]
    {
      values := map[];
    }

    method ConsumeSyncNonce(nodeKey: string, nonce: string, now: Time) returns (ok: bool)
      modifies this
      ensures nonce == "" ==> !ok && values == old(values)
      ensures nonce != "" ==> (values, ok) == Consume(old(values), NonceKey(nodeKey, nonce), now)
    {
      if nonce == "" {
        return false;
      }
      var key := NonceKey(nodeKey, nonce);
      var pending := values.Keys;
      while pending != {}
        invariant pending <= old(values).Keys
        invariant values == map k | k in old(values) && (k in pending || now <= old(values)[k]) :: old(values)[k]
      {
        var existing := Pick(pending);
        pending := pending - {existing};
        if now > values[existing] {
          values := values - {existing};
        }
      }
      assert values == Purged(old(values), now);
      if key in values {
        return false;
      }
      values := values[key := now + SYNC_NONCE_TTL];
      return true;
    }

    /** The head of the sync authorization: a stale request does not reach the nonce store, and
        neither does one whose timestamp is not a number. */
    method AdmitSyncRequest(nodeKey: string, secret: string, nonce: string, timestamp: Option<int>, now: Time)
      returns (ok: bool)
      modifies this
      ensures
        var key := NonceKey(nodeKey, nonce);
        if nodeKey == "" || secret == "" || nonce == "" || timestamp.None?
           || now - timestamp.value * SECOND > 120 * SECOND || timestamp.value * SECOND - now > 120 * SECOND
        then !ok && values == old(values)
        else && (ok <==> key !in old(values) || now > old(values)[key])
             && (forall k :: k in values <==> (k in old(values) && now <= old(values)[k]) || k == key)
             && (forall k :: k in values ==> values[k] == if ok && k == key then now + 120 * SECOND else old(values)[k])
    {
      if timestamp.None? {
        return false;
      }
      var age := now - timestamp.value * SECOND;
      if nodeKey == "" || secret == "" || nonce == "" || (if age < 0 then -age else age) > SYNC_NONCE_TTL {
        return false;
      }
      ok := ConsumeSyncNonce(nodeKey, nonce, now);
    }
  }

  // ----- Whole runs -----

  /** An attempt; `stamp` is the request's own timestamp in seconds. */
  datatype Attempt = Attempt(key: string, stamp: int, now: Time)

  predicate Fresh(a: Attempt) {
    -SYNC_NONCE_TTL <= a.now - a.stamp * SECOND <= SYNC_NONCE_TTL
  }

  function StoreAfter(attempts: seq<Attempt>): Nonces {
    if attempts == [] then map[]
    else
      var n := |attempts| - 1;
      Consume(StoreAfter(attempts[..n]), attempts[n].key, attempts[n].now).0
  }

  predicate Accepted(attempts: seq<Attempt>, i: nat)
    requires i < |attempts|
  {
    Consume(StoreAfter(attempts[..i]), attempts[i].key, attempts[i].now).1
  }

  /** When a key was accepted last. */
  function LastAcceptance(attempts: seq<Attempt>, key: string): Option<Time> {
    if attempts == [] then None
    else
      var n := |attempts| - 1;
      if attempts[n].key == key && Consume(StoreAfter(attempts[..n]), key, attempts[n].now).1 then
        Some(attempts[n].now)
      else
        LastAcceptance(attempts[..n], key)
  }

  ghost predicate ClockForward(attempts: seq<Attempt>) {
    forall i, j :: 0 <= i <= j < |attempts| ==> attempts[i].now <= attempts[j].now
  }

  /** After any run the store holds exactly the keys accepted within the last two minutes, each
      with the end of its own two minutes. */
  lemma {:induction false} StoreIsExact(attempts: seq<Attempt>, key: string)
    requires ClockForward(attempts) && attempts != []
    ensures var now, last := attempts[|attempts| - 1].now, LastAcceptance(attempts, key);
      && (key in StoreAfter(attempts) <==> last.Some? && now - last.value <= 120 * SECOND)
      && (key in StoreAfter(attempts) ==> StoreAfter(attempts)[key] == last.value + 120 * SECOND)
  {
    var n := |attempts| - 1;
    if n > 0 {
      StoreIsExact(attempts[..n], key);
    } else {
      assert attempts[..n] == [];
    }
  }

  /** An attempt is accepted exactly when its key was not accepted within the last two minutes. */
  lemma AcceptedIffNotRecent(attempts: seq<Attempt>, i: nat)
    requires ClockForward(attempts) && i < |attempts|
    ensures
      var last := LastAcceptance(attempts[..i], attempts[i].key);
      Accepted(attempts, i) <==> last.None? || attempts[i].now > last.value + 120 * SECOND
  {
    if i > 0 {
      StoreIsExact(attempts[..i], attempts[i].key);
      assert attempts[..i][i - 1].now <= attempts[i].now;
    }
  }

  lemma {:induction false} LastAcceptanceIsLater(attempts: seq<Attempt>, i: nat)
    requires ClockForward(attempts) && i < |attempts| && Accepted(attempts, i)
    ensures LastAcceptance(attempts, attempts[i].key).Some?
    ensures LastAcceptance(attempts, attempts[i].key).value >= attempts[i].now
  {
    var n := |attempts| - 1;
    if i < n {
      assert attempts[..n][..i] == attempts[..i];
      LastAcceptanceIsLater(attempts[..n], i);
    }
  }

  /** Two acceptances of one key are more than two minutes apart. */
  lemma AcceptancesApart(attempts: seq<Attempt>, i: nat, j: nat)
    requires ClockForward(attempts) && i < j < |attempts| && attempts[i].key == attempts[j].key
    requires Accepted(attempts, i) && Accepted(attempts, j)
    ensures attempts[j].now > attempts[i].now + 120 * SECOND
  {
    var before := attempts[..j];
    assert before[..i] == attempts[..i] && before[i] == attempts[i];
    LastAcceptanceIsLater(before, i);
    StoreIsExact(before, attempts[j].key);
    assert before[j - 1].now <= attempts[j].now;
    LastIsPast(before, attempts[j].key);
  }

  lemma {:induction false} LastIsPast(attempts: seq<Attempt>, key: string)
    requires ClockForward(attempts) && LastAcceptance(attempts, key).Some?
    ensures attempts != [] && LastAcceptance(attempts, key).value <= attempts[|attempts| - 1].now
  {
    var n := |attempts| - 1;
    if !(attempts[n].key == key && Consume(StoreAfter(attempts[..n]), key, attempts[n].now).1) {
      LastIsPast(attempts[..n], key);
    }
  }

  /** A request whose timestamp is not ahead of its first acceptance is accepted only once. */
  lemma AcceptedOnce(attempts: seq<Attempt>, i: nat, j: nat)
    requires ClockForward(attempts) && i < j < |attempts|
    requires attempts[i].key == attempts[j].key && attempts[i].stamp == attempts[j].stamp
    requires Accepted(attempts, i) && attempts[i].stamp * SECOND <= attempts[i].now
    ensures !(Fresh(attempts[j]) && Accepted(attempts, j))
  {
    if Accepted(attempts, j) {
      AcceptancesApart(attempts, i, j);
    }
  }

  /** The condition is exact: whatever came before, a request that has just been accepted can be
      accepted again later if and only if its timestamp is ahead of the clock. */
  lemma AcceptedAgainIffAhead(history: seq<Attempt>, first: Attempt)
    requires ClockForward(history + [first]) && Fresh(first) && Accepted(history + [first], |history|)
    ensures (exists second: Attempt :: CanRepeat(history, first, second)) <==> first.stamp * SECOND > first.now
  {
    var attempts := history + [first];
    assert attempts[..|history|] == history;
    assert LastAcceptance(attempts, first.key) == Some(first.now);
    forall second: Attempt | second.key == first.key && first.now <= second.now
      ensures Accepted(attempts + [second], |attempts|) <==> second.now > first.now + SYNC_NONCE_TTL
    {
      var longer := attempts + [second];
      assert longer[..|attempts|] == attempts;
      forall i, j | 0 <= i <= j < |longer| ensures longer[i].now <= longer[j].now {
        assert attempts[if i < |attempts| then i else |history|].now <= attempts[|history|].now;
      }
      AcceptedIffNotRecent(longer, |attempts|);
    }
    if first.stamp * SECOND > first.now {
      assert CanRepeat(history, first, first.(now := first.stamp * SECOND + SYNC_NONCE_TTL));
    }
  }

  /** The same request, presented later, passes both checks. */
  ghost predicate CanRepeat(history: seq<Attempt>, first: Attempt, second: Attempt) {
    && second.key == first.key && second.stamp == first.stamp && first.now <= second.now
    && Fresh(second) && Accepted(history + [first] + [second], |history| + 1)
  }
}
