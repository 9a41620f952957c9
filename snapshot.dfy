/**
 * The store subscriber: after every mutation it copies the whitelisted
 * entries of the store state into a fresh object, which is then saved.
 * An object is an association list in key order; its keys are distinct.
 */
module Snapshot {

  /** The state keys that are saved. */
  const Whitelist: seq<string> := ["host", "username", "apiKey", "language"]

  /** The keys of an association list, in order. */
  function Keys<V>(entries: seq<(string, V)>): seq<string>
  {
    if entries == [] then [] else Keys(entries[..|entries| - 1]) + [entries[|entries| - 1].0]
  }

  /** Distinct keys, as an object's are. */
  predicate DistinctKeys<V>(entries: seq<(string, V)>)
  {
    forall i, j :: 0 <= i < j < |entries| ==> entries[i].0 != entries[j].0
  }

  /** The entries of `state` whose key is whitelisted, in the order of `state`. */
  function Whitelisted<V>(state: seq<(string, V)>): seq<(string, V)>
  {
    if state == [] then []
    else
      var last := state[|state| - 1];
      Whitelisted(state[..|state| - 1]) + (if last.0 in Whitelist then [last] else [])
  }

  /**
   * The subscriber's loop over `Object.keys(state)`: an entry is copied when
   * its key is found in the whitelist.
   */
  method Save<V>(state: seq<(string, V)>) returns (data: seq<(string, V)>)
    ensures data == Whitelisted(state)
  {
    data := [];
    for i := 0 to |state|
      invariant data == Whitelisted(state[..i])
    {
      assert state[..i + 1][..i] == state[..i];
      if state[i].0 in Whitelist {
        data := data + [state[i]];
      }
    }
    assert state[..|state|] == state;
  }

  /** An entry is saved exactly when it is in the state and its key is whitelisted. */
  lemma {:induction false} WhitelistedMembers<V>(state: seq<(string, V)>, e: (string, V))
    ensures e in Whitelisted(state) <==> e in state && e.0 in Whitelist
  {
    if state != [] {
      var init := state[..|state| - 1];
      WhitelistedMembers(init, e);
      assert state == init + [state[|state| - 1]];
    }
  }

  /** The saved keys are the whitelisted keys of the state, in the state's order. */
  lemma {:induction false} WhitelistedKeys<V>(state: seq<(string, V)>, k: string)
    ensures k in Keys(Whitelisted(state)) <==> k in Keys(state) && k in Whitelist
  {
    if state != [] {
      var init := state[..|state| - 1];
      var last := state[|state| - 1];
      WhitelistedKeys(init, k);
      var w := Whitelisted(init);
      assert Keys(state) == Keys(init) + [last.0];
      if last.0 in Whitelist {
        var ws := w + [last];
        assert ws[..|ws| - 1] == w;
        assert Keys(Whitelisted(state)) == Keys(w) + [last.0];
      } else {
        assert Whitelisted(state) == w;
      }
    }
  }

  /** Filtering keeps keys distinct, so the saved object is a well-formed object. */
  lemma {:induction false} WhitelistedDistinct<V>(state: seq<(string, V)>)
    requires DistinctKeys(state)
    ensures DistinctKeys(Whitelisted(state))
  {
    if state != [] {
      var init := state[..|state| - 1];
      var last := state[|state| - 1];
      assert DistinctKeys(init) by {
        forall i, j | 0 <= i < j < |init| ensures init[i].0 != init[j].0 {
          assert init[i] == state[i] && init[j] == state[j];
        }
      }
      WhitelistedDistinct(init);
      var w := Whitelisted(init);
      if last.0 in Whitelist {
        forall i | 0 <= i < |w| ensures w[i].0 != last.0 {
          WhitelistedMembers(init, w[i]);
          var m :| 0 <= m < |init| && init[m] == w[i];
          assert init[m] == state[m];
        }
      }
    }
  }

  /** Saving what was saved changes nothing. */
  lemma {:induction false} WhitelistedIdempotent<V>(state: seq<(string, V)>)
    ensures Whitelisted(Whitelisted(state)) == Whitelisted(state)
  {
    if state != [] {
      var init := state[..|state| - 1];
      var last := state[|state| - 1];
      WhitelistedIdempotent(init);
      var w := Whitelisted(init);
      if last.0 in Whitelist {
        var ws := w + [last];
        assert ws[..|ws| - 1] == w;
        assert Whitelisted(ws) == Whitelisted(w) + [last];
      } else {
        assert Whitelisted(state) == w;
      }
    }
  }

  /**
   * The value saved under a whitelisted key is the state's value under it,
   * and it is the only entry saved under that key.
   */
  lemma SavedValue<V>(state: seq<(string, V)>, k: string, v: V)
    requires DistinctKeys(state) && (k, v) in state && k in Whitelist
    ensures (k, v) in Whitelisted(state)
    ensures forall v' :: (k, v') in Whitelisted(state) ==> v' == v
  {
    WhitelistedMembers(state, (k, v));
    forall v' | (k, v') in Whitelisted(state) ensures v' == v {
      WhitelistedMembers(state, (k, v'));
      var i :| 0 <= i < |state| && state[i] == (k, v);
      var j :| 0 <= j < |state| && state[j] == (k, v');
      assert i == j;
    }
  }
}
