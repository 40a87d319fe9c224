/** The pruning script new_events.py: a saved recommendation file maps every user to its
    {event id: score} dictionary; recommended events that are no longer listed are deleted from
    every user's dictionary, in place. Keys are JSON object keys, so event ids are compared as
    their decimal text. */
module NewEvents {
  import opened PyStr

  /** Every event id some user was recommended. */
  ghost function RecommendedEvents(recs: map<string, map<string, real>>): set<string> {
    set u, e | u in recs && e in recs[u] :: e
  }

  /** `events['ID'].apply(str).unique()` as a set: the listed event ids as text. */
  function CurrentIds(ids: seq<int>): (r: set<string>)
    ensures forall i :: 0 <= i < |ids| ==> DecimalString(ids[i]) in r
    ensures forall k :: k in r ==> exists i :: 0 <= i < |ids| && k == DecimalString(ids[i])
  {
    if ids == [] then {} else CurrentIds(ids[..|ids| - 1]) + {DecimalString(ids[|ids| - 1])}
  }

  /** `del d[j]` guarded by `except KeyError: continue`: the key is gone, and a missing key changes
      nothing. */
  function Delete(d: map<string, real>, j: string): (r: map<string, real>)
    ensures r.Keys == d.Keys - {j}
    ensures forall k :: k in r ==> r[k] == d[k]
    ensures j !in d ==> r == d
  {
    d - {j}
  }

  /** The recommendation dictionary loaded from `rec_test.json`. */
  class Recommendations {
    var byUser: map<string, map<string, real>>

    constructor(byUser: map<string, map<string, real>>)
      ensures this.byUser == byUser
    {
      this.byUser := byUser;
    }

    /** The `events_set` loop: the union of the item keys of all users' dictionaries. */
    method EventsSet() returns (events: set<string>)
      ensures events == RecommendedEvents(byUser)
    {
      events := {};
      var todo := byUser.Keys;
      while todo != {}
        invariant todo <= byUser.Keys
        invariant events == set u, e | u in byUser && u !in todo && e in byUser[u] :: e
        decreases todo
      {
        var u :| u in todo;
        var z := byUser[u].Keys;
        var added := {};
        while z != {}
          invariant z <= byUser[u].Keys
          invariant added == byUser[u].Keys - z
          invariant events == (set v, e | v in byUser && v !in todo && e in byUser[v] :: e) + added
          decreases z
        {
          var y :| y in z;
          events := events + {y};
          added := added + {y};
          z := z - {y};
        }
        todo := todo - {u};
      }
    }

    /** The inner deletion loop for one user: every stale id is deleted from its dictionary. */
    method PruneUser(i: string, stale: set<string>)
      requires i in byUser
      modifies this
      ensures byUser == old(byUser)[i := old(byUser)[i] - stale]
    {
      var left := stale;
      assert old(byUser)[i] - (stale - left) == old(byUser)[i];
      assert old(byUser)[i := old(byUser)[i]] == old(byUser);
      while left != {}
        invariant left <= stale
        invariant byUser == old(byUser)[i := old(byUser)[i] - (stale - left)]
        decreases left
      {
        var j :| j in left;
        byUser := byUser[i := Delete(byUser[i], j)];
        assert Delete(old(byUser)[i] - (stale - left), j) == old(byUser)[i] - (stale - (left - {j}));
        assert byUser == old(byUser)[i := old(byUser)[i] - (stale - (left - {j}))];
        left := left - {j};
      }
      assert stale - left == stale;
    }

    /** The whole script: the stale ids are the recommended ones that are not current, and every
        user's dictionary loses every stale id it holds. */
    method PruneToCurrent(ids: seq<int>) returns (stale: set<string>)
      modifies this
      ensures stale == RecommendedEvents(old(byUser)) - CurrentIds(ids)
      ensures byUser == Pruned(old(byUser), CurrentIds(ids))
    {
      var eventsSet := EventsSet();
      var current := CurrentIds(ids);
      stale := eventsSet - current;
      var todo := byUser.Keys;
      while todo != {}
        invariant todo <= byUser.Keys
        invariant byUser.Keys == old(byUser).Keys
        invariant forall u :: u in byUser ==> byUser[u] == if u in todo then old(byUser)[u] else old(byUser)[u] - stale
        decreases todo
      {
        var i :| i in todo;
        PruneUser(i, stale);
        todo := todo - {i};
      }
    }
  }

  /** Every user's dictionary without the recommended ids that are not in `current`. */
  ghost function Pruned(recs: map<string, map<string, real>>, current: set<string>): map<string, map<string, real>> {
    map u | u in recs :: recs[u] - (RecommendedEvents(recs) - current)
  }

  /** After pruning no user is added or removed, and each keeps exactly the current ids it had,
      with their scores. */
  lemma {:induction false} PrunedSpec(recs: map<string, map<string, real>>, current: set<string>)
    ensures Pruned(recs, current).Keys == recs.Keys
    ensures forall u :: u in recs ==> Pruned(recs, current)[u].Keys == recs[u].Keys * current
    ensures forall u, k :: u in recs && k in Pruned(recs, current)[u] ==> Pruned(recs, current)[u][k] == recs[u][k]
  {
    forall u | u in recs ensures Pruned(recs, current)[u].Keys == recs[u].Keys * current {
      PrunedKeys(recs, u, current);
    }
  }

  /** Pruning leaves recommended exactly the ids that were recommended and are current, so pruning
      again with the same ids changes nothing. */
  lemma {:induction false} PrunedRecommended(recs: map<string, map<string, real>>, current: set<string>)
    ensures RecommendedEvents(Pruned(recs, current)) == RecommendedEvents(recs) * current
    ensures Pruned(Pruned(recs, current), current) == Pruned(recs, current)
  {
    var p := Pruned(recs, current);
    PrunedSpec(recs, current);
    forall e | e in RecommendedEvents(p) ensures e in RecommendedEvents(recs) * current {
      var u :| u in p && e in p[u];
      assert e in recs[u];
    }
    forall e | e in RecommendedEvents(recs) * current ensures e in RecommendedEvents(p) {
      var u :| u in recs && e in recs[u];
      assert e in p[u];
    }
    PrunedSpec(p, current);
    forall u | u in p ensures Pruned(p, current)[u] == p[u] {
      assert Pruned(p, current)[u].Keys == p[u].Keys;
    }
  }

  /** Deleting the recommended ids that are not current leaves a user the current ids it had. */
  lemma {:induction false} PrunedKeys(recs: map<string, map<string, real>>, u: string, current: set<string>)
    requires u in recs
    ensures (recs[u] - (RecommendedEvents(recs) - current)).Keys == recs[u].Keys * current
  {
    forall k | k in recs[u] ensures k in RecommendedEvents(recs) {
      assert u in recs && k in recs[u];
    }
  }
}
