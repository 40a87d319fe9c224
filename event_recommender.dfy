/** The older recommender class (`EventRecommender` in scripts/implicit_models.py): it numbers a
    user-event frame in place, keeps plain dictionaries in both directions for users and events,
    builds both click matrices and a model at construction, and then answers queries from a table
    of prepared recommendations. */
module EventRecommenders {
  import opened Common
  import opened Sparse
  import opened Numbering
  import opened Recs
  import Recommenders

  /** The model built at construction: `AlternatingLeastSquares(factors=20, regularization=0.1,
      iterations=20)` fitted on the event-user matrix times 15, or
      `BayesianPersonalizedRanking(factors=60)` fitted on the matrix itself. */
  datatype EventModel =
    | Als(factors: int, regularization: real, iterations: int, numThreads: int, fittedOn: Matrix)
    | Bpr(factors: int, numThreads: int, fittedOn: Matrix)

  /** `model.recommend(user_num, sparse_user_event, N=..., filter_items=...)`, a parameter: the
      ranking belongs to the `implicit` library. */
  type Recommend = (EventModel, int, Matrix, Option<seq<int>>, int) -> seq<(int, real)>

  /** `(code, id)` for every row: a code column zipped with an id column. */
  function Zip<T>(codes: seq<int>, ids: seq<T>): (r: seq<(int, T)>)
    requires |codes| == |ids|
    ensures |r| == |ids|
  {
    if ids == [] then [] else [(codes[0], ids[0])] + Zip(codes[1..], ids[1..])
  }

  lemma {:induction false} ZipAt<T>(codes: seq<int>, ids: seq<T>, i: nat)
    requires |codes| == |ids| && i < |ids|
    ensures Zip(codes, ids)[i] == (codes[i], ids[i])
  {
    if i > 0 {
      ZipAt(codes[1..], ids[1..], i - 1);
    }
  }

  function UserIdColumn(rows: seq<UserEvent>): (c: seq<string>)
    ensures |c| == |rows|
  {
    if rows == [] then [] else [rows[0].userId] + UserIdColumn(rows[1..])
  }

  function EventIdColumn(rows: seq<UserEvent>): (c: seq<int>)
    ensures |c| == |rows|
  {
    if rows == [] then [] else [rows[0].eventId] + EventIdColumn(rows[1..])
  }

  /** `clicks_count.astype(float)`. */
  function Clicks(rows: seq<UserEvent>): (c: seq<real>)
    ensures |c| == |rows|
  {
    if rows == [] then [] else [rows[0].clicks as real] + Clicks(rows[1..])
  }

  lemma {:induction false} ColumnsAt(rows: seq<UserEvent>, i: nat)
    requires i < |rows|
    ensures UserIdColumn(rows)[i] == rows[i].userId && EventIdColumn(rows)[i] == rows[i].eventId
  {
    if i > 0 {
      ColumnsAt(rows[1..], i - 1);
    }
  }

  /** `user_number_per_id`: `dict(zip(user_num, user_id))` over the distinct `(user_num, user_id)`
      rows, in order of first occurrence. */
  function UserNumberPerId(rows: seq<UserEvent>, userNum: seq<int>): ODict<int, string>
    requires |userNum| == |rows|
  {
    FromPairs(Distinct(Zip(userNum, UserIdColumn(rows))))
  }

  /** `user_id_per_number`: `dict(zip(user_id, user_num))` over the same rows. */
  function UserIdPerNumber(rows: seq<UserEvent>, userNum: seq<int>): map<string, int>
    requires |userNum| == |rows|
  {
    FromPairs(Swapped(Distinct(Zip(userNum, UserIdColumn(rows))))).m
  }

  /** `event_number_per_id`: event code to event id. */
  function EventNumberPerId(rows: seq<UserEvent>, eventNum: seq<int>): map<int, int>
    requires |eventNum| == |rows|
  {
    FromPairs(Distinct(Zip(eventNum, EventIdColumn(rows)))).m
  }

  /** `event_id_per_number`: event id to event code. */
  function EventIdPerNumber(rows: seq<UserEvent>, eventNum: seq<int>): map<int, int>
    requires |eventNum| == |rows|
  {
    FromPairs(Swapped(Distinct(Zip(eventNum, EventIdColumn(rows))))).m
  }

  /** A code column pairs codes with ids one-to-one: equal codes exactly on equal ids. */
  ghost predicate OneToOne<T>(codes: seq<int>, ids: seq<T>)
    requires |codes| == |ids|
  {
    forall i, j :: 0 <= i < |ids| && 0 <= j < |ids| ==> (codes[i] == codes[j] <==> ids[i] == ids[j])
  }

  /** The distinct `(code, id)` pairs of a one-to-one column are one-to-one, and their ids are the
      ids of the column. */
  lemma {:induction false} DistinctZipOneToOne<T(!new)>(codes: seq<int>, ids: seq<T>)
    requires |codes| == |ids| && OneToOne(codes, ids)
    ensures PairsOneToOne(Distinct(Zip(codes, ids)))
    ensures forall x :: (exists k :: 0 <= k < |Distinct(Zip(codes, ids))| && Distinct(Zip(codes, ids))[k].1 == x) <==> x in ids
  {
    var z := Zip(codes, ids);
    var d := Distinct(z);
    forall i | 0 <= i < |ids| ensures z[i] == (codes[i], ids[i]) {
      ZipAt(codes, ids, i);
    }
    assert PairsOneToOne(z);
    forall k, l | 0 <= k < |d| && 0 <= l < |d| ensures d[k].0 == d[l].0 <==> d[k].1 == d[l].1 {
      assert d[k] in z && d[l] in z;
    }
    forall x ensures (exists k :: 0 <= k < |d| && d[k].1 == x) <==> x in ids {
      if x in ids {
        var i :| 0 <= i < |ids| && ids[i] == x;
        assert z[i] in d;
      }
      if exists k :: 0 <= k < |d| && d[k].1 == x {
        var k :| 0 <= k < |d| && d[k].1 == x;
        assert d[k] in z;
      }
    }
  }

  /** For a one-to-one code column, the dictionary from codes to ids and the one from ids to codes
      are inverse to each other, and the ids they know are exactly the ids of the column. */
  lemma {:induction false} CodeDictsInverse<T(!new)>(codes: seq<int>, ids: seq<T>)
    requires |codes| == |ids| && OneToOne(codes, ids)
    ensures var toId, toCode := FromPairs(Distinct(Zip(codes, ids))).m, FromPairs(Swapped(Distinct(Zip(codes, ids)))).m;
            && (forall x :: x in toCode <==> x in ids)
            && (forall x :: x in toCode ==> toCode[x] in toId && toId[toCode[x]] == x)
            && (forall c :: c in toId ==> toId[c] in toCode && toCode[toId[c]] == c)
  {
    DistinctZipOneToOne(codes, ids);
    FromPairsInverse(Distinct(Zip(codes, ids)));
  }

  /** On a numbered frame the user code column pairs codes with user ids one-to-one, and the
      column holds exactly the frame's users. */
  lemma {:induction false} UserColumnOneToOne(rows: seq<UserEvent>)
    ensures OneToOne(UserCodes(rows), UserIdColumn(rows))
    ensures forall u :: u in UserIdColumn(rows) <==> u in UserIds(rows)
  {
    var users := UserIdColumn(rows);
    CodesNumberIds(rows);
    forall i | 0 <= i < |rows| ensures users[i] == rows[i].userId {
      ColumnsAt(rows, i);
    }
    forall u ensures u in users <==> u in UserIds(rows) {
      if u in users {
        var i :| 0 <= i < |users| && users[i] == u;
      }
    }
  }

  /** The same for the event code column. */
  lemma {:induction false} EventColumnOneToOne(rows: seq<UserEvent>)
    ensures OneToOne(EventCodes(rows), EventIdColumn(rows))
    ensures forall e :: e in EventIdColumn(rows) <==> e in EventIds(rows)
  {
    var events := EventIdColumn(rows);
    CodesNumberIds(rows);
    forall i | 0 <= i < |rows| ensures events[i] == rows[i].eventId {
      ColumnsAt(rows, i);
    }
    forall e ensures e in events <==> e in EventIds(rows) {
      if e in events {
        var i :| 0 <= i < |events| && events[i] == e;
      }
    }
  }

  /** On a numbered frame, `user_number_per_id` and `user_id_per_number` are mutual inverses and
      know exactly the frame's users. */
  lemma {:induction false} UserDictsInverse(rows: seq<UserEvent>)
    ensures var toId, toNum := UserNumberPerId(rows, UserCodes(rows)).m, UserIdPerNumber(rows, UserCodes(rows));
            && (forall u :: u in toNum <==> u in UserIds(rows))
            && (forall u :: u in toNum ==> toNum[u] in toId && toId[toNum[u]] == u)
            && (forall c :: c in toId ==> toId[c] in toNum && toNum[toId[c]] == c)
  {
    UserColumnOneToOne(rows);
    CodeDictsInverse(UserCodes(rows), UserIdColumn(rows));
  }

  /** On a numbered frame, `event_number_per_id` and `event_id_per_number` are mutual inverses and
      know exactly the frame's events. */
  lemma {:induction false} EventDictsInverse(rows: seq<UserEvent>)
    ensures var toId, toNum := EventNumberPerId(rows, EventCodes(rows)), EventIdPerNumber(rows, EventCodes(rows));
            && (forall e :: e in toNum <==> e in EventIds(rows))
            && (forall e :: e in toNum ==> toNum[e] in toId && toId[toNum[e]] == e)
            && (forall c :: c in toId ==> toId[c] in toNum && toNum[toId[c]] == c)
  {
    EventColumnOneToOne(rows);
    CodeDictsInverse(EventCodes(rows), EventIdColumn(rows));
  }

  /** `sparse_event_user`: clicks at `(event_num, user_num)`. */
  function EventUserMatrix(rows: seq<UserEvent>, userNum: seq<int>, eventNum: seq<int>): Result<Matrix>
    requires |userNum| == |rows| && |eventNum| == |rows|
  {
    FromTriples(Clicks(rows), eventNum, userNum)
  }

  /** `sparse_user_event`: clicks at `(user_num, event_num)`. */
  function UserEventMatrix(rows: seq<UserEvent>, userNum: seq<int>, eventNum: seq<int>): Result<Matrix>
    requires |userNum| == |rows| && |eventNum| == |rows|
  {
    FromTriples(Clicks(rows), userNum, eventNum)
  }

  /** The model `model_name` selects, fitted on the event-user matrix; any other name raises. */
  function ModelFor(modelName: string, numOfThreads: int, eventUser: Matrix): (r: Result<EventModel>)
    ensures r.Ok? <==> modelName == "als" || modelName == "bpr"
    ensures r.Err? ==> r.error == ValueError
    ensures modelName == "als" ==> r == Ok(Als(20, 0.1, 20, numOfThreads, Scale(eventUser, 15.0)))
    ensures modelName == "bpr" ==> r == Ok(Bpr(60, numOfThreads, eventUser))
  {
    if modelName == "als" then Ok(Als(20, 0.1, 20, numOfThreads, Scale(eventUser, 15.0)))
    else if modelName == "bpr" then Ok(Bpr(60, numOfThreads, eventUser))
    else Err(ValueError)
  }

  /** The exception the constructor raises after numbering, in the order of its steps: an unknown
      excluded event id, then a matrix that cannot be built, then an unknown model name. */
  function InitError(rows: seq<UserEvent>, userNum: seq<int>, eventNum: seq<int>,
                     extra: Option<seq<int>>, modelName: string): Option<Error>
    requires |userNum| == |rows| && |eventNum| == |rows|
  {
    var eventUser := EventUserMatrix(rows, userNum, eventNum);
    if extra.Some? && Recommenders.ItemNumbers(extra.value, EventIdPerNumber(rows, eventNum)).Err? then Some(KeyError)
    else if eventUser.Err? then Some(eventUser.error)
    else if modelName != "als" && modelName != "bpr" then Some(ValueError)
    else None
  }

  /** The codes of a numbered frame are non-negative. */
  lemma {:induction false} CodesNonNegative(rows: seq<UserEvent>)
    ensures AllNonNegative(UserCodes(rows)) && AllNonNegative(EventCodes(rows))
  {
  }

  /** On a numbered frame the ids `event_id_per_number` knows are exactly the frame's events. */
  lemma {:induction false} EventIdPerNumberKeys(rows: seq<UserEvent>)
    ensures forall e :: e in EventIdPerNumber(rows, EventCodes(rows)) <==> e in EventIds(rows)
  {
    var events := EventIdColumn(rows);
    EventColumnOneToOne(rows);
    DistinctZipOneToOne(EventCodes(rows), events);
    forall e ensures e in EventIdPerNumber(rows, EventCodes(rows)) <==> e in EventIds(rows) {
      FromPairsInverseAt(Distinct(Zip(EventCodes(rows), events)), e);
    }
  }

  /** Excluded ids translate through a dictionary that knows exactly `ids` when each is in `ids`. */
  lemma {:induction false} ExtraKnown(extra: seq<int>, toNum: map<int, int>, ids: set<int>)
    requires forall e :: e in toNum <==> e in ids
    ensures Recommenders.ItemNumbers(extra, toNum).Ok? <==> forall i :: 0 <= i < |extra| ==> extra[i] in ids
  {
    if Recommenders.ItemNumbers(extra, toNum).Err? {
      var i :| 0 <= i < |extra| && extra[i] !in toNum;
      var x := extra[i];
      assert x !in ids;
    } else {
      forall i | 0 <= i < |extra| ensures extra[i] in ids {
        var x := extra[i];
        assert x in toNum;
      }
    }
  }

  /** On a numbered frame the excluded ids translate exactly when each is an event of the frame. */
  lemma {:induction false} ExtraKnownOfNumbered(rows: seq<UserEvent>, extra: seq<int>)
    ensures Recommenders.ItemNumbers(extra, EventIdPerNumber(rows, EventCodes(rows))).Ok? <==>
              forall i :: 0 <= i < |extra| ==> extra[i] in EventIds(rows)
  {
    EventIdPerNumberKeys(rows);
    ExtraKnown(extra, EventIdPerNumber(rows, EventCodes(rows)), EventIds(rows));
  }

  /** On a numbered frame the click matrices can be built exactly when the frame has a row. */
  lemma {:induction false} MatricesOfNumbered(rows: seq<UserEvent>)
    ensures EventUserMatrix(rows, UserCodes(rows), EventCodes(rows)).Ok? <==> rows != []
    ensures UserEventMatrix(rows, UserCodes(rows), EventCodes(rows)).Ok? <==> rows != []
  {
    CodesNonNegative(rows);
  }

  /** On a numbered frame the constructor succeeds exactly when every excluded id is an event of the
      frame, the frame has a row, and the model name is `'als'` or `'bpr'`. */
  lemma {:induction false} InitErrorOfNumbered(rows: seq<UserEvent>, extra: Option<seq<int>>, modelName: string)
    ensures InitError(rows, UserCodes(rows), EventCodes(rows), extra, modelName).None? <==>
              && (extra.Some? ==> forall i :: 0 <= i < |extra.value| ==> extra.value[i] in EventIds(rows))
              && rows != []
              && (modelName == "als" || modelName == "bpr")
  {
    if extra.Some? {
      ExtraKnownOfNumbered(rows, extra.value);
    }
    MatricesOfNumbered(rows);
  }

  /** The rows `prepare_recommendations` builds for the user numbered `userNum` from the model's
      `(event_num, score)` pairs: `[user_number_per_id[user_num], event_number_per_id[event_num],
      score]` for each pair, in order. The lookups are not guarded: a number missing from either
      dictionary raises KeyError (the user's number is looked up once per pair, so a user with no
      pairs raises nothing). */
  function PairRows(toId: map<int, string>, toEvent: map<int, int>, userNum: int,
                    recommended: seq<(int, real)>): (r: Result<seq<RecRow>>)
    ensures r.Err? ==> r.error == KeyError
    ensures r.Ok? ==> |r.value| == |recommended|
  {
    if recommended == [] then Ok([])
    else
      var prev := PairRows(toId, toEvent, userNum, recommended[..|recommended| - 1]);
      var (num, score) := recommended[|recommended| - 1];
      if prev.Err? then prev
      else if userNum !in toId || num !in toEvent then Err(KeyError)
      else Ok(prev.value + [RecRow(toId[userNum], toEvent[num], score)])
  }

  /** The rows fail exactly when a pair's number, or (when there is a pair) the user's number, is
      unknown; otherwise row `i` translates pair `i`. */
  lemma {:induction false} PairRowsSpec(toId: map<int, string>, toEvent: map<int, int>, userNum: int,
                                        recommended: seq<(int, real)>)
    ensures PairRows(toId, toEvent, userNum, recommended).Err? <==>
              recommended != [] && (userNum !in toId || exists i :: 0 <= i < |recommended| && recommended[i].0 !in toEvent)
    ensures PairRows(toId, toEvent, userNum, recommended).Ok? ==>
              forall i :: 0 <= i < |recommended| ==>
                PairRows(toId, toEvent, userNum, recommended).value[i] ==
                RecRow(toId[userNum], toEvent[recommended[i].0], recommended[i].1)
  {
    if recommended != [] {
      var init := recommended[..|recommended| - 1];
      PairRowsSpec(toId, toEvent, userNum, init);
      assert forall i :: 0 <= i < |init| ==> recommended[i] == init[i];
    }
  }

  /** Extending the model's list by one pair. */
  lemma {:induction false} PairRowsSnoc(toId: map<int, string>, toEvent: map<int, int>, userNum: int,
                     recommended: seq<(int, real)>, x: (int, real))
    ensures var prev := PairRows(toId, toEvent, userNum, recommended);
            PairRows(toId, toEvent, userNum, recommended + [x]) ==
            if prev.Err? then prev
            else if userNum !in toId || x.0 !in toEvent then Err(KeyError)
            else Ok(prev.value + [RecRow(toId[userNum], toEvent[x.0], x.1)])
  {
    assert (recommended + [x])[..|recommended|] == recommended;
  }

  /** A failing prefix makes the whole list fail. */
  lemma {:induction false} PairRowsErrPrefix(toId: map<int, string>, toEvent: map<int, int>, userNum: int,
                          recommended: seq<(int, real)>, j: nat)
    requires j <= |recommended| && PairRows(toId, toEvent, userNum, recommended[..j]).Err?
    ensures PairRows(toId, toEvent, userNum, recommended).Err?
  {
    var pre := recommended[..j];
    PairRowsSpec(toId, toEvent, userNum, pre);
    PairRowsSpec(toId, toEvent, userNum, recommended);
    if userNum in toId {
      var i :| 0 <= i < |pre| && pre[i].0 !in toEvent;
      assert recommended[i] == pre[i];
    }
  }

  /** The table `prepare_recommendations` builds for the users numbered `0..n-1`: each user's rows
      from the model's default ten pairs, user after user; the first unknown number raises KeyError. */
  function PreparedRows(toId: map<int, string>, toEvent: map<int, int>, recommend: Recommend,
                        model: EventModel, userEvent: Matrix, extra: Option<seq<int>>, n: nat): (r: Result<seq<RecRow>>)
    ensures r.Err? ==> r.error == KeyError
  {
    if n == 0 then Ok([])
    else
      var prev := PreparedRows(toId, toEvent, recommend, model, userEvent, extra, n - 1);
      var rows := PairRows(toId, toEvent, n - 1, recommend(model, n - 1, userEvent, extra, 10));
      if prev.Err? then prev
      else if rows.Err? then rows
      else Ok(prev.value + rows.value)
  }

  /** The table is built exactly when every user's pairs translate. */
  lemma {:induction false} PreparedRowsOk(toId: map<int, string>, toEvent: map<int, int>, recommend: Recommend,
                                          model: EventModel, userEvent: Matrix, extra: Option<seq<int>>, n: nat)
    ensures PreparedRows(toId, toEvent, recommend, model, userEvent, extra, n).Ok? <==>
              forall u :: 0 <= u < n ==> PairRows(toId, toEvent, u, recommend(model, u, userEvent, extra, 10)).Ok?
  {
    if n > 0 {
      PreparedRowsOk(toId, toEvent, recommend, model, userEvent, extra, n - 1);
    }
  }

  /** A built table holds exactly the translated rows of all the users. */
  lemma {:induction false} PreparedRowsMembers(toId: map<int, string>, toEvent: map<int, int>, recommend: Recommend,
                                               model: EventModel, userEvent: Matrix, extra: Option<seq<int>>, n: nat)
    requires PreparedRows(toId, toEvent, recommend, model, userEvent, extra, n).Ok?
    ensures forall x :: x in PreparedRows(toId, toEvent, recommend, model, userEvent, extra, n).value <==>
              exists u :: 0 <= u < n && PairRows(toId, toEvent, u, recommend(model, u, userEvent, extra, 10)).Ok? &&
                          x in PairRows(toId, toEvent, u, recommend(model, u, userEvent, extra, 10)).value
  {
    if n > 0 {
      PreparedRowsMembers(toId, toEvent, recommend, model, userEvent, extra, n - 1);
    }
  }

  /** On a numbered frame the user numbers `user_number_per_id` knows are the codes `0..k-1`, `k`
      the number of distinct users: one number at a time. */
  lemma {:induction false} UserNumberKnown(rows: seq<UserEvent>, u: int)
    ensures u in UserNumberPerId(rows, UserCodes(rows)).m <==> 0 <= u < |UserIds(rows)|
  {
    var codes := UserCodes(rows);
    var z := Zip(codes, UserIdColumn(rows));
    var ps := Distinct(z);
    var d := FromPairs(ps);
    if u in d.m {
      var j :| 0 <= j < |ps| && ps[j].0 == u;
      var p := ps[j];
      assert p in z;
      var i :| 0 <= i < |rows| && z[i] == p;
      ZipAt(codes, UserIdColumn(rows), i);
      CodesNumberIds(rows);
      assert codes[i] == u;
    }
    if 0 <= u < |UserIds(rows)| {
      UserCodesOnto(rows, u);
      var i :| 0 <= i < |rows| && codes[i] == u;
      ZipAt(codes, UserIdColumn(rows), i);
      var p := z[i];
      assert p in ps;
      var j :| 0 <= j < |ps| && ps[j] == p;
    }
  }

  /** On a numbered frame, `range(len(user_number_per_id))` runs over exactly the user numbers the
      dictionary knows. */
  lemma {:induction false} UserNumbersCovered(rows: seq<UserEvent>)
    ensures |UserNumberPerId(rows, UserCodes(rows)).keys| == |UserIds(rows)|
    ensures forall u :: u in UserNumberPerId(rows, UserCodes(rows)).m <==> 0 <= u < |UserIds(rows)|
  {
    var d := UserNumberPerId(rows, UserCodes(rows));
    var k := |UserIds(rows)|;
    forall u ensures u in d.m <==> u in Range(k) {
      UserNumberKnown(rows, u);
    }
    ODictSize(d, Range(k));
    RangeCard(k);
  }

  /** The model names only event numbers `toEvent` knows for the users `0..k-1`. */
  predicate NamesKnownEvents(recommend: Recommend, model: EventModel, userEvent: Matrix, extra: Option<seq<int>>,
                             toEvent: map<int, int>, k: nat)
  {
    forall u, i :: 0 <= u < k && 0 <= i < |recommend(model, u, userEvent, extra, 10)| ==>
      recommend(model, u, userEvent, extra, 10)[i].0 in toEvent
  }

  /** On a numbered frame the table is built exactly when the model names only known event numbers
      for the users `0..k-1`. */
  lemma {:induction false} PreparedOkOfNumbered(rows: seq<UserEvent>, recommend: Recommend, model: EventModel,
                                                userEvent: Matrix, extra: Option<seq<int>>)
    ensures PreparedRows(UserNumberPerId(rows, UserCodes(rows)).m, EventNumberPerId(rows, EventCodes(rows)),
                         recommend, model, userEvent, extra, |UserIds(rows)|).Ok? <==>
            NamesKnownEvents(recommend, model, userEvent, extra, EventNumberPerId(rows, EventCodes(rows)), |UserIds(rows)|)
  {
    UserNumbersCovered(rows);
    PreparedOkOfKnownUsers(UserNumberPerId(rows, UserCodes(rows)).m, EventNumberPerId(rows, EventCodes(rows)),
                           recommend, model, userEvent, extra, |UserIds(rows)|);
  }

  /** When the users `0..k-1` are all known, the table is built exactly when the model names only
      known event numbers for them. */
  lemma {:induction false} PreparedOkOfKnownUsers(toId: map<int, string>, toEvent: map<int, int>, recommend: Recommend,
                                                  model: EventModel, userEvent: Matrix, extra: Option<seq<int>>, k: nat)
    requires forall u :: 0 <= u < k ==> u in toId
    ensures PreparedRows(toId, toEvent, recommend, model, userEvent, extra, k).Ok? <==>
            NamesKnownEvents(recommend, model, userEvent, extra, toEvent, k)
  {
    PreparedRowsOk(toId, toEvent, recommend, model, userEvent, extra, k);
    forall u | 0 <= u < k
      ensures PairRows(toId, toEvent, u, recommend(model, u, userEvent, extra, 10)).Ok? <==>
              forall i :: 0 <= i < |recommend(model, u, userEvent, extra, 10)| ==>
                recommend(model, u, userEvent, extra, 10)[i].0 in toEvent
    {
      PairRowsSpec(toId, toEvent, u, recommend(model, u, userEvent, extra, 10));
    }
  }

  /** On a numbered frame every row of a built table names a user and an event of the frame. */
  lemma {:induction false} PreparedRowsOfNumbered(rows: seq<UserEvent>, recommend: Recommend, model: EventModel,
                               userEvent: Matrix, extra: Option<seq<int>>, n: nat)
    requires PreparedRows(UserNumberPerId(rows, UserCodes(rows)).m, EventNumberPerId(rows, EventCodes(rows)),
                          recommend, model, userEvent, extra, n).Ok?
    ensures forall x :: x in PreparedRows(UserNumberPerId(rows, UserCodes(rows)).m, EventNumberPerId(rows, EventCodes(rows)),
                                          recommend, model, userEvent, extra, n).value ==>
              x.userId in UserIds(rows) && x.itemId in EventIds(rows)
  {
    var toId, toEvent := UserNumberPerId(rows, UserCodes(rows)).m, EventNumberPerId(rows, EventCodes(rows));
    PreparedRowsMembers(toId, toEvent, recommend, model, userEvent, extra, n);
    forall x | x in PreparedRows(toId, toEvent, recommend, model, userEvent, extra, n).value
      ensures x.userId in UserIds(rows) && x.itemId in EventIds(rows)
    {
      var u :| 0 <= u < n && PairRows(toId, toEvent, u, recommend(model, u, userEvent, extra, 10)).Ok? &&
               x in PairRows(toId, toEvent, u, recommend(model, u, userEvent, extra, 10)).value;
      TranslatedRowKnown(rows, u, recommend(model, u, userEvent, extra, 10), x);
    }
  }

  /** The rows translated for a known user number are about that user and fail exactly on an
      unknown event number. */
  lemma {:induction false} QuickRowsOfKnownUser(rows: seq<UserEvent>, c: int, userId: string, recommended: seq<(int, real)>)
    requires c in UserNumberPerId(rows, UserCodes(rows)).m && UserNumberPerId(rows, UserCodes(rows)).m[c] == userId
    ensures PairRows(UserNumberPerId(rows, UserCodes(rows)).m, EventNumberPerId(rows, EventCodes(rows)), c, recommended).Err? <==>
            exists i :: 0 <= i < |recommended| && recommended[i].0 !in EventNumberPerId(rows, EventCodes(rows))
    ensures PairRows(UserNumberPerId(rows, UserCodes(rows)).m, EventNumberPerId(rows, EventCodes(rows)), c, recommended).Ok? ==>
            forall x :: x in PairRows(UserNumberPerId(rows, UserCodes(rows)).m, EventNumberPerId(rows, EventCodes(rows)), c, recommended).value ==>
              x.userId == userId && x.itemId in EventIds(rows)
  {
    var toId, toEvent := UserNumberPerId(rows, UserCodes(rows)).m, EventNumberPerId(rows, EventCodes(rows));
    var r := PairRows(toId, toEvent, c, recommended);
    PairRowsSpec(toId, toEvent, c, recommended);
    if r.Ok? {
      forall x | x in r.value ensures x.userId == userId && x.itemId in EventIds(rows) {
        TranslatedRowKnown(rows, c, recommended, x);
        var i :| 0 <= i < |r.value| && r.value[i] == x;
      }
    }
  }

  /** A row translated through the dictionaries of a numbered frame names a user and an event of
      the frame. */
  lemma {:induction false} TranslatedRowKnown(rows: seq<UserEvent>, u: int, recommended: seq<(int, real)>, x: RecRow)
    requires PairRows(UserNumberPerId(rows, UserCodes(rows)).m, EventNumberPerId(rows, EventCodes(rows)), u, recommended).Ok?
    requires x in PairRows(UserNumberPerId(rows, UserCodes(rows)).m, EventNumberPerId(rows, EventCodes(rows)), u, recommended).value
    ensures x.userId in UserIds(rows) && x.itemId in EventIds(rows)
  {
    var toId, toEvent := UserNumberPerId(rows, UserCodes(rows)).m, EventNumberPerId(rows, EventCodes(rows));
    var out := PairRows(toId, toEvent, u, recommended).value;
    PairRowsSpec(toId, toEvent, u, recommended);
    var i :| 0 <= i < |out| && out[i] == x;
    UserDictsInverse(rows);
    EventDictsInverse(rows);
    var c := recommended[i].0;
    assert x.userId == toId[u] && x.itemId == toEvent[c];
  }

  /** Once a user's rows fail, every longer table fails too. */
  lemma {:induction false} PreparedRowsErrLater(toId: map<int, string>, toEvent: map<int, int>, recommend: Recommend,
                                                model: EventModel, userEvent: Matrix, extra: Option<seq<int>>, k: nat, n: nat)
    requires k <= n && PreparedRows(toId, toEvent, recommend, model, userEvent, extra, k).Err?
    ensures PreparedRows(toId, toEvent, recommend, model, userEvent, extra, n).Err?
  {
    if k < n {
      PreparedRowsErrLater(toId, toEvent, recommend, model, userEvent, extra, k, n - 1);
    }
  }

  /** `EventRecommender`: the frame it numbered, the four dictionaries, the excluded event numbers,
      both click matrices and the fitted model are fixed at construction; only the table of prepared
      recommendations changes afterwards. */
  class EventRecommender {
    const userEvent: UserEventFrame
    /** The frame's rows when it was numbered: what every other attribute is derived from. */
    ghost const frameRows: seq<UserEvent>
    const userNumberPerId: ODict<int, string>
    const userIdPerNumber: map<string, int>
    const eventNumberPerId: map<int, int>
    const eventIdPerNumber: map<int, int>
    const extraEventIds: Option<seq<int>>
    const sparseEventUser: Matrix
    const sparseUserEvent: Matrix
    const model: EventModel
    var recommendations: Option<seq<RecRow>>

    constructor (userEvent: UserEventFrame, ghost frameRows: seq<UserEvent>,
                 userNumberPerId: ODict<int, string>, userIdPerNumber: map<string, int>,
                 eventNumberPerId: map<int, int>, eventIdPerNumber: map<int, int>,
                 extraEventIds: Option<seq<int>>, sparseEventUser: Matrix, sparseUserEvent: Matrix,
                 model: EventModel)
      ensures this.userEvent == userEvent && this.frameRows == frameRows
      ensures this.userNumberPerId == userNumberPerId && this.userIdPerNumber == userIdPerNumber
      ensures this.eventNumberPerId == eventNumberPerId && this.eventIdPerNumber == eventIdPerNumber
      ensures this.extraEventIds == extraEventIds
      ensures this.sparseEventUser == sparseEventUser && this.sparseUserEvent == sparseUserEvent
      ensures this.model == model && recommendations.None?
    {
      this.userEvent := userEvent;
      this.frameRows := frameRows;
      this.userNumberPerId := userNumberPerId;
      this.userIdPerNumber := userIdPerNumber;
      this.eventNumberPerId := eventNumberPerId;
      this.eventIdPerNumber := eventIdPerNumber;
      this.extraEventIds := extraEventIds;
      this.sparseEventUser := sparseEventUser;
      this.sparseUserEvent := sparseUserEvent;
      this.model := model;
      recommendations := None;
    }

    /** The attributes are the ones `__init__` derives from the numbered frame. */
    ghost predicate Valid() {
      && userNumberPerId == UserNumberPerId(frameRows, UserCodes(frameRows))
      && userIdPerNumber == UserIdPerNumber(frameRows, UserCodes(frameRows))
      && eventNumberPerId == EventNumberPerId(frameRows, EventCodes(frameRows))
      && eventIdPerNumber == EventIdPerNumber(frameRows, EventCodes(frameRows))
      && EventUserMatrix(frameRows, UserCodes(frameRows), EventCodes(frameRows)) == Ok(sparseEventUser)
      && UserEventMatrix(frameRows, UserCodes(frameRows), EventCodes(frameRows)) == Ok(sparseUserEvent)
    }

    /** The inner loop shared by `prepare_recommendations` and `get_quick_user_recommendation`:
        the model's `(event_num, score)` pairs become rows `[user_id, event_id, score]`. */
    method TranslatePairs(userNum: int, recommended: seq<(int, real)>) returns (r: Result<seq<RecRow>>)
      ensures r == PairRows(userNumberPerId.m, eventNumberPerId, userNum, recommended)
    {
      var acc: seq<RecRow> := [];
      var j := 0;
      while j < |recommended|
        invariant 0 <= j <= |recommended|
        invariant PairRows(userNumberPerId.m, eventNumberPerId, userNum, recommended[..j]) == Ok(acc)
      {
        var (eventNum, score) := recommended[j];
        assert recommended[..j + 1] == recommended[..j] + [recommended[j]];
        PairRowsSnoc(userNumberPerId.m, eventNumberPerId, userNum, recommended[..j], recommended[j]);
        if userNum !in userNumberPerId.m || eventNum !in eventNumberPerId {
          PairRowsErrPrefix(userNumberPerId.m, eventNumberPerId, userNum, recommended, j + 1);
          PairRowsSpec(userNumberPerId.m, eventNumberPerId, userNum, recommended);
          return Err(KeyError);
        }
        acc := acc + [RecRow(userNumberPerId.m[userNum], eventNumberPerId[eventNum], score)];
        j := j + 1;
      }
      assert recommended[..j] == recommended;
      r := Ok(acc);
    }

    /** `prepare_recommendations`: the rows of the users `0..len(user_number_per_id)-1`, user after
        user. A KeyError ends the call and leaves the table as it was; otherwise the table is set. */
    method PrepareRecommendations(recommend: Recommend) returns (err: Option<Error>)
      modifies this`recommendations
      ensures var p := PreparedRows(userNumberPerId.m, eventNumberPerId, recommend, model, sparseUserEvent,
                                    extraEventIds, |userNumberPerId.keys|);
              && (err.None? <==> p.Ok?)
              && (err.Some? ==> err == Some(KeyError) && recommendations == old(recommendations))
              && (p.Ok? ==> recommendations == Some(p.value))
    {
      var n := |userNumberPerId.keys|;
      var acc: seq<RecRow> := [];
      var u := 0;
      while u < n
        invariant 0 <= u <= n && recommendations == old(recommendations)
        invariant PreparedRows(userNumberPerId.m, eventNumberPerId, recommend, model, sparseUserEvent,
                               extraEventIds, u) == Ok(acc)
      {
        var recommended := recommend(model, u, sparseUserEvent, extraEventIds, 10);
        var rows := TranslatePairs(u, recommended);
        if rows.Err? {
          PreparedRowsErrLater(userNumberPerId.m, eventNumberPerId, recommend, model, sparseUserEvent,
                               extraEventIds, u + 1, n);
          return Some(KeyError);
        }
        acc := acc + rows.value;
        u := u + 1;
      }
      recommendations := Some(acc);
      err := None;
    }

    /** `get_quick_user_recommendation`: the model's best `number` events for one user, translated;
        an unknown user id raises KeyError. */
    method GetQuickUserRecommendation(userId: string, number: int, recommend: Recommend)
      returns (r: Result<seq<RecRow>>)
      ensures userId !in userIdPerNumber ==> r == Err(KeyError)
      ensures userId in userIdPerNumber ==>
                r == PairRows(userNumberPerId.m, eventNumberPerId, userIdPerNumber[userId],
                              recommend(model, userIdPerNumber[userId], sparseUserEvent, extraEventIds, number))
    {
      if userId !in userIdPerNumber {
        return Err(KeyError);
      }
      var userNum := userIdPerNumber[userId];
      var recommended := recommend(model, userNum, sparseUserEvent, extraEventIds, number);
      r := TranslatePairs(userNum, recommended);
    }

    /** On a valid recommender a user of the frame is known, and the quick recommendation fails
        exactly when the model names an unknown event number; otherwise every row is about that
        user and names an event of the frame. */
    lemma {:induction false} QuickRowsOfUser(userId: string, recommended: seq<(int, real)>)
      requires Valid() && userId in UserIds(frameRows)
      ensures userId in userIdPerNumber
      ensures PairRows(userNumberPerId.m, eventNumberPerId, userIdPerNumber[userId], recommended).Err? <==>
              exists i :: 0 <= i < |recommended| && recommended[i].0 !in eventNumberPerId
      ensures PairRows(userNumberPerId.m, eventNumberPerId, userIdPerNumber[userId], recommended).Ok? ==>
              forall x :: x in PairRows(userNumberPerId.m, eventNumberPerId, userIdPerNumber[userId], recommended).value ==>
                x.userId == userId && x.itemId in EventIds(frameRows)
    {
      UserDictsInverse(frameRows);
      var c := userIdPerNumber[userId];
      assert c in userNumberPerId.m && userNumberPerId.m[c] == userId;
      QuickRowsOfKnownUser(frameRows, c, userId, recommended);
    }

    /** `get_user_recommendation`: the prepared rows of one user, or None before
        `prepare_recommendations`. */
    function GetUserRecommendation(userId: string): (r: Option<seq<RecRow>>)
      reads this`recommendations
      ensures r.None? <==> recommendations.None?
      ensures r.Some? ==> forall x :: x in r.value <==> x in recommendations.value && x.userId == userId
    {
      if recommendations.None? then None else Some(RowsOf(recommendations.value, userId))
    }

    /** `get_users_interested_in_event`: the event's prepared rows, best score first, cut to
        `n_users` as `[:n_users]` cuts; None before `prepare_recommendations`. */
    function GetUsersInterestedInEvent(eventId: int, nUsers: int): (r: Option<seq<RecRow>>)
      reads this`recommendations
      ensures r.None? <==> recommendations.None?
      ensures r.Some? ==> && SortedByScore(r.value)
                          && (forall x :: x in r.value ==> x.itemId == eventId && x in recommendations.value)
                          && |r.value| == SliceEnd(|RowsOfEvent(recommendations.value, eventId)|, nUsers)
    {
      if recommendations.None? then None
      else
        TopRowsOrdered(recommendations.value, eventId, nUsers);
        Some(TopRows(recommendations.value, eventId, nUsers))
    }

    /** `save_as_csv`: whether the table existed, and what the file receives (the table unchanged,
        nothing when there is no table). */
    function SaveAsCsv(): (r: (bool, Option<seq<RecRow>>))
      reads this`recommendations
      ensures r.0 <==> recommendations.Some?
      ensures r.1.Some? ==> r.1 == recommendations
      ensures r.1.None? <==> !r.0
    {
      if recommendations.Some? then (true, recommendations) else (false, None)
    }

    /** `save_as_json`: for every value of `user_number_per_id` in key order, the dictionary
        `{event_id: score}` of that user's rows, built row by row; nothing is written when there is
        no table. */
    method SaveAsJson() returns (written: Option<map<string, map<int, real>>>)
      requires ValidODict(userNumberPerId)
      ensures written.None? <==> recommendations.None?
      ensures written.Some? ==> written.value == JsonOf(Values(userNumberPerId), recommendations.value)
    {
      if recommendations.None? {
        return None;
      }
      var recs := recommendations.value;
      var users := Values(userNumberPerId);
      var result: map<string, map<int, real>> := map[];
      var i := 0;
      while i < |users|
        invariant 0 <= i <= |users|
        invariant result == JsonOf(users[..i], recs)
      {
        var userId := users[i];
        var userRows := RowsOf(recs, userId);
        var rowsDict: map<int, real> := map[];
        var j := 0;
        while j < |userRows|
          invariant 0 <= j <= |userRows|
          invariant rowsDict == DictOf(userRows[..j])
        {
          assert userRows[..j + 1][..j] == userRows[..j];
          rowsDict := rowsDict[userRows[j].itemId := userRows[j].score];
          j := j + 1;
        }
        assert userRows[..j] == userRows;
        assert users[..i + 1] == users[..i] + [userId];
        JsonOfSnoc(users[..i], userId, recs);
        result := result[userId := rowsDict];
        i := i + 1;
      }
      assert users[..i] == users;
      written := Some(result);
    }

    /** On a valid recommender `prepare_recommendations` visits exactly the frame's users: the table
        is built exactly when the model names only known event numbers for them, and then every row
        names a user and an event of the frame. */
    lemma {:induction false} PreparedTableOfFrame(recommend: Recommend)
      requires Valid()
      ensures var p := PreparedRows(userNumberPerId.m, eventNumberPerId, recommend, model, sparseUserEvent,
                                    extraEventIds, |userNumberPerId.keys|);
              && (p.Ok? <==> NamesKnownEvents(recommend, model, sparseUserEvent, extraEventIds, eventNumberPerId,
                                              |UserIds(frameRows)|))
              && (p.Ok? ==> forall x :: x in p.value ==> x.userId in UserIds(frameRows) && x.itemId in EventIds(frameRows))
    {
      UserNumbersCovered(frameRows);
      PreparedOkOfNumbered(frameRows, recommend, model, sparseUserEvent, extraEventIds);
      var p := PreparedRows(userNumberPerId.m, eventNumberPerId, recommend, model, sparseUserEvent,
                            extraEventIds, |userNumberPerId.keys|);
      if p.Ok? {
        PreparedRowsOfNumbered(frameRows, recommend, model, sparseUserEvent, extraEventIds, |userNumberPerId.keys|);
      }
    }

    /** On a valid recommender the JSON export of a table whose users are the frame's has exactly
        the frame's users as keys, and every user with rows gets its whole group. */
    lemma {:induction false} JsonOfFrame(recs: seq<RecRow>)
      requires Valid() && forall x :: x in recs ==> x.userId in UserIds(frameRows)
      ensures ValidODict(userNumberPerId)
      ensures forall u :: u in JsonOf(Values(userNumberPerId), recs) <==> u in UserIds(frameRows)
      ensures forall u :: u in GroupByUser(recs) ==>
                u in JsonOf(Values(userNumberPerId), recs) && JsonOf(Values(userNumberPerId), recs)[u] == GroupByUser(recs)[u]
    {
      UserValuesOfFrame(frameRows);
      JsonOfGroups(Values(userNumberPerId), recs);
      GroupByUserComplete(recs);
      forall u | u in GroupByUser(recs) ensures u in UserIds(frameRows) {
        var i :| 0 <= i < |recs| && recs[i].userId == u;
        assert recs[i] in recs;
      }
    }
  }

  /** On a numbered frame `list(user_number_per_id.values())` holds exactly the frame's users. */
  lemma {:induction false} UserValuesOfFrame(rows: seq<UserEvent>)
    ensures ValidODict(UserNumberPerId(rows, UserCodes(rows)))
    ensures forall v :: v in Values(UserNumberPerId(rows, UserCodes(rows))) <==> v in UserIds(rows)
  {
    var d := UserNumberPerId(rows, UserCodes(rows));
    var inv := UserIdPerNumber(rows, UserCodes(rows));
    UserDictsInverse(rows);
    forall v ensures v in Values(d) <==> v in UserIds(rows) {
      if v in UserIds(rows) {
        ValueOfKey(d, inv[v]);
      }
      if v in Values(d) {
        var k := KeyOfValue(d, v);
      }
    }
  }

  /** `EventRecommender(user_event_df, extra_event_ids, model_name, num_of_threads)`: numbers the
      passed frame in place (that happens even when a later step raises), then builds the
      dictionaries, translates the excluded ids, builds both matrices and fits the chosen model;
      the first failing step's exception is the result. */
  method Create(df: UserEventFrame, extra: Option<seq<int>>, modelName: string, numOfThreads: int)
    returns (r: Result<EventRecommender>)
    modifies df
    ensures df.rows == old(df.rows) && df.HasCodes()
    ensures df.userNum == UserCodes(df.rows) && df.eventNum == EventCodes(df.rows)
    ensures var e := InitError(df.rows, df.userNum, df.eventNum, extra, modelName);
            (r.Err? <==> e.Some?) && (r.Err? ==> r.error == e.value)
    ensures r.Ok? ==> && fresh(r.value) && r.value.Valid()
                      && r.value.userEvent == df && r.value.frameRows == df.rows
                      && r.value.recommendations.None?
                      && r.value.extraEventIds ==
                           (if extra.Some? then Some(Recommenders.ItemNumbers(extra.value, r.value.eventIdPerNumber).value)
                            else None)
                      && r.value.model == ModelFor(modelName, numOfThreads, r.value.sparseEventUser).value
  {
    df.Numerate();
    var rows, userNum, eventNum := df.rows, df.userNum, df.eventNum;
    var userNumberPerId := UserNumberPerId(rows, userNum);
    var userIdPerNumber := UserIdPerNumber(rows, userNum);
    var eventNumberPerId := EventNumberPerId(rows, eventNum);
    var eventIdPerNumber := EventIdPerNumber(rows, eventNum);
    var extraNums: Option<seq<int>> := None;
    if extra.Some? {
      var nums := Recommenders.ItemNumbers(extra.value, eventIdPerNumber);
      if nums.Err? {
        return Err(KeyError);
      }
      extraNums := Some(nums.value);
    }
    var eventUser := EventUserMatrix(rows, userNum, eventNum);
    if eventUser.Err? {
      return Err(eventUser.error);
    }
    TriplesSwappedOk(Clicks(rows), eventNum, userNum);
    var userEvent := UserEventMatrix(rows, userNum, eventNum).value;
    var model := ModelFor(modelName, numOfThreads, eventUser.value);
    if model.Err? {
      return Err(ValueError);
    }
    var rec := new EventRecommender(df, rows, userNumberPerId, userIdPerNumber, eventNumberPerId, eventIdPerNumber,
                                    extraNums, eventUser.value, userEvent, model.value);
    r := Ok(rec);
  }
}
