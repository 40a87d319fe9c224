/** The recommender interface over the `implicit` library (`recommenders/implicit_models.py`):
    fitting builds the user and item bidictionaries and the two sparse interaction matrices,
    trains an ALS or a BPR model, and the recommendations of the trained model are collected per
    user, accumulated, and exported as CSV rows or as a JSON dictionary. */
module Recommenders {
  import opened Common
  import opened Sparse
  import opened Bidict
  import opened Recs

  /** One row of the user-item frame: `user_id`, `item_id`, `rating`, `user_num`, `item_num`. */
  datatype Interaction = Interaction(userId: string, itemId: int, rating: int, userNum: int, itemNum: int)

  /** The hyper-parameters of `ALSRecommender` and of `BPRRecommender`. */
  datatype Config =
    | AlsConfig(factors: Option<int>, regularization: Option<real>, iterations: Option<int>,
                confidence: Option<string>, alphaValue: Option<int>, k1: Option<int>, b: Option<real>)
    | BprConfig(factors: Option<int>, learningRate: Option<real>, regularization: Option<real>,
                iterations: Option<int>)

  /** The default arguments of the two constructors. */
  const DefaultAls: Config := AlsConfig(Some(20), Some(0.1), Some(100), None, None, None, None)
  const DefaultBpr: Config := BprConfig(Some(20), Some(0.01), Some(0.1), Some(100))

  /** The matrix a model was trained on: the item-user matrix scaled by `alpha_value`, its BM25
      weighting, or the matrix as it is. */
  datatype Training =
    | AlphaScaled(m: Matrix)
    | Bm25Weighted(m: Matrix, k1: Option<int>, b: Option<real>)
    | Unweighted(m: Matrix)

  /** A model of the `implicit` library: its hyper-parameters, thread count and what it was trained
      on (`None` when `fit` was not called on it). */
  datatype Model = Model(config: Config, numThreads: int, trainedOn: Option<Training>)

  /** `model.recommend(user_num, user_items, filter_items=..., N=...)`: the list of `(item_num, score)`
      pairs a model returns. The ranking itself belongs to the `implicit` library, which is not part
      of this model, so it is a parameter. */
  type Recommend = (Model, int, Option<Matrix>, Option<seq<int>>, int) -> seq<(int, real)>

  /** The `(user_id, user_num)` pairs zipped into the user dictionary: the distinct
      `(user_num, user_id)` rows in order of first occurrence, swapped. */
  function UserPairs(df: seq<Interaction>): seq<(string, int)> {
    Swapped(Distinct(UserColumns(df)))
  }

  /** The `(item_id, item_num)` pairs zipped into the item dictionary. */
  function ItemPairs(df: seq<Interaction>): seq<(int, int)> {
    Swapped(Distinct(ItemColumns(df)))
  }

  /** The `user_num` and `user_id` columns of every row. */
  function UserColumns(df: seq<Interaction>): (c: seq<(int, string)>)
    ensures |c| == |df|
  {
    if df == [] then [] else [(df[0].userNum, df[0].userId)] + UserColumns(df[1..])
  }

  /** The `item_num` and `item_id` columns of every row. */
  function ItemColumns(df: seq<Interaction>): (c: seq<(int, int)>)
    ensures |c| == |df|
  {
    if df == [] then [] else [(df[0].itemNum, df[0].itemId)] + ItemColumns(df[1..])
  }

  lemma {:induction false} UserColumnsAt(df: seq<Interaction>, i: nat)
    requires i < |df|
    ensures UserColumns(df)[i] == (df[i].userNum, df[i].userId)
  {
    if i > 0 {
      UserColumnsAt(df[1..], i - 1);
    }
  }

  lemma {:induction false} ItemColumnsAt(df: seq<Interaction>, i: nat)
    requires i < |df|
    ensures ItemColumns(df)[i] == (df[i].itemNum, df[i].itemId)
  {
    if i > 0 {
      ItemColumnsAt(df[1..], i - 1);
    }
  }

  /** The user pairs are the rows' `(user_id, user_num)` pairs: each row's pair is among them and
      each of them is some row's pair. */
  lemma {:induction false} UserPairsOfRows(df: seq<Interaction>)
    ensures forall i :: 0 <= i < |df| ==> (df[i].userId, df[i].userNum) in UserPairs(df)
    ensures forall k :: 0 <= k < |UserPairs(df)| ==>
              exists i :: 0 <= i < |df| && UserPairs(df)[k] == (df[i].userId, df[i].userNum)
  {
    var s := UserColumns(df);
    var d := Distinct(s);
    forall i | 0 <= i < |df| ensures (df[i].userId, df[i].userNum) in UserPairs(df) {
      UserColumnsAt(df, i);
      assert s[i] in s;
      var k :| 0 <= k < |d| && d[k] == s[i];
      SwappedAt(d, k);
      assert UserPairs(df)[k] == (df[i].userId, df[i].userNum);
    }
    forall k | 0 <= k < |UserPairs(df)|
      ensures exists i :: 0 <= i < |df| && UserPairs(df)[k] == (df[i].userId, df[i].userNum)
    {
      SwappedAt(d, k);
      assert d[k] in d;
      var i :| 0 <= i < |s| && s[i] == d[k];
      UserColumnsAt(df, i);
    }
  }

  /** The item pairs are the rows' `(item_id, item_num)` pairs. */
  lemma {:induction false} ItemPairsOfRows(df: seq<Interaction>)
    ensures forall i :: 0 <= i < |df| ==> (df[i].itemId, df[i].itemNum) in ItemPairs(df)
    ensures forall k :: 0 <= k < |ItemPairs(df)| ==>
              exists i :: 0 <= i < |df| && ItemPairs(df)[k] == (df[i].itemId, df[i].itemNum)
  {
    var s := ItemColumns(df);
    var d := Distinct(s);
    forall i | 0 <= i < |df| ensures (df[i].itemId, df[i].itemNum) in ItemPairs(df) {
      ItemColumnsAt(df, i);
      assert s[i] in s;
      var k :| 0 <= k < |d| && d[k] == s[i];
      SwappedAt(d, k);
      assert ItemPairs(df)[k] == (df[i].itemId, df[i].itemNum);
    }
    forall k | 0 <= k < |ItemPairs(df)|
      ensures exists i :: 0 <= i < |df| && ItemPairs(df)[k] == (df[i].itemId, df[i].itemNum)
    {
      SwappedAt(d, k);
      assert d[k] in d;
      var i :| 0 <= i < |s| && s[i] == d[k];
      ItemColumnsAt(df, i);
    }
  }

  /** `user_item['rating'].astype(float)`. */
  function Ratings(df: seq<Interaction>): (r: seq<real>)
    ensures |r| == |df|
  {
    if df == [] then [] else [df[0].rating as real] + Ratings(df[1..])
  }

  /** The `user_num` column. */
  function UserNums(df: seq<Interaction>): (r: seq<int>)
    ensures |r| == |df|
  {
    if df == [] then [] else [df[0].userNum] + UserNums(df[1..])
  }

  /** The `item_num` column. */
  function ItemNums(df: seq<Interaction>): (r: seq<int>)
    ensures |r| == |df|
  {
    if df == [] then [] else [df[0].itemNum] + ItemNums(df[1..])
  }

  /** `sparse_item_user`: ratings at `(item_num, user_num)`. */
  function ItemUserMatrix(df: seq<Interaction>): Result<Matrix> {
    FromTriples(Ratings(df), ItemNums(df), UserNums(df))
  }

  /** `sparse_user_item`: ratings at `(user_num, item_num)`. */
  function UserItemMatrix(df: seq<Interaction>): Result<Matrix> {
    FromTriples(Ratings(df), UserNums(df), ItemNums(df))
  }

  /** `[item_number_per_id[item_id] for item_id in ids]`: the item numbers of the excluded ids;
      an id the dictionary does not know raises KeyError. */
  function ItemNumbers(ids: seq<int>, fwd: map<int, int>): (r: Result<seq<int>>)
    ensures r.Err? <==> exists i :: 0 <= i < |ids| && ids[i] !in fwd
    ensures r.Err? ==> r.error == KeyError
    ensures r.Ok? ==> |r.value| == |ids| && forall i :: 0 <= i < |ids| ==> r.value[i] == fwd[ids[i]]
  {
    if forall i :: 0 <= i < |ids| ==> ids[i] in fwd then
      Ok(seq(|ids|, i requires 0 <= i < |ids| => fwd[ids[i]]))
    else Err(KeyError)
  }

  /** The exception the shared part of `fit` raises, if any, in the order of its steps: building the
      user bidict, the item bidict, the item-user matrix, then translating the excluded ids. */
  function SharedFitError(df: seq<Interaction>, extra: Option<seq<int>>): Option<Error> {
    var users, items, itemUser := OfPairs(UserPairs(df)), OfPairs(ItemPairs(df)), ItemUserMatrix(df);
    if users.Err? then Some(users.error)
    else if items.Err? then Some(items.error)
    else if itemUser.Err? then Some(itemUser.error)
    else if extra.Some? && ItemNumbers(extra.value, items.value.fwd).Err? then Some(KeyError)
    else None
  }

  /** `extra_item_ids` after the shared part of `fit`: the item numbers when every step succeeds,
      otherwise the ids as passed (they are stored before anything can fail). */
  function FittedExclusions(df: seq<Interaction>, extra: Option<seq<int>>): Option<seq<int>> {
    var items := OfPairs(ItemPairs(df));
    if SharedFitError(df, extra).None? && extra.Some? && items.Ok? && ItemNumbers(extra.value, items.value.fwd).Ok? then
      Some(ItemNumbers(extra.value, items.value.fwd).value)
    else extra
  }

  /** The exception the model-specific part of `fit` raises: ALS with `alpha` confidence (or none
      given) multiplies the matrix by `alpha_value`, which fails with TypeError when it is `None`. */
  function TrainingError(config: Config): Option<Error> {
    if config.AlsConfig? && (config.confidence.None? || config.confidence == Some("alpha")) && config.alphaValue.None?
    then Some(TypeError)
    else None
  }

  /** What the freshly built model is trained on, given the item-user matrix. */
  function TrainingOf(config: Config, itemUser: Matrix): (t: Option<Training>)
    ensures t.None? <==> TrainingError(config).Some? ||
                         (config.AlsConfig? && config.confidence.Some? &&
                          config.confidence.value != "alpha" && config.confidence.value != "bm25")
    ensures t.Some? ==> t.value.m.nrows == itemUser.nrows && t.value.m.ncols == itemUser.ncols
    ensures t.Some? ==> t.value.m.entries.Keys == itemUser.entries.Keys
  {
    match config
    case AlsConfig(_, _, _, confidence, alphaValue, k1, b) =>
      if confidence.None? || confidence == Some("alpha") then
        if alphaValue.None? then None else Some(AlphaScaled(Scale(itemUser, alphaValue.value as real)))
      else if confidence == Some("bm25") then Some(Bm25Weighted(itemUser, k1, b))
      else None
    case BprConfig(_, _, _, _) => Some(Unweighted(itemUser))
  }

  /** The rows built from the `(item_num, score)` pairs of a model: pairs whose number the item
      bidict's inverse does not know are skipped (the KeyError is caught), the others become
      `[user_id, item_id, score]`. */
  function AssembleRows(userId: string, recommended: seq<(int, real)>, inv: map<int, int>): (rows: seq<RecRow>)
    ensures |rows| <= |recommended|
    ensures forall k :: 0 <= k < |rows| ==> rows[k].userId == userId
  {
    var known := Filter(recommended, (x: (int, real)) => x.0 in inv);
    seq(|known|, k requires 0 <= k < |known| => RecRow(userId, inv[known[k].0], known[k].1))
  }

  /** Extending the model's list by one pair adds a row exactly when its number is known. */
  lemma {:induction false} AssembleRowsSnoc(userId: string, recommended: seq<(int, real)>, x: (int, real), inv: map<int, int>)
    ensures AssembleRows(userId, recommended + [x], inv) ==
            AssembleRows(userId, recommended, inv) + (if x.0 in inv then [RecRow(userId, inv[x.0], x.1)] else [])
  {
    FilterAppend(recommended, [x], (y: (int, real)) => y.0 in inv);
  }

  /** Every row reports an item that the item bidict maps back to a number the model recommended,
      with the model's score; and when the bidict knows every number, no pair is lost and the order
      and scores are the model's. */
  lemma {:induction false} AssembleRowsRoundTrip(userId: string, recommended: seq<(int, real)>, items: Bidict<int, int>)
    requires Valid(items)
    ensures forall k :: 0 <= k < |AssembleRows(userId, recommended, items.inv)| ==>
              var row := AssembleRows(userId, recommended, items.inv)[k];
              row.itemId in items.fwd && (items.fwd[row.itemId], row.score) in recommended
    ensures (forall i :: 0 <= i < |recommended| ==> recommended[i].0 in items.inv) ==>
              |AssembleRows(userId, recommended, items.inv)| == |recommended| &&
              forall i :: 0 <= i < |recommended| ==>
                AssembleRows(userId, recommended, items.inv)[i] ==
                RecRow(userId, items.inv[recommended[i].0], recommended[i].1)
  {
    var p := (x: (int, real)) => x.0 in items.inv;
    var known := Filter(recommended, p);
    forall k | 0 <= k < |known|
      ensures known[k] in recommended && items.fwd[items.inv[known[k].0]] == known[k].0
    {
      assert known[k] in known;
    }
    if forall i :: 0 <= i < |recommended| ==> recommended[i].0 in items.inv {
      FilterAll(recommended, p);
    }
  }

  /** The rows a sequence of users contributes to the accumulated recommendations, in order, and
      the exception that stopped the accumulation, if one did. */
  datatype Accumulated = Accumulated(rows: seq<RecRow>, error: Option<Error>)

  /** What the recommendation queries read of a recommender: the two bidicts, the model, the
      user-item matrix and the excluded item numbers. */
  datatype Fitted = Fitted(users: Option<Bidict<string, int>>, items: Option<Bidict<int, int>>,
                           model: Option<Model>, userItems: Option<Matrix>, exclusions: Option<seq<int>>)

  /** What `get_user_recommendation(user_id, N)` returns in the current state: TypeError before
      any user bidict exists, KeyError for an unknown user, AttributeError without a model or
      (for a non-empty list) without an item bidict, otherwise the assembled rows. */
  function UserRecommendation(f: Fitted, userId: string, n: int, recommend: Recommend): Result<seq<RecRow>> {
    if f.users.None? then Err(TypeError)
    else if userId !in f.users.value.fwd then Err(KeyError)
    else if f.model.None? then Err(AttributeError)
    else
      var recommended := recommend(f.model.value, f.users.value.fwd[userId], f.userItems, f.exclusions, n);
      if f.items.None? && recommended != [] then Err(AttributeError)
      else Ok(AssembleRows(userId, recommended, if f.items.None? then map[] else f.items.value.inv))
  }

  /** The rows the users `keys` contribute, one user after the other, with `N=10`, up to the
      first user whose recommendation fails. */
  function AllRows(f: Fitted, keys: seq<string>, recommend: Recommend): (a: Accumulated)
  {
    if keys == [] then Accumulated([], None)
    else
      var prev := AllRows(f, keys[..|keys| - 1], recommend);
      if prev.error.Some? then prev
      else
        var r := UserRecommendation(f, keys[|keys| - 1], 10, recommend);
        if r.Err? then Accumulated(prev.rows, Some(r.error))
        else Accumulated(prev.rows + r.value, None)
  }

  /** One more user of the sequence. */
  lemma {:induction false} AllRowsStep(f: Fitted, keys: seq<string>, i: nat, recommend: Recommend)
    requires i < |keys|
    ensures var prev, r := AllRows(f, keys[..i], recommend), UserRecommendation(f, keys[i], 10, recommend);
            AllRows(f, keys[..i + 1], recommend) ==
            if prev.error.Some? then prev
            else if r.Err? then Accumulated(prev.rows, Some(r.error))
            else Accumulated(prev.rows + r.value, None)
  {
    assert keys[..i + 1][..i] == keys[..i];
  }

  /** One more user whose recommendation succeeds, after users without failures, adds its rows. */
  lemma {:induction false} AllRowsStepOk(f: Fitted, keys: seq<string>, i: nat, recommend: Recommend,
                                         prev: Accumulated, r: Result<seq<RecRow>>)
    requires i < |keys| && prev == AllRows(f, keys[..i], recommend) && prev.error.None?
    requires r == UserRecommendation(f, keys[i], 10, recommend) && r.Ok?
    ensures AllRows(f, keys[..i + 1], recommend) == Accumulated(prev.rows + r.value, None)
  {
    AllRowsStep(f, keys, i, recommend);
  }

  /** One more user whose recommendation fails, after users without failures, records its error. */
  lemma {:induction false} AllRowsStepErr(f: Fitted, keys: seq<string>, i: nat, recommend: Recommend,
                                          prev: Accumulated, r: Result<seq<RecRow>>)
    requires i < |keys| && prev == AllRows(f, keys[..i], recommend) && prev.error.None?
    requires r == UserRecommendation(f, keys[i], 10, recommend) && r.Err?
    ensures AllRows(f, keys[..i + 1], recommend) == Accumulated(prev.rows, Some(r.error))
  {
    AllRowsStep(f, keys, i, recommend);
  }

  /** Appending rows in two steps or in one gives the same sequence. */
  lemma {:induction false} AppendAssoc<T>(a: seq<T>, b: seq<T>, c: seq<T>)
    ensures a + (b + c) == (a + b) + c
  {
    assert forall k :: 0 <= k < |a + (b + c)| ==> (a + (b + c))[k] == ((a + b) + c)[k];
  }

  /** Once a user fails, the users after it contribute nothing. */
  lemma {:induction false} AllRowsStopsAtError(f: Fitted, keys: seq<string>, j: nat, recommend: Recommend)
    requires j <= |keys| && AllRows(f, keys[..j], recommend).error.Some?
    ensures AllRows(f, keys, recommend) == AllRows(f, keys[..j], recommend)
  {
    if j < |keys| {
      assert keys[..|keys| - 1][..j] == keys[..j];
      AllRowsStopsAtError(f, keys[..|keys| - 1], j, recommend);
    } else {
      assert keys[..j] == keys;
    }
  }

  /** For distinct users without failures, the accumulated rows of each user are exactly that
      user's own recommendation, in order: accumulating loses and mixes nothing. */
  lemma {:induction false} AllRowsPerUser(f: Fitted, keys: seq<string>, recommend: Recommend, u: string)
    requires NoDup(keys) && AllRows(f, keys, recommend).error.None?
    ensures u in keys ==> UserRecommendation(f, u, 10, recommend).Ok? &&
                          RowsOf(AllRows(f, keys, recommend).rows, u) == UserRecommendation(f, u, 10, recommend).value
    ensures u !in keys ==> RowsOf(AllRows(f, keys, recommend).rows, u) == []
  {
    if keys != [] {
      var init := keys[..|keys| - 1];
      var last := keys[|keys| - 1];
      assert keys == init + [last];
      assert NoDup(init);
      AllRowsPerUser(f, init, recommend, u);
      var r := UserRecommendation(f, last, 10, recommend);
      var prevRows := AllRows(f, init, recommend).rows;
      RowsOfAppend(prevRows, r.value, u);
      RowsOfUniform(r.value, last, u);
      if u == last {
        assert u !in init;
      }
    }
  }

  /** The attributes `fit` writes: the interaction frame, the excluded items, the user and item
      bidicts and the two sparse matrices. */
  datatype FitState = FitState(
    userItem: Option<seq<Interaction>>,
    extraItemIds: Option<seq<int>>,
    userNumberPerId: Option<Bidict<string, int>>,
    itemNumberPerId: Option<Bidict<int, int>>,
    sparseItemUser: Option<Matrix>,
    sparseUserItem: Option<Matrix>)

  /** The recommender base class with the fields its methods update. `config` stands for the
      hyper-parameters stored by the ALS or BPR subclass constructor; the attributes that `fit`
      writes are kept together in `fit`. */
  class UserItemRecommender {
    const config: Config
    const numOfThreads: int
    var model: Option<Model>
    var recommendations: seq<RecRow>
    var fit: FitState

    /** `ALSRecommender(...)` / `BPRRecommender(...)`: nothing fitted, no recommendations yet. */
    constructor (config: Config, numOfThreads: int)
      ensures this.config == config && this.numOfThreads == numOfThreads
      ensures model.None? && recommendations == []
      ensures fit == FitState(None, None, None, None, None, None)
    {
      this.config := config;
      this.numOfThreads := numOfThreads;
      model := None;
      recommendations := [];
      fit := FitState(None, None, None, None, None, None);
    }

    /** The attributes after the shared part of `fit`: every step up to the first failing one has
        stored its result; the later attributes keep their earlier values. */
    twostate predicate SharedFitDone(df: seq<Interaction>, extra: Option<seq<int>>)
      reads this
    {
      var users, items, itemUser := OfPairs(UserPairs(df)), OfPairs(ItemPairs(df)), ItemUserMatrix(df);
      && fit.userItem == Some(df)
      && recommendations == old(recommendations)
      && fit.userNumberPerId == (if users.Ok? then Some(users.value) else old(fit.userNumberPerId))
      && fit.itemNumberPerId == (if users.Ok? && items.Ok? then Some(items.value) else old(fit.itemNumberPerId))
      && fit.sparseItemUser == (if users.Ok? && items.Ok? && itemUser.Ok? then Some(itemUser.value)
                                else old(fit.sparseItemUser))
      && fit.sparseUserItem == (if users.Ok? && items.Ok? && itemUser.Ok? && UserItemMatrix(df).Ok?
                                then Some(UserItemMatrix(df).value) else old(fit.sparseUserItem))
      && fit.extraItemIds == FittedExclusions(df, extra)
    }

    /** `UserItemRecommender.fit`, the part shared by both models. The steps run in the order of
        the source on local copies of the attributes; an exception ends the steps, and what the
        steps before it stored is written back. */
    method FitShared(df: seq<Interaction>, extra: Option<seq<int>>) returns (err: Option<Error>)
      modifies this
      ensures SharedFitDone(df, extra) && model == old(model)
      ensures err == SharedFitError(df, extra)
    {
      var users, items, itemUser, userItemM, exclusions :=
        fit.userNumberPerId, fit.itemNumberPerId, fit.sparseItemUser, fit.sparseUserItem, extra;
      err := None;
      var u := OfPairs(UserPairs(df));
      if u.Err? {
        err := Some(u.error);
      } else {
        users := Some(u.value);
        var it := OfPairs(ItemPairs(df));
        if it.Err? {
          err := Some(it.error);
        } else {
          items := Some(it.value);
          var iu := ItemUserMatrix(df);
          if iu.Err? {
            err := Some(iu.error);
          } else {
            itemUser := Some(iu.value);
            TriplesSwappedOk(Ratings(df), ItemNums(df), UserNums(df));
            userItemM := Some(UserItemMatrix(df).value);
            if extra.Some? {
              var nums := ItemNumbers(extra.value, it.value.fwd);
              if nums.Err? {
                err := Some(nums.error);
              } else {
                exclusions := Some(nums.value);
              }
            }
          }
        }
      }
      fit := FitState(Some(df), exclusions, users, items, itemUser, userItemM);
    }

    /** `ALSRecommender.fit` / `BPRRecommender.fit`: the shared part, then a built model with the
        stored hyper-parameters, trained on the item-user matrix as the configuration says. */
    method Fit(df: seq<Interaction>, extra: Option<seq<int>>) returns (err: Option<Error>)
      modifies this
      ensures SharedFitDone(df, extra)
      ensures SharedFitError(df, extra).Some? ==> err == SharedFitError(df, extra) && model == old(model)
      ensures SharedFitError(df, extra).None? ==>
                fit.sparseItemUser.Some? && err == TrainingError(config) &&
                model == Some(Model(config, numOfThreads, TrainingOf(config, fit.sparseItemUser.value)))
    {
      err := FitShared(df, extra);
      if err.Some? {
        return;
      }
      var built := Model(config, numOfThreads, None);
      var itemUser := fit.sparseItemUser.value;
      match config {
        case AlsConfig(_, _, _, confidence, alphaValue, k1, b) =>
          model := Some(built);
          if confidence.None? || confidence == Some("alpha") {
            if alphaValue.None? {
              return Some(TypeError);
            }
            model := Some(built.(trainedOn := Some(AlphaScaled(Scale(itemUser, alphaValue.value as real)))));
          } else if confidence == Some("bm25") {
            model := Some(built.(trainedOn := Some(Bm25Weighted(itemUser, k1, b))));
          }
        case BprConfig(_, _, _, _) =>
          model := Some(built);
          model := Some(built.(trainedOn := Some(Unweighted(itemUser))));
      }
    }

    /** The fields the recommendation queries read. */
    function Snapshot(): Fitted
      reads this`fit, this`model
    {
      Fitted(fit.userNumberPerId, fit.itemNumberPerId, model, fit.sparseUserItem, fit.extraItemIds)
    }

    /** `get_user_recommendation(user_id, N, as_pd_dataframe=False)`. */
    method GetUserRecommendation(userId: string, n: int, recommend: Recommend) returns (r: Result<seq<RecRow>>)
      ensures r == UserRecommendation(Snapshot(), userId, n, recommend)
      ensures r.Ok? ==> forall k :: 0 <= k < |r.value| ==> r.value[k].userId == userId
    {
      if fit.userNumberPerId.None? {
        return Err(TypeError);
      }
      if userId !in fit.userNumberPerId.value.fwd {
        return Err(KeyError);
      }
      var userNum := fit.userNumberPerId.value.fwd[userId];
      if model.None? {
        return Err(AttributeError);
      }
      var recommended := recommend(model.value, userNum, fit.sparseUserItem, fit.extraItemIds, n);
      var inv: map<int, int> := if fit.itemNumberPerId.None? then map[] else fit.itemNumberPerId.value.inv;
      var rows: seq<RecRow> := [];
      var i := 0;
      while i < |recommended|
        invariant 0 <= i <= |recommended|
        invariant fit.itemNumberPerId.None? ==> i == 0
        invariant rows == AssembleRows(userId, recommended[..i], inv)
      {
        if fit.itemNumberPerId.None? {
          return Err(AttributeError);
        }
        var (num, score) := recommended[i];
        assert recommended[..i + 1] == recommended[..i] + [recommended[i]];
        AssembleRowsSnoc(userId, recommended[..i], recommended[i], inv);
        if num in inv {
          rows := rows + [RecRow(userId, inv[num], score)];
        }
        i := i + 1;
      }
      assert recommended[..i] == recommended;
      return Ok(rows);
    }

    /** `get_all_recommendation(as_pd_dataframe=False)`: the recommendations of every user of the
        user bidict, in its key order, are appended to `recommendations` (which is never cleared);
        a failing user stops the loop with the rows of the earlier users already appended. */
    method GetAllRecommendation(recommend: Recommend) returns (err: Option<Error>, all: seq<RecRow>)
      modifies this`recommendations
      ensures fit.userNumberPerId.None? ==> err == Some(AttributeError) && recommendations == old(recommendations)
      ensures fit.userNumberPerId.Some? ==>
                recommendations == old(recommendations) + AllRows(Snapshot(), fit.userNumberPerId.value.keys, recommend).rows
      ensures fit.userNumberPerId.Some? ==> err == AllRows(Snapshot(), fit.userNumberPerId.value.keys, recommend).error
      ensures all == recommendations
    {
      if fit.userNumberPerId.None? {
        return Some(AttributeError), recommendations;
      }
      var keys := fit.userNumberPerId.value.keys;
      ghost var f := Snapshot();
      ghost var acc := Accumulated([], None);
      err := None;
      var i := 0;
      while i < |keys| && err.None?
        invariant 0 <= i <= |keys|
        invariant f == Snapshot()
        invariant acc == AllRows(f, keys[..i], recommend)
        invariant err == acc.error
        invariant recommendations == old(recommendations) + acc.rows
      {
        var r := GetUserRecommendation(keys[i], 10, recommend);
        if r.Err? {
          AllRowsStepErr(f, keys, i, recommend, acc, r);
          acc := Accumulated(acc.rows, Some(r.error));
          err := Some(r.error);
        } else {
          AllRowsStepOk(f, keys, i, recommend, acc, r);
          AppendAssoc(old(recommendations), acc.rows, r.value);
          acc := Accumulated(acc.rows + r.value, None);
          recommendations := recommendations + r.value;
        }
        i := i + 1;
      }
      if err.Some? {
        AllRowsStopsAtError(f, keys, i, recommend);
      } else {
        assert keys[..i] == keys;
      }
      all := recommendations;
    }

    /** `to_csv`: a header row, then the accumulated rows as they are, `;`-separated. The
        `is None` guard never holds, since the list starts empty and is only extended. */
    method ToCsv() returns (delimiter: char, header: seq<string>, rows: seq<RecRow>)
      ensures delimiter == ';' && header == ["user_id", "event_id", "rating"]
      ensures rows == recommendations
    {
      return ';', ["user_id", "event_id", "rating"], recommendations;
    }

    /** `to_json`: the loop over the accumulated rows that builds the exported dictionary. */
    method ToJson() returns (r: Result<map<string, map<int, real>>>)
      ensures r == JsonExport(recommendations)
    {
      var rows := recommendations;
      if rows == [] {
        return Err(IndexError);
      }
      var dict: map<string, map<int, real>> := map[];
      var current := rows[0].userId;
      var userDict: map<int, real> := map[];
      var i := 0;
      while i < |rows|
        invariant 0 <= i <= |rows|
        invariant i == 0 ==> dict == map[] && userDict == map[] && current == rows[0].userId
        invariant i > 0 ==> (dict, current, userDict) == JsonVars(rows[..i])
      {
        TakeSnoc(rows, i);
        if rows[i].userId != current {
          dict := dict[current := userDict];
          userDict := map[];
          current := rows[i].userId;
        } else {
          userDict := userDict[rows[i].itemId := rows[i].score];
        }
        i := i + 1;
      }
      assert rows[..i] == rows;
      JsonExportOfVars(rows);
      return Ok(dict);
    }
  }

  /** The variables of the `to_json` loop after the non-empty prefix `prefix`, pass by pass:
      the written dictionary, the current user and the current user dictionary. */
  ghost function JsonVars(prefix: seq<RecRow>): (map<string, map<int, real>>, string, map<int, real>)
    requires prefix != []
    decreases |prefix|
  {
    var row := prefix[|prefix| - 1];
    if |prefix| == 1 then (map[], row.userId, map[row.itemId := row.score])
    else
      var (dict, current, userDict) := JsonVars(prefix[..|prefix| - 1]);
      if row.userId != current then (dict[current := userDict], row.userId, map[])
      else (dict, current, userDict[row.itemId := row.score])
  }

  /** After every pass the loop variables are as the runs of the prefix say. */
  lemma {:induction false} JsonVarsState(prefix: seq<RecRow>)
    requires prefix != []
    ensures JsonLoopState(prefix, JsonVars(prefix).0, JsonVars(prefix).1, JsonVars(prefix).2)
    decreases |prefix|
  {
    var n := |prefix| - 1;
    var init, row := prefix[..n], prefix[n];
    assert prefix == init + [row];
    if n == 0 {
      JsonStart(row, prefix);
    } else {
      JsonVarsState(init);
      var (dict, current, userDict) := JsonVars(init);
      if row.userId != current {
        JsonUserChange(init, row, prefix, dict, current, userDict);
      } else {
        JsonSameUser(init, row, prefix, dict, userDict);
      }
    }
  }

  /** The dictionary the loop has written after all rows is the export. */
  lemma {:induction false} JsonExportOfVars(rows: seq<RecRow>)
    requires rows != []
    ensures JsonExport(rows) == Ok(JsonVars(rows).0)
  {
    JsonVarsState(rows);
  }

  /** The first `i + 1` rows are the first `i` and row `i`. */
  lemma {:induction false} TakeSnoc<T>(s: seq<T>, i: nat)
    requires i < |s|
    ensures s[..i + 1] == s[..i] + [s[i]]
  {
    assert forall k :: 0 <= k <= i ==> s[..i + 1][k] == (s[..i] + [s[i]])[k];
  }

  /** The rows of one user in a concatenation. */
  lemma {:induction false} RowsOfAppend(a: seq<RecRow>, b: seq<RecRow>, u: string)
    ensures RowsOf(a + b, u) == RowsOf(a, u) + RowsOf(b, u)
  {
    if b != [] {
      var init := b[..|b| - 1];
      assert (a + b)[..|a + b| - 1] == a + init;
      RowsOfAppend(a, init, u);
    } else {
      assert a + b == a;
    }
  }

  /** A block of rows of one user is all of that user's rows and none of any other's. */
  lemma {:induction false} RowsOfUniform(rows: seq<RecRow>, v: string, u: string)
    requires forall k :: 0 <= k < |rows| ==> rows[k].userId == v
    ensures RowsOf(rows, u) == if u == v then rows else []
  {
    if rows != [] {
      RowsOfUniform(rows[..|rows| - 1], v, u);
      assert rows == rows[..|rows| - 1] + [rows[|rows| - 1]];
    }
  }

  /** A maximal block of consecutive rows of the same user. */
  datatype Run = Run(user: string, rows: seq<RecRow>)

  /** The rows cut into maximal blocks of consecutive rows of one user. */
  function Runs(rows: seq<RecRow>): (rs: seq<Run>)
    ensures rows != [] ==> rs != [] && rs[|rs| - 1].user == rows[|rows| - 1].userId && rs[|rs| - 1].rows != []
  {
    if rows == [] then []
    else
      var prev := Runs(rows[..|rows| - 1]);
      var last := rows[|rows| - 1];
      if prev != [] && prev[|prev| - 1].user == last.userId then
        prev[..|prev| - 1] + [Run(last.userId, prev[|prev| - 1].rows + [last])]
      else
        prev + [Run(last.userId, [last])]
  }

  /** The rows of run `j` that the export keeps: all of the first run, the later runs without their
      first row (that row is the one on which the user change is noticed). */
  function Kept(rs: seq<Run>, j: nat): seq<RecRow>
    requires j < |rs|
  {
    if j == 0 || rs[j].rows == [] then rs[j].rows else rs[j].rows[1..]
  }

  /** The dictionary after the first `m` runs have been written, a later run overriding an
      earlier run of the same user. */
  function Stored(rs: seq<Run>, m: nat): (d: map<string, map<int, real>>)
    requires m <= |rs|
  {
    if m == 0 then map[]
    else Stored(rs, m - 1)[rs[m - 1].user := DictOf(Kept(rs, m - 1))]
  }

  /** What `to_json` writes for the accumulated rows, as written: IndexError on an empty list;
      otherwise every run but the last, with the rows `Kept` says. */
  function JsonExport(rows: seq<RecRow>): Result<map<string, map<int, real>>> {
    if rows == [] then Err(IndexError)
    else
      var rs := Runs(rows);
      Ok(Stored(rs, |rs| - 1))
  }

  /** The variables of the `to_json` loop after a non-empty prefix: the written dictionary holds
      all runs but the last, `current` is the last run's user and the user dictionary holds the
      kept rows of the last run. */
  ghost predicate JsonLoopState(prefix: seq<RecRow>, dict: map<string, map<int, real>>, current: string,
                                userDict: map<int, real>)
  {
    prefix != [] && JsonRunsState(Runs(prefix), dict, current, userDict)
  }

  /** The loop variables for the runs `rs`: all runs but the last written, the last one current. */
  ghost predicate JsonRunsState(rs: seq<Run>, dict: map<string, map<int, real>>, current: string,
                                userDict: map<int, real>)
  {
    rs != [] && dict == Stored(rs, |rs| - 1) && current == rs[|rs| - 1].user &&
    userDict == DictOf(Kept(rs, |rs| - 1))
  }

  /** Runs whose first `m` runs agree have the same first `m` runs written. */
  lemma {:induction false} StoredPrefix(rs: seq<Run>, rs': seq<Run>, m: nat)
    requires m <= |rs| && m <= |rs'| && rs[..m] == rs'[..m]
    ensures Stored(rs, m) == Stored(rs', m)
  {
    if m > 0 {
      assert rs[..m - 1] == rs[..m][..m - 1] && rs'[..m - 1] == rs'[..m][..m - 1];
      assert rs[m - 1] == rs[..m][m - 1];
      StoredPrefix(rs, rs', m - 1);
    }
  }

  /** The first iteration of the `to_json` loop: the first row starts the first run. */
  lemma {:induction false} JsonStart(row: RecRow, next: seq<RecRow>)
    requires next == [row]
    ensures JsonLoopState(next, map[], row.userId, map[row.itemId := row.score])
  {
    assert [row][..0] == [];
    assert Runs([row]) == [Run(row.userId, [row])];
    DictOfAppend([], row);
  }

  /** A row of the current user extends the last run and is put into the user dictionary. */
  lemma {:induction false} JsonSameUser(prefix: seq<RecRow>, row: RecRow, next: seq<RecRow>,
                                        dict: map<string, map<int, real>>, userDict: map<int, real>)
    requires JsonLoopState(prefix, dict, row.userId, userDict) && next == prefix + [row]
    ensures JsonLoopState(next, dict, row.userId, userDict[row.itemId := row.score])
  {
    var rs := Runs(prefix);
    var m := |rs| - 1;
    var rs' := rs[..m] + [Run(row.userId, rs[m].rows + [row])];
    RunsExtend(prefix, row, rs, rs');
    RunsStateExtend(rs, rs', row, dict, userDict);
  }

  /** A row of the last run's user extends the last run. */
  lemma {:induction false} RunsExtend(prefix: seq<RecRow>, row: RecRow, rs: seq<Run>, rs': seq<Run>)
    requires prefix != [] && rs == Runs(prefix) && rs[|rs| - 1].user == row.userId
    requires rs' == rs[..|rs| - 1] + [Run(row.userId, rs[|rs| - 1].rows + [row])]
    ensures Runs(prefix + [row]) == rs'
  {
    RunsSnoc(prefix, row);
  }

  /** Extending the last run with a row of its user puts the row into the user dictionary. */
  lemma {:induction false} RunsStateExtend(rs: seq<Run>, rs': seq<Run>, row: RecRow, dict: map<string, map<int, real>>,
                                           userDict: map<int, real>)
    requires JsonRunsState(rs, dict, row.userId, userDict) && rs[|rs| - 1].rows != []
    requires rs' == rs[..|rs| - 1] + [Run(row.userId, rs[|rs| - 1].rows + [row])]
    ensures JsonRunsState(rs', dict, row.userId, userDict[row.itemId := row.score])
  {
    var m := |rs| - 1;
    StoredExtendRun(rs, rs', row);
    DictOfAppend(Kept(rs, m), row);
    assert |rs'| - 1 == m && rs'[m].user == row.userId;
  }

  /** Extending the last run keeps what the earlier runs wrote and adds the row to the last run's
      kept rows. */
  lemma {:induction false} StoredExtendRun(rs: seq<Run>, rs': seq<Run>, row: RecRow)
    requires rs != [] && rs[|rs| - 1].rows != []
    requires rs' == rs[..|rs| - 1] + [Run(row.userId, rs[|rs| - 1].rows + [row])]
    ensures Stored(rs', |rs| - 1) == Stored(rs, |rs| - 1)
    ensures Kept(rs', |rs| - 1) == Kept(rs, |rs| - 1) + [row]
  {
    var m := |rs| - 1;
    assert rs'[..m] == rs[..m];
    StoredPrefix(rs, rs', m);
    assert rs'[m].rows == rs[m].rows + [row];
    if m > 0 {
      assert (rs[m].rows + [row])[1..] == rs[m].rows[1..] + [row];
    }
  }

  /** A row of another user writes the user dictionary under the current user, and starts a new
      run whose first row is not kept. */
  lemma {:induction false} JsonUserChange(prefix: seq<RecRow>, row: RecRow, next: seq<RecRow>,
                                          dict: map<string, map<int, real>>, current: string, userDict: map<int, real>)
    requires JsonLoopState(prefix, dict, current, userDict) && row.userId != current && next == prefix + [row]
    ensures JsonLoopState(next, dict[current := userDict], row.userId, map[])
  {
    var rs := Runs(prefix);
    RunsSnoc(prefix, row);
    var rs' := rs + [Run(row.userId, [row])];
    assert Runs(prefix + [row]) == rs';
    StoredNewRun(rs, rs', Run(row.userId, [row]));
    assert [row][1..] == [];
    assert JsonRunsState(rs', dict[current := userDict], row.userId, map[]);
  }

  /** Starting a new run writes the previous last run, with the rows it keeps. */
  lemma {:induction false} StoredNewRun(rs: seq<Run>, rs': seq<Run>, r: Run)
    requires rs != [] && rs' == rs + [r]
    ensures Stored(rs', |rs|) == Stored(rs, |rs| - 1)[rs[|rs| - 1].user := DictOf(Kept(rs, |rs| - 1))]
    ensures Kept(rs', |rs|) == if r.rows == [] then [] else r.rows[1..]
  {
    var m := |rs|;
    assert rs'[..m - 1] == rs[..m - 1];
    StoredPrefix(rs, rs', m - 1);
    assert rs'[m - 1] == rs[m - 1];
    assert Kept(rs', m - 1) == Kept(rs, m - 1);
    var before, d := Stored(rs', m - 1), DictOf(Kept(rs', m - 1));
    assert Stored(rs', m) == before[rs'[m - 1].user := d];
    assert before == Stored(rs, m - 1);
    assert d == DictOf(Kept(rs, m - 1));
    assert rs'[m - 1].user == rs[m - 1].user;
  }

  /** A user is a key of the export exactly when one of its runs is followed by another user's
      rows: the rows after the last user change are never written. */
  lemma {:induction false} JsonExportKeys(rows: seq<RecRow>)
    requires rows != []
    ensures JsonExport(rows).Ok?
    ensures forall u :: u in JsonExport(rows).value <==>
              exists j :: 0 <= j < |Runs(rows)| - 1 && Runs(rows)[j].user == u
  {
    var rs := Runs(rows);
    var written := Stored(rs, |rs| - 1);
    assert JsonExport(rows) == Ok(written);
    StoredKeys(rs, |rs| - 1);
    forall u ensures u in JsonExport(rows).value <==> exists j :: 0 <= j < |rs| - 1 && rs[j].user == u {
      assert u in written <==> exists j :: 0 <= j < |rs| - 1 && rs[j].user == u;
    }
  }

  lemma {:induction false} StoredKeys(rs: seq<Run>, m: nat)
    requires m <= |rs|
    ensures forall u :: u in Stored(rs, m) <==> exists j :: 0 <= j < m && rs[j].user == u
  {
    if m > 0 {
      StoredKeys(rs, m - 1);
    }
  }

  /** Rows that all belong to one user export an empty dictionary. */
  lemma {:induction false} JsonExportSingleUser(rows: seq<RecRow>, u: string)
    requires rows != [] && forall k :: 0 <= k < |rows| ==> rows[k].userId == u
    ensures JsonExport(rows) == Ok(map[])
  {
    SingleRun(rows, u);
  }

  lemma {:induction false} SingleRun(rows: seq<RecRow>, u: string)
    requires rows != [] && forall k :: 0 <= k < |rows| ==> rows[k].userId == u
    ensures |Runs(rows)| == 1
  {
    if |rows| > 1 {
      SingleRun(rows[..|rows| - 1], u);
    }
  }

  /** Adding a row to the rows. */
  lemma {:induction false} RunsSnoc(rows: seq<RecRow>, r: RecRow)
    ensures var rs := Runs(rows);
            Runs(rows + [r]) ==
            if rs != [] && rs[|rs| - 1].user == r.userId then rs[..|rs| - 1] + [Run(r.userId, rs[|rs| - 1].rows + [r])]
            else rs + [Run(r.userId, [r])]
  {
    assert (rows + [r])[..|rows|] == rows;
  }

  /** Four rows of three users, the second user with two rows. */
  function DropExample(): seq<RecRow> {
    [RecRow("a", 1, 0.5), RecRow("b", 2, 0.9), RecRow("b", 3, 0.8), RecRow("c", 4, 0.7)]
  }

  lemma {:induction false} DropExampleRuns()
    ensures Runs(DropExample()) ==
            [Run("a", [DropExample()[0]]), Run("b", [DropExample()[1], DropExample()[2]]), Run("c", [DropExample()[3]])]
  {
    var rows := DropExample();
    var a1, b2, b3, c4 := rows[0], rows[1], rows[2], rows[3];
    var r1 := [Run("a", [a1])];
    RunsSnocNew([], a1, []);
    assert [] + [a1] == [a1];
    var r2 := r1 + [Run("b", [b2])];
    RunsSnocNew([a1], b2, r1);
    assert [a1] + [b2] == [a1, b2];
    var r3 := r1 + [Run("b", [b2, b3])];
    RunsSnocSame([a1, b2], b3, r2);
    assert [a1, b2] + [b3] == [a1, b2, b3];
    assert r2[..1] == r1;
    assert [b2] + [b3] == [b2, b3];
    assert r2[|r2| - 1].rows == [b2];
    RunsSnocNew([a1, b2, b3], c4, r3);
    assert [a1, b2, b3] + [c4] == rows;
  }

  /** A row of another user than the last run's starts a new run. */
  lemma {:induction false} RunsSnocNew(rows: seq<RecRow>, r: RecRow, rs: seq<Run>)
    requires rs == Runs(rows) && (rs == [] || rs[|rs| - 1].user != r.userId)
    ensures Runs(rows + [r]) == rs + [Run(r.userId, [r])]
  {
    RunsSnoc(rows, r);
  }

  /** A row of the last run's user extends that run. */
  lemma {:induction false} RunsSnocSame(rows: seq<RecRow>, r: RecRow, rs: seq<Run>)
    requires rs == Runs(rows) && rs != [] && rs[|rs| - 1].user == r.userId
    ensures Runs(rows + [r]) == rs[..|rs| - 1] + [Run(r.userId, rs[|rs| - 1].rows + [r])]
  {
    RunsSnoc(rows, r);
  }

  /** The export of the example: user `b` loses its first row and user `c` all of its rows, while
      grouping by user keeps `c`. */
  lemma {:induction false} JsonExportDropsRows()
    ensures JsonExport(DropExample()) == Ok(map["a" := map[1 := 0.5], "b" := map[3 := 0.8]])
    ensures "c" in GroupByUser(DropExample()) && "c" !in JsonExport(DropExample()).value
  {
    var rows := DropExample();
    DropExampleRuns();
    var rs := Runs(rows);
    assert Kept(rs, 0) == [rows[0]] && Kept(rs, 1) == [rows[2]];
    DictOfSingle(rows[0]);
    DictOfSingle(rows[2]);
    assert Stored(rs, 1) == map["a" := map[1 := 0.5]];
    assert Stored(rs, 2) == Stored(rs, 1)["b" := map[3 := 0.8]];
    assert rows[3].userId == "c";
    assert "c" in UsersOf(rows);
  }

  lemma {:induction false} DictOfSingle(r: RecRow)
    ensures DictOf([r]) == map[r.itemId := r.score]
  {
    assert [r][..0] == [];
  }
}
