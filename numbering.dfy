/** Categorical numbering (`astype('category').cat.codes`): pandas sorts the distinct values of a
    column and codes each value by its position in that order. The user-event table is a frame
    whose `user_num` and `event_num` columns are written in place. */
module Numbering {
  import opened Common

  /** `less` is a strict total order on the values of `vals`. */
  ghost predicate StrictTotalOn<T(!new)>(less: (T, T) -> bool, vals: set<T>) {
    && (forall x :: x in vals ==> !less(x, x))
    && (forall x, y, z :: x in vals && y in vals && z in vals && less(x, y) && less(y, z) ==> less(x, z))
    && (forall x, y :: x in vals && y in vals && x != y ==> less(x, y) || less(y, x))
  }

  /** The category code of `x`: how many distinct values sort before it. */
  function Code<T(!new)>(x: T, vals: set<T>, less: (T, T) -> bool): (c: nat)
  {
    |set y | y in vals && less(y, x)|
  }

  /** Codes of values of the column are in `0..k-1`, `k` the number of distinct values. */
  lemma {:induction false} CodeInRange<T(!new)>(x: T, vals: set<T>, less: (T, T) -> bool)
    requires StrictTotalOn(less, vals) && x in vals
    ensures Code(x, vals, less) < |vals|
  {
    var below := set y | y in vals && less(y, x);
    assert x !in below;
    ProperSubsetSmaller(below, vals, x);
  }

  /** A set missing an element of a superset is smaller than it. */
  lemma {:induction false} ProperSubsetSmaller<T>(a: set<T>, b: set<T>, x: T)
    requires a <= b && x in b && x !in a
    ensures |a| < |b|
  {
    var rest := b - a;
    assert b == a + rest && a !! rest;
    assert x in rest;
  }

  /** Distinct values get distinct codes. */
  lemma {:induction false} CodeInjective<T(!new)>(x: T, y: T, vals: set<T>, less: (T, T) -> bool)
    requires StrictTotalOn(less, vals) && x in vals && y in vals && x != y
    ensures Code(x, vals, less) != Code(y, vals, less)
  {
    if less(x, y) {
      CodeMonotone(x, y, vals, less);
    } else {
      CodeMonotone(y, x, vals, less);
    }
  }

  /** A smaller value has a smaller code: the codes follow the sort order. */
  lemma {:induction false} CodeMonotone<T(!new)>(x: T, y: T, vals: set<T>, less: (T, T) -> bool)
    requires StrictTotalOn(less, vals) && x in vals && y in vals && less(x, y)
    ensures Code(x, vals, less) < Code(y, vals, less)
  {
    var bx := set z | z in vals && less(z, x);
    var bY := set z | z in vals && less(z, y);
    assert bx <= bY;
    assert x in bY && x !in bx;
    ProperSubsetSmaller(bx, bY, x);
  }

  /** A map that is injective on `s` has an image as large as `s`. */
  lemma {:induction false} InjectiveImageCard<T(!new)>(s: set<T>, f: T -> int)
    requires forall x, y :: x in s && y in s && x != y ==> f(x) != f(y)
    ensures |set x | x in s :: f(x)| == |s|
  {
    if s != {} {
      var x :| x in s;
      var rest := s - {x};
      InjectiveImageCard(rest, f);
      assert (set y | y in s :: f(y)) == (set y | y in rest :: f(y)) + {f(x)};
      assert f(x) !in (set y | y in rest :: f(y));
    }
  }

  /** `range(k)` as a set. */
  function Range(k: nat): (r: set<int>)
    ensures forall c :: c in r <==> 0 <= c < k
  {
    if k == 0 then {} else Range(k - 1) + {k - 1}
  }

  /** `range(k)` has `k` elements. */
  lemma {:induction false} RangeCard(k: nat)
    ensures |Range(k)| == k
  {
    if k > 0 {
      RangeCard(k - 1);
      var prev := Range(k - 1);
      assert k - 1 !in prev;
      assert |prev + {k - 1}| == |prev| + 1;
    }
  }

  /** Every number in `0..k-1` is the code of some value: the codes are exactly `range(k)`. */
  lemma {:induction false} CodesCover<T(!new)>(vals: set<T>, less: (T, T) -> bool, c: int)
    requires StrictTotalOn(less, vals) && 0 <= c < |vals|
    ensures exists x :: x in vals && Code(x, vals, less) == c
  {
    var f := x => Code(x, vals, less) as int;
    forall x, y | x in vals && y in vals && x != y ensures f(x) != f(y) {
      CodeInjective(x, y, vals, less);
    }
    InjectiveImageCard(vals, f);
    var image := set x | x in vals :: f(x);
    forall d | d in image ensures d in Range(|vals|) {
      var x :| x in vals && f(x) == d;
      CodeInRange(x, vals, less);
    }
    RangeCard(|vals|);
    if c !in image {
      ProperSubsetSmallerInt(image, Range(|vals|), c);
    }
  }

  lemma {:induction false} ProperSubsetSmallerInt(a: set<int>, b: set<int>, x: int)
    requires a <= b && x in b && x !in a
    ensures |a| < |b|
  {
    ProperSubsetSmaller(a, b, x);
  }

  /** Integers in ascending order. */
  predicate IntLess(a: int, b: int) {
    a < b
  }

  /** Python's string comparison: by code points, a proper prefix first. */
  predicate StrLess(a: string, b: string) {
    if a == [] then b != []
    else if b == [] then false
    else if a[0] == b[0] then StrLess(a[1..], b[1..])
    else a[0] < b[0]
  }

  lemma {:induction false} IntLessIsTotal(vals: set<int>)
    ensures StrictTotalOn(IntLess, vals)
  {
  }

  lemma {:induction false} StrLessIrreflexive(a: string)
    ensures !StrLess(a, a)
  {
    if a != [] {
      StrLessIrreflexive(a[1..]);
    }
  }

  lemma {:induction false} StrLessTransitive(a: string, b: string, c: string)
    requires StrLess(a, b) && StrLess(b, c)
    ensures StrLess(a, c)
  {
    if a != [] && b != [] && c != [] && a[0] == b[0] && b[0] == c[0] {
      StrLessTransitive(a[1..], b[1..], c[1..]);
    }
  }

  lemma {:induction false} StrLessTotal(a: string, b: string)
    requires a != b
    ensures StrLess(a, b) || StrLess(b, a)
  {
    if a != [] && b != [] && a[0] == b[0] {
      assert a == [a[0]] + a[1..] && b == [b[0]] + b[1..];
      StrLessTotal(a[1..], b[1..]);
    }
  }

  lemma {:induction false} StrLessIsTotal(vals: set<string>)
    ensures StrictTotalOn(StrLess, vals)
  {
    forall x | x in vals ensures !StrLess(x, x) {
      StrLessIrreflexive(x);
    }
    forall x, y, z | x in vals && y in vals && z in vals && StrLess(x, y) && StrLess(y, z)
      ensures StrLess(x, z)
    {
      StrLessTransitive(x, y, z);
    }
    forall x, y | x in vals && y in vals && x != y ensures StrLess(x, y) || StrLess(y, x) {
      StrLessTotal(x, y);
    }
  }

  /** One interaction row: who, which event, and the aggregated click count (`clicks_count`). */
  datatype UserEvent = UserEvent(userId: string, eventId: int, clicks: int)

  function UserIds(rows: seq<UserEvent>): set<string> {
    set i | 0 <= i < |rows| :: rows[i].userId
  }

  function EventIds(rows: seq<UserEvent>): set<int> {
    set i | 0 <= i < |rows| :: rows[i].eventId
  }

  /** The `user_num` column: the category code of each row's user id. */
  function UserCodes(rows: seq<UserEvent>): (c: seq<int>)
    ensures |c| == |rows|
  {
    seq(|rows|, i requires 0 <= i < |rows| => Code(rows[i].userId, UserIds(rows), StrLess) as int)
  }

  /** The `event_num` column: the category code of each row's event id. */
  function EventCodes(rows: seq<UserEvent>): (c: seq<int>)
    ensures |c| == |rows|
  {
    seq(|rows|, i requires 0 <= i < |rows| => Code(rows[i].eventId, EventIds(rows), IntLess) as int)
  }

  /** The codes are a numbering of the distinct ids: equal ids get equal codes, distinct ids
      distinct codes, all in `0..k-1` with `k` the number of distinct ids; in both columns. */
  lemma {:induction false} CodesNumberIds(rows: seq<UserEvent>)
    ensures forall i :: 0 <= i < |rows| ==> 0 <= UserCodes(rows)[i] < |UserIds(rows)|
    ensures forall i :: 0 <= i < |rows| ==> 0 <= EventCodes(rows)[i] < |EventIds(rows)|
    ensures forall i, j :: 0 <= i < |rows| && 0 <= j < |rows| ==>
              (UserCodes(rows)[i] == UserCodes(rows)[j] <==> rows[i].userId == rows[j].userId)
    ensures forall i, j :: 0 <= i < |rows| && 0 <= j < |rows| ==>
              (EventCodes(rows)[i] == EventCodes(rows)[j] <==> rows[i].eventId == rows[j].eventId)
  {
    StrLessIsTotal(UserIds(rows));
    IntLessIsTotal(EventIds(rows));
    forall i | 0 <= i < |rows|
      ensures UserCodes(rows)[i] < |UserIds(rows)| && EventCodes(rows)[i] < |EventIds(rows)|
    {
      CodeInRange(rows[i].userId, UserIds(rows), StrLess);
      CodeInRange(rows[i].eventId, EventIds(rows), IntLess);
    }
    forall i, j | 0 <= i < |rows| && 0 <= j < |rows| && rows[i].userId != rows[j].userId
      ensures UserCodes(rows)[i] != UserCodes(rows)[j]
    {
      CodeInjective(rows[i].userId, rows[j].userId, UserIds(rows), StrLess);
    }
    forall i, j | 0 <= i < |rows| && 0 <= j < |rows| && rows[i].eventId != rows[j].eventId
      ensures EventCodes(rows)[i] != EventCodes(rows)[j]
    {
      CodeInjective(rows[i].eventId, rows[j].eventId, EventIds(rows), IntLess);
    }
  }

  /** Every number below the count of distinct users is some row's user code. */
  lemma {:induction false} UserCodesOnto(rows: seq<UserEvent>, c: int)
    requires 0 <= c < |UserIds(rows)|
    ensures exists i :: 0 <= i < |rows| && UserCodes(rows)[i] == c
  {
    StrLessIsTotal(UserIds(rows));
    CodesCover(UserIds(rows), StrLess, c);
    var u :| u in UserIds(rows) && Code(u, UserIds(rows), StrLess) == c;
    var i :| 0 <= i < |rows| && rows[i].userId == u;
    assert UserCodes(rows)[i] == c;
  }

  /** Every number below the count of distinct events is some row's event code. */
  lemma {:induction false} EventCodesOnto(rows: seq<UserEvent>, c: int)
    requires 0 <= c < |EventIds(rows)|
    ensures exists i :: 0 <= i < |rows| && EventCodes(rows)[i] == c
  {
    IntLessIsTotal(EventIds(rows));
    CodesCover(EventIds(rows), IntLess, c);
    var e :| e in EventIds(rows) && Code(e, EventIds(rows), IntLess) == c;
    var i :| 0 <= i < |rows| && rows[i].eventId == e;
    assert EventCodes(rows)[i] == c;
  }

  /** A user-event data frame that numbering changes in place: the rows, and the `user_num` and
      `event_num` columns once they have been added. */
  class UserEventFrame {
    var rows: seq<UserEvent>
    var numbered: bool
    var userNum: seq<int>
    var eventNum: seq<int>

    /** A frame as read from a file: no code columns yet. */
    constructor (rows: seq<UserEvent>)
      ensures this.rows == rows && !numbered && userNum == [] && eventNum == []
    {
      this.rows := rows;
      numbered := false;
      userNum := [];
      eventNum := [];
    }

    /** The code columns are present and have one code per row. */
    predicate HasCodes()
      reads this
    {
      numbered && |userNum| == |rows| && |eventNum| == |rows|
    }

    /** The four column writes of the numbering: the id columns become categorical (their values
        are unchanged) and the code columns are set, replacing any earlier ones. */
    method Numerate()
      modifies this
      ensures rows == old(rows) && HasCodes()
      ensures userNum == UserCodes(rows) && eventNum == EventCodes(rows)
    {
      userNum := UserCodes(rows);
      eventNum := EventCodes(rows);
      numbered := true;
    }
  }

  /** `numerate_user_event_df`: numbers the passed frame in place and returns that same frame. */
  method NumerateUserEventDf(df: UserEventFrame) returns (r: UserEventFrame)
    modifies df
    ensures r == df && df.rows == old(df.rows) && df.HasCodes()
    ensures df.userNum == UserCodes(df.rows) && df.eventNum == EventCodes(df.rows)
  {
    df.Numerate();
    r := df;
  }
}
