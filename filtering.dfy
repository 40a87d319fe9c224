/** The filters applied to the user-event interaction table before a model is fitted: rows of
    users of a given age or region, rows of events of a given region, the ids of events that are
    no longer on sale, and the binning of users by how many events they clicked. */
module Filtering {
  import opened Common
  import opened PyStr
  import opened Numbering

  /** A row of the user table: the id, the age in whole years and the region code. A missing
      value (`None`, read back as NaN) fails every comparison of a mask. */
  datatype User = User(userId: string, age: Option<int>, regionCode: Option<int>)

  /** A row of the event table: the id, the region name of the organiser and the code of that
      name (the `region_code` column the events table is written with). */
  datatype Event = Event(eventId: int, regionName: Option<string>, regionCode: Option<int>)

  /** A filter argument as the code tells it apart with `isinstance`: one value, a list, or
      anything else (`None` included). */
  datatype Arg<T> = One(v: T) | Many(vs: seq<T>) | Other

  // ----- selecting rows by user and by event -----

  /** `user_event_df.loc[user_event_df['user_id'].isin(ids)]`. */
  function RowsOfUsers(rows: seq<UserEvent>, ids: set<string>): (r: seq<UserEvent>)
    ensures forall x :: x in r <==> x in rows && x.userId in ids
  {
    Filter(rows, (x: UserEvent) => x.userId in ids)
  }

  /** `user_event_df.loc[user_event_df['event_id'].isin(ids)]`. */
  function RowsOfEvents(rows: seq<UserEvent>, ids: set<int>): (r: seq<UserEvent>)
    ensures forall x :: x in r <==> x in rows && x.eventId in ids
  {
    Filter(rows, (x: UserEvent) => x.eventId in ids)
  }

  /** Selecting by user keeps the table's order and keeps every selected row as often as it
      occurs: the result is the table with exactly the other rows deleted. */
  lemma {:induction false} RowsOfUsersOrder(rows: seq<UserEvent>, ids: set<string>)
    ensures IsSubsequence(RowsOfUsers(rows, ids), rows)
    ensures forall x :: multiset(RowsOfUsers(rows, ids))[x] ==
                        if x.userId in ids then multiset(rows)[x] else 0
  {
    FilterIsSubsequence(rows, (x: UserEvent) => x.userId in ids);
    forall x {
      FilterMultiset(rows, (x: UserEvent) => x.userId in ids, x);
    }
  }

  /** The same for selecting by event. */
  lemma {:induction false} RowsOfEventsOrder(rows: seq<UserEvent>, ids: set<int>)
    ensures IsSubsequence(RowsOfEvents(rows, ids), rows)
    ensures forall x :: multiset(RowsOfEvents(rows, ids))[x] ==
                        if x.eventId in ids then multiset(rows)[x] else 0
  {
    FilterIsSubsequence(rows, (x: UserEvent) => x.eventId in ids);
    forall x {
      FilterMultiset(rows, (x: UserEvent) => x.eventId in ids, x);
    }
  }

  // ----- by user age -----

  /** The age mask as written: `age >= lo | age <= hi` for a two-element list, `age == a` for an
      int. */
  predicate AgePasses(age: Option<int>, arg: Arg<int>) {
    age.Some? &&
    match arg
    case One(a) => age.value == a
    case Many(vs) => |vs| == 2 && (age.value >= vs[0] || age.value <= vs[1])
    case Other => false
  }

  /** `set(users_by_age.user_id)`. */
  function UsersByAge(users: seq<User>, arg: Arg<int>): set<string> {
    set u | u in users && AgePasses(u.age, arg) :: u.userId
  }

  /** Some row of the user table with this id passes the age mask. */
  ghost predicate SomeUserOfAge(users: seq<User>, id: string, arg: Arg<int>) {
    exists u :: u in users && u.userId == id && AgePasses(u.age, arg)
  }

  /** `filter_user_event_df_by_user_age`: a two-element list or an int selects users, anything
      else raises ValueError; the rows kept are those of the selected users. */
  function FilterByUserAge(userEvent: seq<UserEvent>, users: seq<User>, userAge: Arg<int>)
    : (r: Result<seq<UserEvent>>)
    ensures r.Err? <==> !(userAge.One? || (userAge.Many? && |userAge.vs| == 2))
    ensures r.Err? ==> r.error == ValueError
    ensures r.Ok? ==> forall x :: x in r.value <==>
                        x in userEvent && SomeUserOfAge(users, x.userId, userAge)
  {
    if userAge.One? || (userAge.Many? && |userAge.vs| == 2) then
      Ok(RowsOfUsers(userEvent, UsersByAge(users, userAge)))
    else Err(ValueError)
  }

  /** With a range whose bounds are in order, the age mask lets every user of known age through:
      the filter then keeps the rows of all users with an age, whatever the range. */
  lemma {:induction false} AgeRangeKeepsEveryone(userEvent: seq<UserEvent>, users: seq<User>, lo: int, hi: int)
    requires lo <= hi
    ensures FilterByUserAge(userEvent, users, Many([lo, hi])).Ok?
    ensures forall x :: x in FilterByUserAge(userEvent, users, Many([lo, hi])).value <==>
              x in userEvent && exists u :: u in users && u.userId == x.userId && u.age.Some?
  {
    forall u | u in users && u.age.Some? ensures AgePasses(u.age, Many([lo, hi])) {
      assert u.age.value >= lo || u.age.value <= hi;
    }
  }

  /** A concrete case: a user aged 80 passes the range `[18, 25]`. */
  lemma {:induction false} AgeRangeCounterexample()
    ensures FilterByUserAge([UserEvent("u", 1, 1)], [User("u", Some(80), None)], Many([18, 25]))
            == Ok([UserEvent("u", 1, 1)])
  {
    var users := [User("u", Some(80), None)];
    var rows := [UserEvent("u", 1, 1)];
    assert users[0] in users && AgePasses(users[0].age, Many([18, 25]));
    var ids := UsersByAge(users, Many([18, 25]));
    assert "u" in ids;
    var kept := RowsOfUsers(rows, ids);
    assert rows[0] in kept;
    assert |kept| <= 1;
    assert kept == [rows[0]];
    assert FilterByUserAge(rows, users, Many([18, 25])) == Ok(kept);
  }

  /** The age mask the range evidently stands for: `lo <= age <= hi`. */
  predicate AgeInRange(age: Option<int>, arg: Arg<int>) {
    age.Some? &&
    match arg
    case One(a) => age.value == a
    case Many(vs) => |vs| == 2 && vs[0] <= age.value <= vs[1]
    case Other => false
  }

  function UsersInAgeRange(users: seq<User>, arg: Arg<int>): set<string> {
    set u | u in users && AgeInRange(u.age, arg) :: u.userId
  }

  /** The age filter with the range mask corrected: the rows kept are exactly those of users whose
      age lies within the range (or equals the single age); the argument rules are unchanged. */
  function FilterByUserAgeIntended(userEvent: seq<UserEvent>, users: seq<User>, userAge: Arg<int>)
    : (r: Result<seq<UserEvent>>)
    ensures r.Err? <==> !(userAge.One? || (userAge.Many? && |userAge.vs| == 2))
    ensures r.Err? ==> r.error == ValueError
    ensures r.Ok? && userAge.Many? ==> forall x :: x in r.value <==>
              x in userEvent && exists u :: u in users && u.userId == x.userId && u.age.Some? &&
                                            userAge.vs[0] <= u.age.value <= userAge.vs[1]
    ensures r.Ok? && userAge.One? ==> forall x :: x in r.value <==>
              x in userEvent && exists u :: u in users && u.userId == x.userId && u.age == Some(userAge.v)
  {
    if userAge.One? || (userAge.Many? && |userAge.vs| == 2) then
      Ok(RowsOfUsers(userEvent, UsersInAgeRange(users, userAge)))
    else Err(ValueError)
  }

  /** The corrected filter drops the user of the concrete case, and on a single age it agrees with
      the filter as written. */
  lemma {:induction false} AgeRangeIntended(userEvent: seq<UserEvent>, users: seq<User>, a: int)
    ensures FilterByUserAgeIntended([UserEvent("u", 1, 1)], [User("u", Some(80), None)], Many([18, 25]))
            == Ok([])
    ensures FilterByUserAgeIntended(userEvent, users, One(a)) == FilterByUserAge(userEvent, users, One(a))
  {
    var r := FilterByUserAgeIntended([UserEvent("u", 1, 1)], [User("u", Some(80), None)], Many([18, 25]));
    assert UserEvent("u", 1, 1) !in r.value;
    assert UsersInAgeRange(users, One(a)) == UsersByAge(users, One(a));
  }

  // ----- by user region and by event region -----

  /** The region mask: `isin(set(list))` for a list, `== code` for an int. */
  predicate RegionPasses(code: Option<int>, arg: Arg<int>) {
    code.Some? &&
    match arg
    case One(c) => code.value == c
    case Many(cs) => code.value in cs
    case Other => false
  }

  function UsersByRegion(users: seq<User>, arg: Arg<int>): set<string> {
    set u | u in users && RegionPasses(u.regionCode, arg) :: u.userId
  }

  ghost predicate SomeUserOfRegion(users: seq<User>, id: string, arg: Arg<int>) {
    exists u :: u in users && u.userId == id && RegionPasses(u.regionCode, arg)
  }

  /** `filter_user_event_by_user_region`: a list or an int selects users by region code, anything
      else raises ValueError; the rows kept are those of the selected users. */
  function FilterByUserRegion(userEvent: seq<UserEvent>, users: seq<User>, userRegion: Arg<int>)
    : (r: Result<seq<UserEvent>>)
    ensures r.Err? <==> userRegion.Other?
    ensures r.Err? ==> r.error == ValueError
    ensures r.Ok? ==> forall x :: x in r.value <==>
                        x in userEvent && SomeUserOfRegion(users, x.userId, userRegion)
  {
    if userRegion.Other? then Err(ValueError)
    else Ok(RowsOfUsers(userEvent, UsersByRegion(users, userRegion)))
  }

  /** The event-region mask: `isin(set(list))` for a list, `== name` for a string. */
  predicate NamePasses(name: Option<string>, arg: Arg<string>) {
    name.Some? &&
    match arg
    case One(n) => name.value == n
    case Many(ns) => name.value in ns
    case Other => false
  }

  function EventsByRegion(events: seq<Event>, arg: Arg<string>): set<int> {
    set e | e in events && NamePasses(e.regionName, arg) :: e.eventId
  }

  ghost predicate SomeEventOfRegion(events: seq<Event>, id: int, arg: Arg<string>) {
    exists e :: e in events && e.eventId == id && NamePasses(e.regionName, arg)
  }

  /** `filter_user_event_by_event_region`: a list or a string selects events by the organiser's
      region, anything else raises ValueError; the rows kept are those of the selected events. */
  function FilterByEventRegion(userEvent: seq<UserEvent>, events: seq<Event>, eventRegion: Arg<string>)
    : (r: Result<seq<UserEvent>>)
    ensures r.Err? <==> eventRegion.Other?
    ensures r.Err? ==> r.error == ValueError
    ensures r.Ok? ==> forall x :: x in r.value <==>
                        x in userEvent && SomeEventOfRegion(events, x.eventId, eventRegion)
  {
    if eventRegion.Other? then Err(ValueError)
    else Ok(RowsOfEvents(userEvent, EventsByRegion(events, eventRegion)))
  }

  /** Every filter that succeeds returns the input rows with exactly the rejected ones deleted,
      in their original order. */
  lemma {:induction false} FiltersKeepOrder(userEvent: seq<UserEvent>, users: seq<User>, events: seq<Event>,
                         userAge: Arg<int>, userRegion: Arg<int>, eventRegion: Arg<string>)
    ensures FilterByUserAge(userEvent, users, userAge).Ok? ==>
              IsSubsequence(FilterByUserAge(userEvent, users, userAge).value, userEvent)
    ensures FilterByUserRegion(userEvent, users, userRegion).Ok? ==>
              IsSubsequence(FilterByUserRegion(userEvent, users, userRegion).value, userEvent)
    ensures FilterByEventRegion(userEvent, events, eventRegion).Ok? ==>
              IsSubsequence(FilterByEventRegion(userEvent, events, eventRegion).value, userEvent)
  {
    RowsOfUsersOrder(userEvent, UsersByAge(users, userAge));
    RowsOfUsersOrder(userEvent, UsersByRegion(users, userRegion));
    RowsOfEventsOrder(userEvent, EventsByRegion(events, eventRegion));
  }

  // ----- chaining the filters -----

  /** The rows whose user is in `uids` and whose event is in `eids`. */
  function RowsOfUsersAndEvents(rows: seq<UserEvent>, uids: set<string>, eids: set<int>): seq<UserEvent> {
    Filter(rows, (x: UserEvent) => x.userId in uids && x.eventId in eids)
  }

  /** `filter_user_event_df`: the user-region filter, then the event-region filter; the first
      bad argument raises ValueError. */
  function FilterUserEventDf(userEvent: seq<UserEvent>, users: seq<User>, events: seq<Event>,
                             userRegionCode: Arg<int>, eventRegionName: Arg<string>)
    : (r: Result<seq<UserEvent>>)
    ensures r.Err? <==> userRegionCode.Other? || eventRegionName.Other?
    ensures r.Err? ==> r.error == ValueError
  {
    var byUser := FilterByUserRegion(userEvent, users, userRegionCode);
    if byUser.Err? then byUser
    else FilterByEventRegion(byUser.value, events, eventRegionName)
  }

  /** The chained filters keep exactly the rows passing both masks, in order and with their
      repetitions: the same as one mask that asks for both. */
  lemma {:induction false} FilterUserEventDfBoth(userEvent: seq<UserEvent>, users: seq<User>, events: seq<Event>,
                              userRegionCode: Arg<int>, eventRegionName: Arg<string>)
    requires !userRegionCode.Other? && !eventRegionName.Other?
    ensures FilterUserEventDf(userEvent, users, events, userRegionCode, eventRegionName).value ==
            RowsOfUsersAndEvents(userEvent, UsersByRegion(users, userRegionCode),
                                 EventsByRegion(events, eventRegionName))
    ensures forall x :: x in FilterUserEventDf(userEvent, users, events, userRegionCode, eventRegionName).value
              <==> x in userEvent && SomeUserOfRegion(users, x.userId, userRegionCode) &&
                   SomeEventOfRegion(events, x.eventId, eventRegionName)
  {
    var uids := UsersByRegion(users, userRegionCode);
    var eids := EventsByRegion(events, eventRegionName);
    FilterFilter(userEvent, (x: UserEvent) => x.userId in uids, (x: UserEvent) => x.eventId in eids,
                 (x: UserEvent) => x.userId in uids && x.eventId in eids);
  }

  /** The parametrised test of `filter_user_event_df` passes an int region code for the event
      region. An int is neither a list nor a string, so the event-region filter raises ValueError
      and no `DataFrame` comes back. */
  lemma {:induction false} TestFilterWithEventCode(userEvent: seq<UserEvent>, users: seq<User>,
                                                   events: seq<Event>, userCode: int)
    ensures FilterUserEventDf(userEvent, users, events, One(userCode), Other) == Err(ValueError)
  {
  }

  /** The call the test means: a user region code and an organiser region name. It returns the
      rows whose user lives in that region and whose event is organised there. */
  lemma {:induction false} TestFilterWithEventName(userEvent: seq<UserEvent>, users: seq<User>,
                                                   events: seq<Event>, userCode: int, regionName: string)
    ensures FilterUserEventDf(userEvent, users, events, One(userCode), One(regionName)).Ok?
    ensures forall x :: x in FilterUserEventDf(userEvent, users, events, One(userCode), One(regionName)).value
              <==> x in userEvent && SomeUserOfRegion(users, x.userId, One(userCode)) &&
                   SomeEventOfRegion(events, x.eventId, One(regionName))
  {
    FilterUserEventDfBoth(userEvent, users, events, One(userCode), One(regionName));
  }

  /** The events whose `region_code` is `code`. */
  function EventsByRegionCode(events: seq<Event>, code: int): set<int> {
    set e | e in events && e.regionCode == Some(code) :: e.eventId
  }

  ghost predicate SomeEventOfCode(events: seq<Event>, id: int, code: int) {
    exists e :: e in events && e.eventId == id && e.regionCode == Some(code)
  }

  /** `filter_user_event_df` as its callers use it: a user region code and an event region code,
      both ints, the second compared with the events' `region_code`. It keeps, in order, exactly
      the rows whose user lives in the first region and whose event lies in the second. */
  function FilterUserEventDfByCodes(userEvent: seq<UserEvent>, users: seq<User>, events: seq<Event>,
                                    userRegionCode: int, eventRegionCode: int): (r: seq<UserEvent>)
    ensures IsSubsequence(r, userEvent)
    ensures forall x :: x in r <==> x in userEvent && SomeUserOfRegion(users, x.userId, One(userRegionCode)) &&
                                    SomeEventOfCode(events, x.eventId, eventRegionCode)
  {
    var byUser := FilterByUserRegion(userEvent, users, One(userRegionCode)).value;
    FiltersKeepOrder(userEvent, users, events, Other, One(userRegionCode), Other);
    RowsOfEventsOrder(byUser, EventsByRegionCode(events, eventRegionCode));
    SubsequenceTransitive(RowsOfEvents(byUser, EventsByRegionCode(events, eventRegionCode)), byUser, userEvent);
    RowsOfEvents(byUser, EventsByRegionCode(events, eventRegionCode))
  }

  /** The per-region loop of the script passes one code for both: the rows whose user and event
      both belong to that region. */
  lemma {:induction false} SameRegionRows(userEvent: seq<UserEvent>, users: seq<User>, events: seq<Event>,
                                          code: int, x: UserEvent)
    requires x in userEvent
    requires exists u :: u in users && u.userId == x.userId && u.regionCode == Some(code)
    requires exists e :: e in events && e.eventId == x.eventId && e.regionCode == Some(code)
    ensures x in FilterUserEventDfByCodes(userEvent, users, events, code, code)
  {
    var u :| u in users && u.userId == x.userId && u.regionCode == Some(code);
    assert RegionPasses(u.regionCode, One(code));
  }

  /** The script's three filters in turn: age equal to `userAge`, region code equal to
      `userRegion`, organiser region named `orgRegion`. The arguments are an int, an int and a
      string, so no filter raises. */
  function ScriptFilterChain(userEvent: seq<UserEvent>, users: seq<User>, events: seq<Event>,
                             userAge: int, userRegion: int, orgRegion: string): (r: seq<UserEvent>)
  {
    var byAge := FilterByUserAge(userEvent, users, One(userAge)).value;
    var byRegion := FilterByUserRegion(byAge, users, One(userRegion)).value;
    FilterByEventRegion(byRegion, events, One(orgRegion)).value
  }

  /** The rows passing all three masks of the script. */
  function RowsPassingAll(rows: seq<UserEvent>, ages: set<string>, regions: set<string>, eids: set<int>)
    : seq<UserEvent>
  {
    Filter(rows, (x: UserEvent) => x.userId in ages && x.userId in regions && x.eventId in eids)
  }

  /** The script keeps exactly the rows passing the age, region and event-region masks, in their
      original order. */
  lemma {:induction false} ScriptFilterChainAll(userEvent: seq<UserEvent>, users: seq<User>, events: seq<Event>,
                             userAge: int, userRegion: int, orgRegion: string)
    ensures ScriptFilterChain(userEvent, users, events, userAge, userRegion, orgRegion) ==
            RowsPassingAll(userEvent, UsersByAge(users, One(userAge)), UsersByRegion(users, One(userRegion)),
                           EventsByRegion(events, One(orgRegion)))
    ensures IsSubsequence(ScriptFilterChain(userEvent, users, events, userAge, userRegion, orgRegion), userEvent)
  {
    var a := UsersByAge(users, One(userAge));
    var g := UsersByRegion(users, One(userRegion));
    var e := EventsByRegion(events, One(orgRegion));
    var pa := (x: UserEvent) => x.userId in a;
    var pg := (x: UserEvent) => x.userId in g;
    var pe := (x: UserEvent) => x.eventId in e;
    var pag := (x: UserEvent) => x.userId in a && x.userId in g;
    var all := (x: UserEvent) => x.userId in a && x.userId in g && x.eventId in e;
    FilterFilter(userEvent, pa, pg, pag);
    FilterFilter(userEvent, pag, pe, all);
    FilterIsSubsequence(userEvent, all);
  }

  // ----- events no longer on sale -----

  /** The event ids of the rows that are not among `futureIds`, row by row. */
  function EventsNotIn(rows: seq<UserEvent>, futureIds: set<int>): (r: seq<int>)
    ensures forall e :: e in r <==> e !in futureIds && exists x :: x in rows && x.eventId == e
  {
    if rows == [] then []
    else
      var rest := EventsNotIn(rows[1..], futureIds);
      assert forall x :: x in rows[1..] ==> x in rows;
      assert forall x :: x in rows ==> x == rows[0] || x in rows[1..];
      if rows[0].eventId in futureIds then rest else [rows[0].eventId] + rest
  }

  /** `get_extra_events_ids`: the interaction table's event ids that are not future events, each
      once. The order of Python's set is unspecified; here it is the order of first occurrence. */
  function GetExtraEventsIds(userEvent: seq<UserEvent>, futureIds: seq<int>): (r: seq<int>)
    ensures NoDup(r)
    ensures forall e :: e in r <==> e in EventIds(userEvent) && e !in futureIds
  {
    var future := set f | f in futureIds;
    var r := Distinct(EventsNotIn(userEvent, future));
    assert forall e :: e in EventIds(userEvent) <==> exists x :: x in userEvent && x.eventId == e by {
      forall e | e in EventIds(userEvent) ensures exists x :: x in userEvent && x.eventId == e {
        var i :| 0 <= i < |userEvent| && userEvent[i].eventId == e;
        assert userEvent[i] in userEvent;
      }
      forall e | exists x :: x in userEvent && x.eventId == e ensures e in EventIds(userEvent) {
        var x :| x in userEvent && x.eventId == e;
        var i :| 0 <= i < |userEvent| && userEvent[i] == x;
      }
    }
    r
  }

  // ----- activity diapasons -----

  /** The number of rows of user `u`: `groupby('user_id')['clicks_count'].count()`, as the count
      column is never missing. */
  function RowCount(rows: seq<UserEvent>, u: string): (n: nat)
    ensures n <= |rows|
  {
    if rows == [] then 0
    else RowCount(rows[..|rows| - 1], u) + (if rows[|rows| - 1].userId == u then 1 else 0)
  }

  /** A user has rows exactly when the user occurs in the table. */
  lemma {:induction false} RowCountPositive(rows: seq<UserEvent>, u: string)
    ensures RowCount(rows, u) > 0 <==> exists i :: 0 <= i < |rows| && rows[i].userId == u
  {
    if rows != [] {
      var init := rows[..|rows| - 1];
      RowCountPositive(init, u);
      if RowCount(init, u) > 0 {
        var i :| 0 <= i < |init| && init[i].userId == u;
        assert rows[i].userId == u;
      }
      if exists i :: 0 <= i < |rows| && rows[i].userId == u {
        var i :| 0 <= i < |rows| && rows[i].userId == u;
        if i < |rows| - 1 {
          assert init[i].userId == u;
        }
      }
    }
  }

  /** The user column, in row order. */
  function UserColumn(rows: seq<UserEvent>): (c: seq<string>)
    ensures |c| == |rows|
    ensures forall i :: 0 <= i < |rows| ==> c[i] == rows[i].userId
  {
    if rows == [] then [] else UserColumn(rows[..|rows| - 1]) + [rows[|rows| - 1].userId]
  }

  /** The bucket of `pd.cut` over the edges 0, 5, …, 70 (right edges included): bucket `k` holds
      the counts in `(5k, 5k+5]`; a count outside `(0, 70]` falls in none. */
  function Bucket(c: int): (k: Option<nat>)
    ensures k.Some? <==> 0 < c <= 70
    ensures k.Some? ==> k.value < 14 && 5 * k.value < c <= 5 * k.value + 5
  {
    if 0 < c <= 70 then Some((c - 1) / 5) else None
  }

  /** The label of bucket `k`: `'(5k:5k+5]'`. */
  function Label(k: nat): string {
    "(" + DecimalString(5 * k) + ":" + DecimalString(5 * k + 5) + "]"
  }

  /** The `diapason` of a count: its bucket's label, or a missing value. */
  function Diapason(c: int): Option<string> {
    match Bucket(c)
    case Some(k) => Some(Label(k))
    case None => None
  }

  /** One row of the activity table. */
  datatype Activity = Activity(userId: string, count: nat, diapason: Option<string>)

  /** The activity rows of the listed users. */
  function ActivityOf(users: seq<string>, rows: seq<UserEvent>): (r: seq<Activity>)
    ensures |r| == |users|
  {
    if users == [] then []
    else
      var c := RowCount(rows, users[0]);
      [Activity(users[0], c, Diapason(c))] + ActivityOf(users[1..], rows)
  }

  lemma {:induction false} ActivityOfAt(users: seq<string>, rows: seq<UserEvent>, i: nat)
    requires i < |users|
    ensures ActivityOf(users, rows)[i] ==
            Activity(users[i], RowCount(rows, users[i]), Diapason(RowCount(rows, users[i])))
  {
    if i > 0 {
      ActivityOfAt(users[1..], rows, i - 1);
    }
  }

  predicate SortedByCount(s: seq<Activity>) {
    forall i, j :: 0 <= i < j < |s| ==> s[j].count <= s[i].count
  }

  /** Puts `x` before the first row with a smaller count. */
  function InsertByCount(x: Activity, s: seq<Activity>): (r: seq<Activity>)
    ensures |r| == |s| + 1
  {
    if s == [] then [x]
    else if s[0].count < x.count then [x] + s
    else [s[0]] + InsertByCount(x, s[1..])
  }

  lemma {:induction false} InsertByCountMultiset(x: Activity, s: seq<Activity>)
    ensures multiset(InsertByCount(x, s)) == multiset(s) + multiset{x}
  {
    if s != [] && s[0].count >= x.count {
      InsertByCountMultiset(x, s[1..]);
      assert s == [s[0]] + s[1..];
    }
  }

  lemma {:induction false} InsertByCountSorted(x: Activity, s: seq<Activity>)
    requires SortedByCount(s)
    ensures SortedByCount(InsertByCount(x, s))
  {
    if s != [] && s[0].count >= x.count {
      InsertByCountSorted(x, s[1..]);
      var r := InsertByCount(x, s[1..]);
      InsertByCountMultiset(x, s[1..]);
      forall k | 0 <= k < |r| ensures r[k].count <= s[0].count {
        assert r[k] in multiset(r);
        if r[k] != x {
          assert r[k] in multiset(s[1..]);
          var j :| 0 <= j < |s[1..]| && s[1..][j] == r[k];
          assert s[j + 1] == r[k];
        }
      }
      assert InsertByCount(x, s) == [s[0]] + r;
    }
  }

  /** `sort_values(ascending=False)` on the counts. Ties may come out in any order in the source;
      here they come out in reverse input order. */
  function SortByCount(s: seq<Activity>): (r: seq<Activity>)
    ensures |r| == |s|
  {
    if s == [] then [] else InsertByCount(s[0], SortByCount(s[1..]))
  }

  lemma {:induction false} SortByCountSpec(s: seq<Activity>)
    ensures SortedByCount(SortByCount(s))
    ensures multiset(SortByCount(s)) == multiset(s)
  {
    if s != [] {
      SortByCountSpec(s[1..]);
      InsertByCountSorted(s[0], SortByCount(s[1..]));
      InsertByCountMultiset(s[0], SortByCount(s[1..]));
      assert s == [s[0]] + s[1..];
    }
  }

  /** `split_df_into_diapasons`: one row per user with the number of the user's rows, most active
      users first, and the bucket label of that number. */
  function SplitDfIntoDiapasons(df: seq<UserEvent>): (r: seq<Activity>)
    ensures |r| == |Distinct(UserColumn(df))|
  {
    SortByCount(ActivityOf(Distinct(UserColumn(df)), df))
  }

  /** Each activity row belongs to a user of the table and holds that user's row count (at least
      one) and its label; the rows are ordered by descending count. */
  lemma {:induction false} DiapasonsRows(df: seq<UserEvent>)
    ensures SortedByCount(SplitDfIntoDiapasons(df))
    ensures forall a :: a in SplitDfIntoDiapasons(df) ==>
              a.userId in UserIds(df) && a.count == RowCount(df, a.userId) && a.count > 0 &&
              a.diapason == Diapason(a.count)
  {
    var users := Distinct(UserColumn(df));
    var act := ActivityOf(users, df);
    SortByCountSpec(act);
    forall a | a in SplitDfIntoDiapasons(df)
      ensures a.userId in UserIds(df) && a.count == RowCount(df, a.userId) && a.count > 0 &&
              a.diapason == Diapason(a.count)
    {
      assert a in multiset(act);
      var i :| 0 <= i < |act| && act[i] == a;
      ActivityOfAt(users, df, i);
      assert users[i] in UserColumn(df);
      var j :| 0 <= j < |df| && UserColumn(df)[j] == users[i];
      RowCountPositive(df, a.userId);
    }
  }

  /** Every user of the table has exactly one activity row. */
  lemma {:induction false} DiapasonsUsers(df: seq<UserEvent>)
    ensures forall u :: u in UserIds(df) ==> exists a :: a in SplitDfIntoDiapasons(df) && a.userId == u
    ensures forall i, j :: 0 <= i < j < |SplitDfIntoDiapasons(df)| ==>
              SplitDfIntoDiapasons(df)[i].userId != SplitDfIntoDiapasons(df)[j].userId
  {
    DiapasonsCoverUsers(df);
    DiapasonsDistinctUsers(df);
  }

  lemma {:induction false} DiapasonsCoverUsers(df: seq<UserEvent>)
    ensures forall u :: u in UserIds(df) ==> exists a :: a in SplitDfIntoDiapasons(df) && a.userId == u
  {
    var users := Distinct(UserColumn(df));
    var act := ActivityOf(users, df);
    var r := SplitDfIntoDiapasons(df);
    SortByCountSpec(act);
    forall u | u in UserIds(df) ensures exists a :: a in r && a.userId == u {
      var j :| 0 <= j < |df| && df[j].userId == u;
      assert UserColumn(df)[j] == u;
      assert u in users;
      var i :| 0 <= i < |users| && users[i] == u;
      ActivityOfAt(users, df, i);
      assert act[i] in multiset(r);
    }
  }

  lemma {:induction false} DiapasonsDistinctUsers(df: seq<UserEvent>)
    ensures forall i, j :: 0 <= i < j < |SplitDfIntoDiapasons(df)| ==>
              SplitDfIntoDiapasons(df)[i].userId != SplitDfIntoDiapasons(df)[j].userId
  {
    var users := Distinct(UserColumn(df));
    var act := ActivityOf(users, df);
    var r := SplitDfIntoDiapasons(df);
    SortByCountSpec(act);
    forall i | 0 <= i < |act| ensures multiset(act)[act[i]] == 1 {
      ActivityOfAt(users, df, i);
      UniqueUserAt(users, df, i);
    }
    forall i, j | 0 <= i < j < |r| ensures r[i].userId != r[j].userId {
      DistinctUserRows(users, df, act, r, i, j);
    }
  }

  /** Two rows of a permutation of the activity rows of distinct users have different users. */
  lemma {:induction false} DistinctUserRows(users: seq<string>, df: seq<UserEvent>, act: seq<Activity>, r: seq<Activity>,
                                            i: nat, j: nat)
    requires act == ActivityOf(users, df) && multiset(r) == multiset(act)
    requires forall k :: 0 <= k < |act| ==> multiset(act)[act[k]] == 1
    requires i < j < |r|
    ensures r[i].userId != r[j].userId
  {
    if r[i].userId == r[j].userId {
      assert r[i] in multiset(act);
      var k :| 0 <= k < |act| && act[k] == r[i];
      ActivityOfAt(users, df, k);
      assert r[j] in multiset(act);
      var l :| 0 <= l < |act| && act[l] == r[j];
      ActivityOfAt(users, df, l);
      assert r[i] == r[j];
      TwoOccurrences(r, i, j);
    }
  }

  /** The activity row of the `i`-th of a list of distinct users occurs once. */
  lemma {:induction false} UniqueUserAt(users: seq<string>, rows: seq<UserEvent>, i: nat)
    requires NoDup(users) && i < |users|
    ensures multiset(ActivityOf(users, rows))[ActivityOf(users, rows)[i]] == 1
  {
    var act := ActivityOf(users, rows);
    ActivityOfAt(users, rows, i);
    if i == 0 {
      NotInActivity(users[1..], rows, act[0]);
      assert act == [act[0]] + ActivityOf(users[1..], rows);
    } else {
      assert NoDup(users[1..]);
      UniqueUserAt(users[1..], rows, i - 1);
      ActivityOfAt(users[1..], rows, i - 1);
      assert act == [act[0]] + ActivityOf(users[1..], rows);
      ActivityOfAt(users, rows, 0);
      assert users[0] != users[i];
    }
  }

  lemma {:induction false} NotInActivity(users: seq<string>, rows: seq<UserEvent>, a: Activity)
    requires a.userId !in users
    ensures a !in ActivityOf(users, rows)
  {
    if users != [] {
      NotInActivity(users[1..], rows, a);
    }
  }

  /** An element at two positions occurs at least twice. */
  lemma {:induction false} TwoOccurrences<T>(s: seq<T>, i: nat, j: nat)
    requires i < j < |s| && s[i] == s[j]
    ensures multiset(s)[s[i]] >= 2
  {
    assert s == s[..j] + s[j..];
    assert s[i] == s[..j][i];
    assert s[j] == s[j..][0];
  }

  /** The sum of the counts of an activity table. */
  function TotalCount(s: seq<Activity>): nat {
    if s == [] then 0 else s[0].count + TotalCount(s[1..])
  }

  lemma {:induction false} InsertByCountTotal(x: Activity, s: seq<Activity>)
    ensures TotalCount(InsertByCount(x, s)) == x.count + TotalCount(s)
  {
    if s != [] && s[0].count >= x.count {
      InsertByCountTotal(x, s[1..]);
    }
  }

  lemma {:induction false} SortByCountTotal(s: seq<Activity>)
    ensures TotalCount(SortByCount(s)) == TotalCount(s)
  {
    if s != [] {
      SortByCountTotal(s[1..]);
      InsertByCountTotal(s[0], SortByCount(s[1..]));
    }
  }

  lemma {:induction false} ActivityOfAppend(users: seq<string>, u: string, rows: seq<UserEvent>)
    ensures TotalCount(ActivityOf(users + [u], rows)) == TotalCount(ActivityOf(users, rows)) + RowCount(rows, u)
  {
    if users != [] {
      assert (users + [u])[1..] == users[1..] + [u];
      ActivityOfAppend(users[1..], u, rows);
    }
  }

  /** Adding one row to the table adds one to the total of the distinct users that include its
      user, and nothing to that of users who do not. */
  lemma {:induction false} ActivityOfOneMore(users: seq<string>, rows: seq<UserEvent>, x: UserEvent)
    requires NoDup(users)
    ensures TotalCount(ActivityOf(users, rows + [x])) ==
            TotalCount(ActivityOf(users, rows)) + (if x.userId in users then 1 else 0)
  {
    if users != [] {
      assert (rows + [x])[..|rows + [x]| - 1] == rows;
      assert NoDup(users[1..]);
      ActivityOfOneMore(users[1..], rows, x);
      if x.userId == users[0] {
        assert x.userId !in users[1..];
      }
    }
  }

  /** The counts of the activity table add up to the number of rows of the table. */
  lemma {:induction false} DiapasonsTotal(df: seq<UserEvent>)
    ensures TotalCount(SplitDfIntoDiapasons(df)) == |df|
  {
    SortByCountTotal(ActivityOf(Distinct(UserColumn(df)), df));
    DistinctTotal(df);
  }

  lemma {:induction false} DistinctTotal(df: seq<UserEvent>)
    ensures TotalCount(ActivityOf(Distinct(UserColumn(df)), df)) == |df|
  {
    if df != [] {
      var init := df[..|df| - 1];
      var x := df[|df| - 1];
      assert df == init + [x];
      assert UserColumn(df)[..|df| - 1] == UserColumn(init);
      var d := Distinct(UserColumn(init));
      DistinctTotal(init);
      ActivityOfOneMore(d, init, x);
      if x.userId !in d {
        ActivityOfAppend(d, x.userId, df);
        ActivityOfOneMore(d, init, x);
        assert x.userId !in UserColumn(init);
        RowCountAbsent(init, x.userId);
      }
    }
  }

  lemma {:induction false} RowCountAbsent(rows: seq<UserEvent>, u: string)
    requires u !in UserColumn(rows)
    ensures RowCount(rows, u) == 0
  {
    RowCountPositive(rows, u);
  }
}
