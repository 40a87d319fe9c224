/** The preprocessing helpers that turn the raw user, organisation, event and click tables into
    the inputs of the filters: the age rule, lookups that give `None` for a missing key, the fixed
    table of region codes, the region part of an address, click de-duplication, and the grouping
    of clicks into per-(user, event) counts. Dates are day numbers (proleptic Gregorian ordinals). */
module Preprocessing {
  import opened Common
  import opened PyStr
  import Filtering

  // ----- age -----

  /** The download date 2021-11-15 as a day number. */
  const DownloadDay: int := 738109

  function Abs(x: int): nat {
    if x < 0 then -x else x
  }

  /** `abs((DOWNLOAD_DATE - birth).days) // 365`: the whole number of 365-day years between the
      birth date and the download date, on either side of it. */
  function AgeInYears(birthDay: int): (a: nat)
    ensures 365 * a <= Abs(DownloadDay - birthDay) < 365 * (a + 1)
  {
    Abs(DownloadDay - birthDay) / 365
  }

  /** A date `d` days after the download date gives the same age as one `d` days before it. */
  lemma {:induction false} AgeSymmetric(d: int)
    ensures AgeInYears(DownloadDay + d) == AgeInYears(DownloadDay - d)
  {
  }

  // ----- lookups -----

  /** `try: return d[k] except KeyError: return None`: the value of the key, or `None`. */
  function GetOrNone<K, V>(d: map<K, V>, k: K): (r: Option<V>)
    ensures r.Some? <==> k in d
    ensures r.Some? ==> r.value == d[k]
  {
    if k in d then Some(d[k]) else None
  }

  /** `get_user_age`: the age stored under the id's string form. Ids are strings in this model, so
      `str(user_id)` is the id itself. */
  function GetUserAge(userId: string, userAge: map<string, int>): (r: Option<int>)
    ensures r.Some? <==> userId in userAge
    ensures r.Some? ==> r.value == userAge[userId]
  {
    GetOrNone(userAge, userId)
  }

  /** `get_region_code_for_event`: the code of an organiser region name in the function's fixed
      table, whose keys are the spellings the event data uses; `None` for any other name. */
  function GetRegionCodeForEvent(regionName: string): Option<int> {
    match regionName
    case "Белгородская обл" => Some(31)
    case "Калужская обл" => Some(40)
    case "г Санкт-Петербург" => Some(78)
    case "Курганская обл" => Some(45)
    case "Нижегородская обл" => Some(52)
    case "Самарская обл" => Some(63)
    case "Ярославская обл" => Some(76)
    case "Свердловская обл" => Some(66)
    case "Тульская обл" => Some(71)
    case "Пермский край" => Some(59)
    case "г Москва" => Some(77)
    case "Тверская обл" => Some(69)
    case "Респ Карелия" => Some(10)
    case "Ульяновская обл" => Some(73)
    case "АО Ханты-Мансийский Автономный округ - Югра" => Some(86)
    case "Омская обл" => Some(55)
    case "Смоленская обл" => Some(67)
    case "Тюменская обл" => Some(72)
    case "Тамбовская обл" => Some(68)
    case "Московская обл" => Some(50)
    case "Кемеровская обл" => Some(42)
    case "Чувашская республика Чувашия" => Some(21)
    case "Респ Татарстан" => Some(16)
    case "Рязанская обл" => Some(62)
    case "Ставропольский край" => Some(26)
    case "Пензенская обл" => Some(58)
    case "Респ Бурятия" => Some(3)
    case "Новосибирская обл" => Some(54)
    case "Краснодарский край" => Some(23)
    case "Респ Марий Эл" => Some(12)
    case "Астраханская обл" => Some(30)
    case "Удмуртская Респ" => Some(18)
    case "Ивановская обл" => Some(37)
    case "Забайкальский край" => Some(75)
    case "Саратовская обл" => Some(64)
    case "Волгоградская обл" => Some(34)
    case "Респ Крым" => Some(82)
    case "Кировская обл" => Some(43)
    case "Челябинская обл" => Some(74)
    case "Приморский край" => Some(25)
    case "Ростовская обл" => Some(61)
    case "Владимирская обл" => Some(33)
    case "Красноярский край" => Some(24)
    case "Курская обл" => Some(46)
    case "Камчатский край" => Some(41)
    case "Респ Мордовия" => Some(13)
    case "Хабаровский край" => Some(27)
    case "Респ Дагестан" => Some(5)
    case "Респ Башкортостан" => Some(2)
    case "Томская обл" => Some(70)
    case "Респ Адыгея" => Some(1)
    case "Алтайский край" => Some(22)
    case "Орловская обл" => Some(57)
    case "Костромская обл" => Some(44)
    case "Вологодская обл" => Some(35)
    case "Ямало-Ненецкий ао" => Some(89)
    case "Оренбургская обл" => Some(56)
    case "Калининградская обл" => Some(39)
    case "Респ Хакасия" => Some(19)
    case "Респ Коми" => Some(11)
    case "г Севастополь" => Some(92)
    case "Липецкая обл" => Some(48)
    case "Респ Саха /Якутия/" => Some(14)
    case "Магаданская обл" => Some(49)
    case "Новгородская обл" => Some(53)
    case "Ямало-Ненецкий АО" => Some(89)
    case "Чеченская Респ" => Some(95)
    case "Мурманская обл" => Some(51)
    case "Респ Северная Осетия - Алания" => Some(15)
    case "Кабардино-Балкарская респ" => Some(7)
    case "Воронежская обл" => Some(36)
    case "респ Дагестан" => Some(5)
    case "Амурская обл" => Some(28)
    case "Кабардино-Балкарская Респ" => Some(7)
    case "Сахалинская обл" => Some(65)
    case "Брянская обл" => Some(32)
    case "Ленинградская обл" => Some(47)
    case "Архангельская обл" => Some(29)
    case "Иркутская обл" => Some(38)
    case "Карачаево-Черкесская Респ" => Some(9)
    case "Ханты-Мансийский Автономный округ - Югра" => Some(86)
    case "Респ Алтай" => Some(4)
    case "Респ Ингушетия" => Some(6)
    case "Ненецкий АО" => Some(83)
    case "респ Бурятия" => Some(3)
    case "Чеченская респ" => Some(95)
    case "Псковская обл" => Some(60)
    case "Респ Калмыкия" => Some(8)
    case "п Рязановское" => Some(77)
    case "Респ Тыва" => Some(17)
    case "респ Татарстан" => Some(16)
    case "п Кленовское" => Some(77)
    case "п Десеновское" => Some(77)
    case "п Михайлово-Ярцевское" => Some(77)
    case "Еврейская Аобл" => Some(79)
    case "респ Саха /Якутия/" => Some(14)
    case "респ Мордовия" => Some(13)
    case "п Новофедоровское" => Some(77)
    case "ао Ханты-Мансийский Автономный округ - Югра" => Some(86)
    case "респ Ингушетия" => Some(6)
    case "респ Башкортостан" => Some(2)
    case "респ Карелия" => Some(10)
    case "респ Марий Эл" => Some(12)
    case "обл Кемеровская область - Кузбасс" => Some(42)
    case "Удмуртская респ" => Some(18)
    case _ => None
  }

  /** Two spellings of the Yamalo-Nenets region share its code. */
  lemma {:induction false} YamalSpellings()
    ensures GetRegionCodeForEvent("Ямало-Ненецкий ао") == GetRegionCodeForEvent("Ямало-Ненецкий АО") == Some(89)
  {
  }

  /** Moscow and its settlements have Moscow's code. */
  lemma {:induction false} MoscowCodes()
    ensures GetRegionCodeForEvent("г Москва") == GetRegionCodeForEvent("п Кленовское") == Some(77)
  {
  }

  /** A name outside the table has no code, even a near spelling of one inside it. */
  lemma {:induction false} UnknownRegionName()
    ensures GetRegionCodeForEvent("Москва") == None
  {
  }

  /** `get_region_code_for_user`, `get_region_code`, `get_event_region`, `get_event_category` and
      `get_org_id` are `GetOrNone` on the dictionary they are given. */

  // ----- addresses -----

  /** `address.split(',')[0]`: the text before the first comma, or the whole address when it has
      none. */
  function GetRegionFromAddress(address: string): (r: string)
    ensures |r| <= |address| && r == address[..|r|]
    ensures ',' !in r
    ensures |r| < |address| ==> address[|r|] == ','
    ensures ',' !in address ==> r == address
  {
    BeforeFirstIsPrefix(address, ',');
    BeforeFirst(address, ',')
  }

  // ----- keeping the first row of each key -----

  /** No row before position `i` has the key of row `i`. */
  ghost predicate FirstOfKey<T, K>(s: seq<T>, key: T -> K, i: int)
    requires 0 <= i < |s|
  {
    forall j :: 0 <= j < i ==> key(s[j]) != key(s[i])
  }

  /** `drop_duplicates(subset)` with the keys in `seen` already taken: the rows whose key has not
      been met before, in order. Missing values count as equal to each other, as in pandas. */
  function DedupBy<T, K(==)>(s: seq<T>, key: T -> K, seen: set<K>): (r: seq<T>)
    ensures |r| <= |s|
  {
    if s == [] then []
    else if key(s[0]) in seen then DedupBy(s[1..], key, seen)
    else [s[0]] + DedupBy(s[1..], key, seen + {key(s[0])})
  }

  /** The kept rows are, in order, exactly the first rows of the keys not in `seen`, one per key. */
  lemma {:induction false} DedupBySpec<T, K>(s: seq<T>, key: T -> K, seen: set<K>)
    ensures IsSubsequence(DedupBy(s, key, seen), s)
    ensures forall x :: x in DedupBy(s, key, seen) ==> key(x) !in seen
    ensures forall i, j :: 0 <= i < j < |DedupBy(s, key, seen)| ==>
              key(DedupBy(s, key, seen)[i]) != key(DedupBy(s, key, seen)[j])
    ensures forall i :: 0 <= i < |s| && key(s[i]) !in seen && FirstOfKey(s, key, i) ==>
              s[i] in DedupBy(s, key, seen)
    ensures forall x :: x in DedupBy(s, key, seen) ==>
              exists i :: 0 <= i < |s| && s[i] == x && FirstOfKey(s, key, i)
  {
    if s != [] {
      var h, t := s[0], s[1..];
      var r := DedupBy(s, key, seen);
      if key(h) in seen {
        DedupBySpec(t, key, seen);
        SubsequenceOfTail(r, s);
        forall x | x in r ensures exists i :: 0 <= i < |s| && s[i] == x && FirstOfKey(s, key, i) {
          var i :| 0 <= i < |t| && t[i] == x && FirstOfKey(t, key, i);
          assert s[i + 1] == x;
          assert FirstOfKey(s, key, i + 1);
        }
        forall i | 0 <= i < |s| && key(s[i]) !in seen && FirstOfKey(s, key, i) ensures s[i] in r {
          assert i > 0;
          assert t[i - 1] == s[i];
          assert FirstOfKey(t, key, i - 1);
        }
      } else {
        var seen' := seen + {key(h)};
        var r' := DedupBy(t, key, seen');
        DedupBySpec(t, key, seen');
        assert r == [h] + r';
        assert r[1..] == r';
        forall x | x in r ensures exists i :: 0 <= i < |s| && s[i] == x && FirstOfKey(s, key, i) {
          if x == h {
            assert FirstOfKey(s, key, 0);
          } else {
            assert x in r';
            var i :| 0 <= i < |t| && t[i] == x && FirstOfKey(t, key, i);
            assert s[i + 1] == x;
            assert FirstOfKey(s, key, i + 1);
          }
        }
        forall i | 0 <= i < |s| && key(s[i]) !in seen && FirstOfKey(s, key, i) ensures s[i] in r {
          if i > 0 {
            assert key(s[0]) != key(s[i]);
            assert t[i - 1] == s[i];
            assert FirstOfKey(t, key, i - 1);
          }
        }
        forall i, j | 0 <= i < j < |r| ensures key(r[i]) != key(r[j]) {
          if i == 0 {
            assert r[j] == r'[j - 1];
            assert r'[j - 1] in r';
          } else {
            assert r[i] == r'[i - 1] && r[j] == r'[j - 1];
          }
        }
      }
    }
  }

  /** `drop_duplicates(subset)`: the first row of every key, in order. */
  function DropDuplicatesBy<T, K(==)>(s: seq<T>, key: T -> K): (r: seq<T>)
    ensures |r| <= |s|
  {
    DedupBy(s, key, {})
  }

  // ----- clicks -----

  /** A click row: the creation time, the user, the event, its organisation and its name; a cell
      may be missing. */
  datatype Click = Click(createTime: Option<int>, userId: string, eventId: Option<int>,
                         organizationId: Option<int>, eventName: Option<string>)

  /** The de-duplication key `['create_time', 'user_id']`. */
  function ClickKey(c: Click): (Option<int>, string) {
    (c.createTime, c.userId)
  }

  predicate HasEventAndOrg(c: Click) {
    c.eventId.Some? && c.organizationId.Some?
  }

  /** `get_clicks_dataframe` after its column drops and renames: the first click of every
      (create_time, user_id), then only those with an event and an organisation. */
  function GetClicksDataframe(clicks: seq<Click>): (r: seq<Click>)
  {
    Filter(DropDuplicatesBy(clicks, ClickKey), HasEventAndOrg)
  }

  /** The cleaned clicks are, in order, the first click of each (create_time, user_id) that has an
      event and an organisation; no two share that key. */
  lemma {:induction false} GetClicksDataframeSpec(clicks: seq<Click>)
    ensures IsSubsequence(GetClicksDataframe(clicks), clicks)
    ensures forall i :: 0 <= i < |clicks| ==>
              (clicks[i] in GetClicksDataframe(clicks) <==>
               HasEventAndOrg(clicks[i]) &&
               exists j :: 0 <= j < |clicks| && clicks[j] == clicks[i] && FirstOfKey(clicks, ClickKey, j))
    ensures forall i, j :: 0 <= i < j < |GetClicksDataframe(clicks)| ==>
              ClickKey(GetClicksDataframe(clicks)[i]) != ClickKey(GetClicksDataframe(clicks)[j])
  {
    var d := DropDuplicatesBy(clicks, ClickKey);
    DedupBySpec(clicks, ClickKey, {});
    FilterIsSubsequence(d, HasEventAndOrg);
    SubsequenceTransitive(GetClicksDataframe(clicks), d, clicks);
    FilterKeepsDistinctKeys(d, HasEventAndOrg, ClickKey);
  }

  // ----- clicked users -----

  /** A user of the merged users frame, with the buyer's phone cell. */
  datatype ClickedUser = ClickedUser(userId: string, buyerPhone: Option<string>, userRegion: Option<int>)

  predicate HasBuyerPhone(u: ClickedUser) {
    u.buyerPhone.Some?
  }

  function UserIdOf(u: ClickedUser): string {
    u.userId
  }

  /** `users_full` of `get_user_dataframe` in preprocessing/preprocessing.py, without the `in_count`
      column: the users with a buyer phone, then the first row of every user id. */
  function UsersFull(users: seq<ClickedUser>): seq<ClickedUser> {
    DropDuplicatesBy(Filter(users, HasBuyerPhone), UserIdOf)
  }

  /** Every user with a phone keeps exactly one row, the first of theirs that has a phone, in the
      order of the input. */
  lemma {:induction false} UsersFullSpec(users: seq<ClickedUser>)
    ensures IsSubsequence(UsersFull(users), users)
    ensures forall i, j :: 0 <= i < j < |UsersFull(users)| ==> UsersFull(users)[i].userId != UsersFull(users)[j].userId
    ensures forall u :: u in UsersFull(users) ==> HasBuyerPhone(u)
    ensures forall i :: 0 <= i < |Filter(users, HasBuyerPhone)| && FirstOfKey(Filter(users, HasBuyerPhone), UserIdOf, i) ==>
              Filter(users, HasBuyerPhone)[i] in UsersFull(users)
  {
    var phoned := Filter(users, HasBuyerPhone);
    DedupBySpec(phoned, UserIdOf, {});
    FilterIsSubsequence(users, HasBuyerPhone);
    SubsequenceTransitive(UsersFull(users), phoned, users);
    forall u | u in UsersFull(users) ensures HasBuyerPhone(u) {
      var i :| 0 <= i < |phoned| && phoned[i] == u && FirstOfKey(phoned, UserIdOf, i);
    }
  }

  /** Filtering rows whose keys are pairwise different keeps their keys pairwise different. */
  lemma {:induction false} FilterKeepsDistinctKeys<T(!new), K>(s: seq<T>, p: T -> bool, key: T -> K)
    requires forall i, j :: 0 <= i < j < |s| ==> key(s[i]) != key(s[j])
    ensures forall i, j :: 0 <= i < j < |Filter(s, p)| ==> key(Filter(s, p)[i]) != key(Filter(s, p)[j])
  {
    if s != [] {
      var t := s[1..];
      FilterKeepsDistinctKeys(t, p, key);
      if p(s[0]) {
        var r' := Filter(t, p);
        assert Filter(s, p) == [s[0]] + r';
        forall x | x in r' ensures key(x) != key(s[0]) {
          var k :| 0 <= k < |t| && t[k] == x;
          assert s[k + 1] == x;
        }
        ConsDistinctKeys(s[0], r', key);
      }
    }
  }

  /** A row whose key no later row has, in front of rows with distinct keys, keeps the keys
      distinct. */
  lemma {:induction false} ConsDistinctKeys<T, K>(x: T, r: seq<T>, key: T -> K)
    requires forall i, j :: 0 <= i < j < |r| ==> key(r[i]) != key(r[j])
    requires forall y :: y in r ==> key(y) != key(x)
    ensures forall i, j :: 0 <= i < j < |[x] + r| ==> key(([x] + r)[i]) != key(([x] + r)[j])
  {
    var q := [x] + r;
    forall i, j | 0 <= i < j < |q| ensures key(q[i]) != key(q[j]) {
      assert q[j] == r[j - 1] && r[j - 1] in r;
      if i > 0 {
        assert q[i] == r[i - 1];
      }
    }
  }

  // ----- grouping -----

  /** The rows of a `groupby(keys)[col].count()`, each reduced to its group key (`None` when a key
      column is missing: pandas leaves such rows out) and to whether the counted column is present. */
  type Keyed<K> = (Option<K>, bool)

  /** The group keys present, in row order. */
  function PresentKeys<K(==,!new)>(s: seq<Keyed<K>>): (r: seq<K>)
    ensures forall k :: k in r <==> exists i :: 0 <= i < |s| && s[i].0 == Some(k)
  {
    if s == [] then []
    else
      var init := PresentKeys(s[..|s| - 1]);
      assert forall i :: 0 <= i < |s| - 1 ==> s[..|s| - 1][i] == s[i];
      match s[|s| - 1].0
      case Some(k) => init + [k]
      case None => init
  }

  /** How many rows of group `k` have the counted column: what `count()` gives for the group. */
  function CountOf<K(==,!new)>(s: seq<Keyed<K>>, k: K): (n: nat)
    ensures n <= |s|
  {
    if s == [] then 0
    else CountOf(s[..|s| - 1], k) + (if s[|s| - 1] == (Some(k), true) then 1 else 0)
  }

  /** The group rows of the listed keys. */
  function CountsOf<K(==,!new)>(ks: seq<K>, s: seq<Keyed<K>>): (r: seq<(K, nat)>)
    ensures |r| == |ks|
    ensures forall i :: 0 <= i < |ks| ==> r[i] == (ks[i], CountOf(s, ks[i]))
  {
    if ks == [] then [] else [(ks[0], CountOf(s, ks[0]))] + CountsOf(ks[1..], s)
  }

  /** `groupby(keys)[col].count().reset_index()`: one row per group key, with its count. The
      source lists the groups in sorted key order; here they are in order of first occurrence. */
  function GroupCount<K(==,!new)>(s: seq<Keyed<K>>): (r: seq<(K, nat)>)
  {
    CountsOf(Distinct(PresentKeys(s)), s)
  }

  /** The number of rows that are counted: a key present and the counted column present. */
  function Counted<K(==,!new)>(s: seq<Keyed<K>>): (n: nat)
  {
    if s == [] then 0
    else Counted(s[..|s| - 1]) + (if s[|s| - 1].0.Some? && s[|s| - 1].1 then 1 else 0)
  }

  function Total<K(==,!new)>(ps: seq<(K, nat)>): nat {
    if ps == [] then 0 else ps[0].1 + Total(ps[1..])
  }

  /** A group's count is positive exactly when one of its rows has the counted column. */
  lemma {:induction false} CountOfPositive<K(!new)>(s: seq<Keyed<K>>, k: K)
    ensures CountOf(s, k) > 0 <==> exists i :: 0 <= i < |s| && s[i] == (Some(k), true)
  {
    if s != [] {
      var init := s[..|s| - 1];
      CountOfPositive(init, k);
      if CountOf(init, k) > 0 {
        var i :| 0 <= i < |init| && init[i] == (Some(k), true);
        assert s[i] == (Some(k), true);
      }
      if exists i :: 0 <= i < |s| && s[i] == (Some(k), true) {
        var i :| 0 <= i < |s| && s[i] == (Some(k), true);
        if i < |s| - 1 {
          assert init[i] == (Some(k), true);
        }
      }
    }
  }

  /** There is one group row per distinct key present, each with that key's count. */
  lemma {:induction false} GroupCountRows<K(!new)>(s: seq<Keyed<K>>)
    ensures forall i, j :: 0 <= i < j < |GroupCount(s)| ==> GroupCount(s)[i].0 != GroupCount(s)[j].0
    ensures forall k :: (exists i :: 0 <= i < |GroupCount(s)| && GroupCount(s)[i].0 == k) <==>
                        (exists i :: 0 <= i < |s| && s[i].0 == Some(k))
    ensures forall i :: 0 <= i < |GroupCount(s)| ==> GroupCount(s)[i].1 == CountOf(s, GroupCount(s)[i].0)
  {
    var ks := Distinct(PresentKeys(s));
    forall k | exists i :: 0 <= i < |s| && s[i].0 == Some(k)
      ensures exists i :: 0 <= i < |GroupCount(s)| && GroupCount(s)[i].0 == k
    {
      assert k in ks;
      var i :| 0 <= i < |ks| && ks[i] == k;
      assert GroupCount(s)[i].0 == k;
    }
    forall k | exists i :: 0 <= i < |GroupCount(s)| && GroupCount(s)[i].0 == k
      ensures exists i :: 0 <= i < |s| && s[i].0 == Some(k)
    {
      var i :| 0 <= i < |GroupCount(s)| && GroupCount(s)[i].0 == k;
      assert ks[i] in ks;
    }
  }

  lemma {:induction false} TotalAppend<K(!new)>(ks: seq<K>, k: K, s: seq<Keyed<K>>)
    ensures Total(CountsOf(ks + [k], s)) == Total(CountsOf(ks, s)) + CountOf(s, k)
  {
    if ks != [] {
      assert (ks + [k])[1..] == ks[1..] + [k];
      TotalAppend(ks[1..], k, s);
    }
  }

  lemma {:induction false} TotalOneMore<K(!new)>(ks: seq<K>, s: seq<Keyed<K>>, x: Keyed<K>)
    requires NoDup(ks)
    ensures Total(CountsOf(ks, s + [x])) ==
            Total(CountsOf(ks, s)) + (if x.1 && x.0.Some? && x.0.value in ks then 1 else 0)
  {
    if ks != [] {
      assert (s + [x])[..|s + [x]| - 1] == s;
      assert NoDup(ks[1..]);
      TotalOneMore(ks[1..], s, x);
      if x.0 == Some(ks[0]) {
        assert ks[0] !in ks[1..];
      }
    }
  }

  lemma {:induction false} CountOfAbsent<K(!new)>(s: seq<Keyed<K>>, k: K)
    requires k !in PresentKeys(s)
    ensures CountOf(s, k) == 0
  {
    CountOfPositive(s, k);
  }

  /** The counts add up to the number of counted rows: grouping loses no click and invents none. */
  lemma {:induction false} GroupCountTotal<K(!new)>(s: seq<Keyed<K>>)
    ensures Total(GroupCount(s)) == Counted(s)
  {
    if s != [] {
      var init := s[..|s| - 1];
      var x := s[|s| - 1];
      assert s == init + [x];
      assert PresentKeys(s) == if x.0.Some? then PresentKeys(init) + [x.0.value] else PresentKeys(init);
      var d := Distinct(PresentKeys(init));
      GroupCountTotal(init);
      TotalOneMore(d, init, x);
      if x.0.Some? && x.0.value !in d {
        TotalAppend(d, x.0.value, s);
        assert x.0.value !in PresentKeys(init);
        CountOfAbsent(init, x.0.value);
      }
    }
  }

  // ----- the per-(user, event) table -----

  /** A row of `get_user_event_dataframe`: the group key and its `clicks_count`. */
  datatype UserEventCount = UserEventCount(userId: string, eventId: int, eventName: string, clicksCount: nat)

  /** The grouping view of a click: key `(user_id, event_id, event_name)` and whether
      `create_time` is present. */
  function ByUserEventName(c: Click): Keyed<(string, int, string)> {
    (if c.eventId.Some? && c.eventName.Some? then Some((c.userId, c.eventId.value, c.eventName.value)) else None,
     c.createTime.Some?)
  }

  function KeyedClicks3(clicks: seq<Click>): (r: seq<Keyed<(string, int, string)>>)
    ensures |r| == |clicks|
    ensures forall i :: 0 <= i < |clicks| ==> r[i] == ByUserEventName(clicks[i])
  {
    if clicks == [] then [] else KeyedClicks3(clicks[..|clicks| - 1]) + [ByUserEventName(clicks[|clicks| - 1])]
  }

  function ToUserEventCounts(g: seq<((string, int, string), nat)>): (r: seq<UserEventCount>)
    ensures |r| == |g|
    ensures forall i :: 0 <= i < |g| ==> r[i] == UserEventCount(g[i].0.0, g[i].0.1, g[i].0.2, g[i].1)
  {
    if g == [] then [] else [UserEventCount(g[0].0.0, g[0].0.1, g[0].0.2, g[0].1)] + ToUserEventCounts(g[1..])
  }

  /** `get_user_event_dataframe` of the file's cleaned clicks: the count of clicks per
      (user_id, event_id, event_name), with `event_id` an int. */
  function GetUserEventDataframe(clicks: seq<Click>): (r: seq<UserEventCount>)
  {
    ToUserEventCounts(GroupCount(KeyedClicks3(GetClicksDataframe(clicks))))
  }

  /** One row per distinct (user, event, name) of the cleaned clicks, with the number of its
      clicks that have a creation time. */
  lemma {:induction false} GetUserEventDataframeRows(clicks: seq<Click>)
    ensures forall i, j :: 0 <= i < j < |GetUserEventDataframe(clicks)| ==>
              var a, b := GetUserEventDataframe(clicks)[i], GetUserEventDataframe(clicks)[j];
              (a.userId, a.eventId, a.eventName) != (b.userId, b.eventId, b.eventName)
    ensures forall i :: 0 <= i < |GetUserEventDataframe(clicks)| ==>
              var a := GetUserEventDataframe(clicks)[i];
              a.clicksCount == CountOf(KeyedClicks3(GetClicksDataframe(clicks)), (a.userId, a.eventId, a.eventName))
  {
    GroupCountRows(KeyedClicks3(GetClicksDataframe(clicks)));
  }

  /** A count is positive exactly when a cleaned click of its group has a creation time. */
  lemma {:induction false} UserEventCountPositive(clicks: seq<Click>, i: nat)
    requires i < |GetUserEventDataframe(clicks)|
    ensures GetUserEventDataframe(clicks)[i].clicksCount > 0 <==>
            exists c :: c in GetClicksDataframe(clicks) && c.createTime.Some? &&
                        ByUserEventName(c).0 == Some((GetUserEventDataframe(clicks)[i].userId,
                                                      GetUserEventDataframe(clicks)[i].eventId,
                                                      GetUserEventDataframe(clicks)[i].eventName))
  {
    GetUserEventDataframeRows(clicks);
    var a := GetUserEventDataframe(clicks)[i];
    KeyCountPositive(GetClicksDataframe(clicks), (a.userId, a.eventId, a.eventName));
  }

  /** A key counts a click exactly when one of the clicks has that key and a creation time. */
  lemma {:induction false} KeyCountPositive(cleaned: seq<Click>, k: (string, int, string))
    ensures CountOf(KeyedClicks3(cleaned), k) > 0 <==>
            exists c :: c in cleaned && c.createTime.Some? && ByUserEventName(c).0 == Some(k)
  {
    var s := KeyedClicks3(cleaned);
    CountOfPositive(s, k);
    if CountOf(s, k) > 0 {
      var j :| 0 <= j < |s| && s[j] == (Some(k), true);
      assert cleaned[j] in cleaned;
    }
    if exists c :: c in cleaned && c.createTime.Some? && ByUserEventName(c).0 == Some(k) {
      var c :| c in cleaned && c.createTime.Some? && ByUserEventName(c).0 == Some(k);
      var j :| 0 <= j < |cleaned| && cleaned[j] == c;
      assert s[j] == (Some(k), true);
    }
  }

  /** The counts add up to the cleaned clicks that have a name and a creation time. */
  lemma {:induction false} GetUserEventDataframeTotal(clicks: seq<Click>)
    ensures ClicksTotal(GetUserEventDataframe(clicks)) == Counted(KeyedClicks3(GetClicksDataframe(clicks)))
  {
    var s := KeyedClicks3(GetClicksDataframe(clicks));
    GroupCountTotal(s);
    ToUserEventCountsTotal(GroupCount(s));
  }

  /** The sum of `clicks_count`. */
  function ClicksTotal(r: seq<UserEventCount>): nat {
    if r == [] then 0 else r[0].clicksCount + ClicksTotal(r[1..])
  }

  lemma {:induction false} ToUserEventCountsTotal(g: seq<((string, int, string), nat)>)
    ensures ClicksTotal(ToUserEventCounts(g)) == Total(g)
  {
    if g != [] {
      ToUserEventCountsTotal(g[1..]);
      assert ToUserEventCounts(g)[1..] == ToUserEventCounts(g[1..]);
    }
  }

  /** The grouping view of the script's clicks: key `(user_id, event_id)`. */
  function ByUserEvent(c: Click): Keyed<(string, int)> {
    (if c.eventId.Some? then Some((c.userId, c.eventId.value)) else None, c.createTime.Some?)
  }

  function KeyedClicks2(clicks: seq<Click>): (r: seq<Keyed<(string, int)>>)
    ensures |r| == |clicks|
    ensures forall i :: 0 <= i < |clicks| ==> r[i] == ByUserEvent(clicks[i])
  {
    if clicks == [] then [] else KeyedClicks2(clicks[..|clicks| - 1]) + [ByUserEvent(clicks[|clicks| - 1])]
  }

  /** The script's `get_user_event_dataframe`, which groups by (user_id, event_id) only. */
  function GetUserEventPairCounts(clicks: seq<Click>): (r: seq<((string, int), nat)>)
  {
    GroupCount(KeyedClicks2(GetClicksDataframe(clicks)))
  }

  /** One row per distinct (user, event) of the cleaned clicks, and the counts add up to the
      cleaned clicks with a creation time. */
  lemma {:induction false} GetUserEventPairCountsSpec(clicks: seq<Click>)
    ensures forall i, j :: 0 <= i < j < |GetUserEventPairCounts(clicks)| ==>
              GetUserEventPairCounts(clicks)[i].0 != GetUserEventPairCounts(clicks)[j].0
    ensures Total(GetUserEventPairCounts(clicks)) == Counted(KeyedClicks2(GetClicksDataframe(clicks)))
  {
    var s := KeyedClicks2(GetClicksDataframe(clicks));
    GroupCountRows(s);
    GroupCountTotal(s);
  }

  /** Every cleaned click has the row of its (user, event) pair. */
  lemma {:induction false} PairCountOfClick(clicks: seq<Click>, j: nat)
    requires j < |GetClicksDataframe(clicks)|
    ensures exists i :: 0 <= i < |GetUserEventPairCounts(clicks)| &&
                        GetUserEventPairCounts(clicks)[i].0 == (GetClicksDataframe(clicks)[j].userId,
                                                             GetClicksDataframe(clicks)[j].eventId.value)
  {
    var cleaned := GetClicksDataframe(clicks);
    var s := KeyedClicks2(cleaned);
    assert HasEventAndOrg(cleaned[j]) by { assert cleaned[j] in cleaned; }
    var k := (cleaned[j].userId, cleaned[j].eventId.value);
    assert s[j].0 == Some(k);
    var ks := Distinct(PresentKeys(s));
    assert k in ks;
    var i :| 0 <= i < |ks| && ks[i] == k;
    assert GetUserEventPairCounts(clicks)[i].0 == k;
  }

  // ----- the user table -----

  /** A row of the users file: the id and the birth date. */
  datatype UserBirth = UserBirth(userId: string, birthDay: int)

  /** A row of the region file: the user id and the region name. */
  datatype UserRegion = UserRegion(userId: string, region: string)

  /** `zip(users_age.user_id, users_age.user_age)`. */
  function AgePairs(users: seq<UserBirth>): (ps: seq<(string, int)>)
    ensures |ps| == |users|
    ensures forall i :: 0 <= i < |users| ==> ps[i] == (users[i].userId, AgeInYears(users[i].birthDay))
  {
    if users == [] then []
    else AgePairs(users[..|users| - 1]) + [(users[|users| - 1].userId, AgeInYears(users[|users| - 1].birthDay))]
  }

  /** `users_age_dict`. */
  function AgesOf(users: seq<UserBirth>): map<string, int> {
    FromPairs(AgePairs(users)).m
  }

  /** A user's age comes from the user's last row in the users file. */
  lemma {:induction false} AgeOfLastRow(users: seq<UserBirth>, j: nat)
    requires j < |users|
    requires forall k :: j < k < |users| ==> users[k].userId != users[j].userId
    ensures GetUserAge(users[j].userId, AgesOf(users)) == Some(AgeInYears(users[j].birthDay))
  {
    FromPairsLastWins(AgePairs(users), j);
  }

  /** A row of `users_full` before `dropna`: the region row with its looked-up code and age. */
  function UserRowOf(r: UserRegion, ages: map<string, int>, codes: map<string, int>): Filtering.User {
    Filtering.User(r.userId, GetUserAge(r.userId, ages), GetOrNone(codes, r.region))
  }

  function UserRows(regions: seq<UserRegion>, ages: map<string, int>, codes: map<string, int>)
    : (rows: seq<Filtering.User>)
    ensures |rows| == |regions|
    ensures forall i :: 0 <= i < |regions| ==> rows[i] == UserRowOf(regions[i], ages, codes)
  {
    if regions == [] then []
    else UserRows(regions[..|regions| - 1], ages, codes) + [UserRowOf(regions[|regions| - 1], ages, codes)]
  }

  /** `get_user_dataframe`: the region rows with their region code (`None` for a name outside the
      code file) and their age, keeping only those whose age is known. */
  function GetUserDataframe(users: seq<UserBirth>, regions: seq<UserRegion>, regionNums: seq<(string, int)>)
    : (r: seq<Filtering.User>)
  {
    Filter(UserRows(regions, AgesOf(users), FromPairs(regionNums).m), (u: Filtering.User) => u.age.Some?)
  }

  /** The user table keeps, in order, exactly the region rows of users found in the users file. */
  lemma {:induction false} GetUserDataframeSpec(users: seq<UserBirth>, regions: seq<UserRegion>, regionNums: seq<(string, int)>)
    ensures IsSubsequence(GetUserDataframe(users, regions, regionNums),
                          UserRows(regions, AgesOf(users), FromPairs(regionNums).m))
    ensures forall i :: 0 <= i < |regions| ==>
              (UserRowOf(regions[i], AgesOf(users), FromPairs(regionNums).m) in GetUserDataframe(users, regions, regionNums)
               <==> exists j :: 0 <= j < |users| && users[j].userId == regions[i].userId)
  {
    var ages := AgesOf(users);
    var rows := UserRows(regions, ages, FromPairs(regionNums).m);
    FilterIsSubsequence(rows, (u: Filtering.User) => u.age.Some?);
    forall i | 0 <= i < |regions| && exists j :: 0 <= j < |users| && users[j].userId == regions[i].userId
      ensures UserRowOf(regions[i], ages, FromPairs(regionNums).m) in GetUserDataframe(users, regions, regionNums)
    {
      var j :| 0 <= j < |users| && users[j].userId == regions[i].userId;
      assert AgePairs(users)[j].0 == regions[i].userId;
      assert rows[i] in rows;
    }
    forall i | 0 <= i < |regions| && UserRowOf(regions[i], ages, FromPairs(regionNums).m) in GetUserDataframe(users, regions, regionNums)
      ensures exists j :: 0 <= j < |users| && users[j].userId == regions[i].userId
    {
      var id := regions[i].userId;
      assert id in ages;
      assert id in Firsts(AgePairs(users));
      var j :| 0 <= j < |users| && Firsts(AgePairs(users))[j] == id;
      assert users[j].userId == id;
    }
  }

  // ----- the event table -----

  /** A row of the organisations file: its id, address and category. */
  datatype Organization = Organization(orgId: int, address: string, category: string)

  /** A row of the events file: the event id and its organisation, which may be missing. */
  datatype RawEvent = RawEvent(eventId: int, orgId: Option<int>)

  /** A row of the event table: the organisation's region name and category (`None` for an
      organisation outside the file) and the region code of that name. */
  datatype EventInfo = EventInfo(eventId: int, orgId: int, regionName: Option<string>,
                                 category: Option<string>, regionCode: Option<int>)

  /** `zip(organizations.org_id, organizations.region)` with the region cut from the address. */
  function OrgRegionPairs(orgs: seq<Organization>): (ps: seq<(int, string)>)
    ensures |ps| == |orgs|
    ensures forall i :: 0 <= i < |orgs| ==> ps[i] == (orgs[i].orgId, GetRegionFromAddress(orgs[i].address))
  {
    if orgs == [] then []
    else OrgRegionPairs(orgs[..|orgs| - 1]) + [(orgs[|orgs| - 1].orgId, GetRegionFromAddress(orgs[|orgs| - 1].address))]
  }

  /** `zip(organizations.org_id, organizations.category)`. */
  function OrgCategoryPairs(orgs: seq<Organization>): (ps: seq<(int, string)>)
    ensures |ps| == |orgs|
    ensures forall i :: 0 <= i < |orgs| ==> ps[i] == (orgs[i].orgId, orgs[i].category)
  {
    if orgs == [] then []
    else OrgCategoryPairs(orgs[..|orgs| - 1]) + [(orgs[|orgs| - 1].orgId, orgs[|orgs| - 1].category)]
  }

  /** `org_id_region`. */
  function OrgRegions(orgs: seq<Organization>): map<int, string> {
    FromPairs(OrgRegionPairs(orgs)).m
  }

  /** `org_id_category`. */
  function OrgCategories(orgs: seq<Organization>): map<int, string> {
    FromPairs(OrgCategoryPairs(orgs)).m
  }

  /** The region code of a region name that may be missing: a missing name has none. */
  function RegionCodeOf(name: Option<string>): Option<int> {
    if name.Some? then GetRegionCodeForEvent(name.value) else None
  }

  function EventInfoOf(e: RawEvent, regions: map<int, string>, categories: map<int, string>): EventInfo
    requires e.orgId.Some?
  {
    var name := GetOrNone(regions, e.orgId.value);
    EventInfo(e.eventId, e.orgId.value, name, GetOrNone(categories, e.orgId.value), RegionCodeOf(name))
  }

  function EventRows(events: seq<RawEvent>, regions: map<int, string>, categories: map<int, string>)
    : (r: seq<EventInfo>)
    ensures |r| <= |events|
  {
    if events == [] then []
    else
      var init := EventRows(events[..|events| - 1], regions, categories);
      var e := events[|events| - 1];
      if e.orgId.Some? then init + [EventInfoOf(e, regions, categories)] else init
  }

  /** `get_events_dataframe`: the events that have an organisation, with its region name, its
      category and the code of that region name. */
  function GetEventsDataframe(events: seq<RawEvent>, orgs: seq<Organization>): (r: seq<EventInfo>)
  {
    EventRows(events, OrgRegions(orgs), OrgCategories(orgs))
  }

  /** Every row of the event table is an event with an organisation, and every such event has
      a row, in the same order. */
  lemma {:induction false} EventRowsSpec(events: seq<RawEvent>, regions: map<int, string>, categories: map<int, string>)
    ensures forall x :: x in EventRows(events, regions, categories) <==>
              exists i :: 0 <= i < |events| && events[i].orgId.Some? && x == EventInfoOf(events[i], regions, categories)
  {
    if events != [] {
      var init := events[..|events| - 1];
      EventRowsSpec(init, regions, categories);
      assert forall i :: 0 <= i < |init| ==> init[i] == events[i];
    }
  }

  /** An event's region name and category are those of the last row of its organisation in the
      organisations file; an organisation outside the file gives neither, nor a region code. */
  lemma {:induction false} EventOfOrganization(orgs: seq<Organization>, e: RawEvent, j: nat)
    requires e.orgId.Some?
    requires j < |orgs| && orgs[j].orgId == e.orgId.value
    requires forall k :: j < k < |orgs| ==> orgs[k].orgId != orgs[j].orgId
    ensures EventInfoOf(e, OrgRegions(orgs), OrgCategories(orgs)).regionName ==
            Some(GetRegionFromAddress(orgs[j].address))
    ensures EventInfoOf(e, OrgRegions(orgs), OrgCategories(orgs)).category == Some(orgs[j].category)
    ensures EventInfoOf(e, OrgRegions(orgs), OrgCategories(orgs)).regionCode ==
            GetRegionCodeForEvent(GetRegionFromAddress(orgs[j].address))
  {
    OrgOfLastRow(orgs, j);
    var info := EventInfoOf(e, OrgRegions(orgs), OrgCategories(orgs));
    assert info.regionName == Some(GetRegionFromAddress(orgs[j].address));
    assert info.regionCode == RegionCodeOf(info.regionName);
  }

  /** The region name and category stored for an organisation come from its last row. */
  lemma {:induction false} OrgOfLastRow(orgs: seq<Organization>, j: nat)
    requires j < |orgs|
    requires forall k :: j < k < |orgs| ==> orgs[k].orgId != orgs[j].orgId
    ensures orgs[j].orgId in OrgRegions(orgs) && OrgRegions(orgs)[orgs[j].orgId] == GetRegionFromAddress(orgs[j].address)
    ensures orgs[j].orgId in OrgCategories(orgs) && OrgCategories(orgs)[orgs[j].orgId] == orgs[j].category
  {
    OrgRegionOfLastRow(orgs, j);
    OrgCategoryOfLastRow(orgs, j);
  }

  lemma {:induction false} OrgRegionOfLastRow(orgs: seq<Organization>, j: nat)
    requires j < |orgs|
    requires forall k :: j < k < |orgs| ==> orgs[k].orgId != orgs[j].orgId
    ensures orgs[j].orgId in OrgRegions(orgs) && OrgRegions(orgs)[orgs[j].orgId] == GetRegionFromAddress(orgs[j].address)
  {
    var ps := OrgRegionPairs(orgs);
    assert ps[j] == (orgs[j].orgId, GetRegionFromAddress(orgs[j].address));
    assert forall k :: j < k < |ps| ==> ps[k].0 != ps[j].0 by {
      forall k | j < k < |ps| ensures ps[k].0 != ps[j].0 {
        assert ps[k].0 == orgs[k].orgId;
      }
    }
    FromPairsLastWins(ps, j);
  }

  lemma {:induction false} OrgCategoryOfLastRow(orgs: seq<Organization>, j: nat)
    requires j < |orgs|
    requires forall k :: j < k < |orgs| ==> orgs[k].orgId != orgs[j].orgId
    ensures orgs[j].orgId in OrgCategories(orgs) && OrgCategories(orgs)[orgs[j].orgId] == orgs[j].category
  {
    var ps := OrgCategoryPairs(orgs);
    assert ps[j] == (orgs[j].orgId, orgs[j].category);
    assert forall k :: j < k < |ps| ==> ps[k].0 != ps[j].0 by {
      forall k | j < k < |ps| ensures ps[k].0 != ps[j].0 {
        assert ps[k].0 == orgs[k].orgId;
      }
    }
    FromPairsLastWins(ps, j);
  }

  lemma {:induction false} UnknownOrganization(orgs: seq<Organization>, e: RawEvent)
    requires e.orgId.Some? && forall k :: 0 <= k < |orgs| ==> orgs[k].orgId != e.orgId.value
    ensures EventInfoOf(e, OrgRegions(orgs), OrgCategories(orgs)).regionName == None
    ensures EventInfoOf(e, OrgRegions(orgs), OrgCategories(orgs)).category == None
    ensures EventInfoOf(e, OrgRegions(orgs), OrgCategories(orgs)).regionCode == None
  {
  }
}
