/** The per-row rules of the click enrichment script cliks_add.py: only events with a sale link
    are kept, an event's identity is the first word of its name, an organisation's region number is
    read off its INN, the row labelled 0 is dropped in place, and the phone details are normalised
    as in module Phone. */
module ClicksAdd {
  import opened Common
  import opened PyStr

  /** An event of the accepted-events export, with the columns the script reads. */
  datatype PushkaEvent = PushkaEvent(eventId: string, name: Option<string>, saleLink: Option<string>)

  /** The `entity.saleLink.notna()` mask: the events that can be bought, in their order. */
  function WithSaleLink(events: seq<PushkaEvent>): (r: seq<PushkaEvent>)
    ensures forall e :: e in r <==> e in events && e.saleLink.Some?
    ensures IsSubsequence(r, events)
  {
    var kept := Filter(events, (e: PushkaEvent) => e.saleLink.Some?);
    FilterIsSubsequence(events, (e: PushkaEvent) => e.saleLink.Some?);
    kept
  }

  /** `event_identity`: `name.split()[0].strip()`; a missing name (NaN) has no `split` and raises
      AttributeError, a blank one raises IndexError. */
  function EventIdentity(name: Option<string>): Result<string> {
    match name
    case None => Err(AttributeError)
    case Some(s) =>
      match Token(s, 0)
      case Err(e) => Err(e)
      case Ok(t) => Ok(Strip(t))
  }

  /** The identity fails exactly on a missing or blank name. */
  lemma {:induction false} EventIdentityDefined(name: Option<string>)
    ensures EventIdentity(name).Err? <==> name.None? || !HasVisible(name.value)
    ensures name.None? ==> EventIdentity(name) == Err(AttributeError)
  {
    if name.Some? {
      TokensNonEmpty(name.value);
    }
  }

  /** The identity is the word that starts at the first visible character of the name. */
  lemma {:induction false} EventIdentityIsFirstWord(name: string, i: nat)
    requires i < |name| && !IsSpace(name[i])
    requires forall k :: 0 <= k < i ==> IsSpace(name[k])
    ensures EventIdentity(Some(name)) == Ok(Word(name[i..]))
  {
    FirstTokenAfterBlanks(name, i);
    StripNoSpace(Word(name[i..]));
  }

  /** `Org_region_number`: `int(str(x)[:2])` when the INN text has 12 characters, else
      `int(str(x)[:1])`; ValueError when the characters taken are no number. */
  function InnRegionNumber(inn: string): Result<int> {
    if |inn| == 12 then ParseInt(inn[..2])
    else ParseInt(inn[..if |inn| < 1 then |inn| else 1])
  }

  /** On an all-digit INN text the region number is the value of its first two digits (12
      characters) or of its first digit (any other non-empty length); an empty text is no number. */
  lemma {:induction false} InnRegionNumberSpec(inn: string)
    ensures inn == [] ==> InnRegionNumber(inn) == Err(ValueError)
    ensures inn != [] && (forall c :: c in inn ==> IsDigit(c)) ==>
              InnRegionNumber(inn).Ok? &&
              InnRegionNumber(inn).value ==
                (if |inn| == 12 then 10 * (inn[0] as int - '0' as int) + (inn[1] as int - '0' as int)
                 else inn[0] as int - '0' as int)
  {
    if inn != [] && forall c :: c in inn ==> IsDigit(c) {
      var k := if |inn| == 12 then 2 else 1;
      var d := inn[..k];
      assert forall c :: c in d ==> c in inn;
      var first := d[..1];
      assert first[..0] == [];
      assert DigitsValue(first) == inn[0] as int - '0' as int;
      if k == 2 {
        assert d[..|d| - 1] == first;
      } else {
        assert d == first;
      }
    }
  }

  /** The region number of an all-digit INN text is below 100, and below 10 unless the text has
      12 characters. */
  lemma {:induction false} InnRegionNumberRange(inn: string)
    requires inn != [] && forall c :: c in inn ==> IsDigit(c)
    ensures 0 <= InnRegionNumber(inn).value < (if |inn| == 12 then 100 else 10)
  {
    InnRegionNumberSpec(inn);
    assert inn[0] in inn;
    if |inn| == 12 {
      assert inn[1] in inn;
    }
  }

  /** A frame whose rows carry an index label. */
  class LabeledFrame<T(!new)> {
    var rows: seq<(int, T)>

    constructor(rows: seq<(int, T)>)
      ensures this.rows == rows
    {
      this.rows := rows;
    }

    /** `drop(labels=[target], axis=0, inplace=True)`: every row with that label is removed; when no
        row has it, KeyError is raised and the frame is left as it was. */
    method DropLabel(target: int) returns (err: Option<Error>)
      modifies this
      ensures DropLabelRows(old(rows), target).Err? ==> err == Some(KeyError) && rows == old(rows)
      ensures DropLabelRows(old(rows), target).Ok? ==> err == None && rows == DropLabelRows(old(rows), target).value
    {
      match DropLabelRows(rows, target)
      case Err(e) => err := Some(e);
      case Ok(r) => err := None; rows := r;
    }
  }

  /** Some row has the label `target`. */
  predicate HasLabel<T>(rows: seq<(int, T)>, target: int) {
    exists i :: 0 <= i < |rows| && rows[i].0 == target
  }

  /** The rows left once every row with `target` is dropped, or KeyError when there is none. */
  function DropLabelRows<T(!new)>(rows: seq<(int, T)>, target: int): (r: Result<seq<(int, T)>>)
    ensures r.Err? <==> !HasLabel(rows, target)
    ensures r.Err? ==> r.error == KeyError
    ensures r.Ok? ==> forall x :: x in r.value <==> x in rows && x.0 != target
  {
    if HasLabel(rows, target) then Ok(Filter(rows, (x: (int, T)) => x.0 != target)) else Err(KeyError)
  }

  /** The labels `0, 1, ..., n - 1` a merge gives its result. */
  predicate RangeLabelled<T>(rows: seq<(int, T)>) {
    forall i :: 0 <= i < |rows| ==> rows[i].0 == i
  }

  /** On a freshly merged frame, dropping label 0 removes exactly its first row, and fails on an
      empty frame. */
  lemma {:induction false} DropLabelZeroIsFirstRow<T(!new)>(rows: seq<(int, T)>)
    requires RangeLabelled(rows)
    ensures rows == [] ==> DropLabelRows(rows, 0) == Err(KeyError)
    ensures rows != [] ==> DropLabelRows(rows, 0) == Ok(rows[1..])
  {
    if rows != [] {
      var p := (x: (int, T)) => x.0 != 0;
      assert rows[0].0 == 0;
      FilterAll(rows[1..], p);
      assert Filter(rows, p) == Filter(rows[1..], p);
    }
  }
}
