/** Matching clicks to events by their link (`get_merged_click_event_dataframe` in
    preprocessing/preprocessing.py): the links shared by the clicks and the events are collected by
    a nested loop, and only clicks whose link is among them are kept. A missing link (NaN) compares
    unequal to everything, itself included. */
module Links {
  import opened Common

  /** `i == j` on two link cells. */
  predicate SameLink(a: Option<string>, b: Option<string>) {
    a.Some? && a == b
  }

  /** The mask "a present link that an event has". */
  function InEvents(events: seq<Option<string>>): Option<string> -> bool {
    (l: Option<string>) => l.Some? && l in events
  }

  /** What the inner loop appends for the click link `link` after scanning `events`: one copy per
      matching event link. */
  function MatchesOf(link: Option<string>, events: seq<Option<string>>): seq<Option<string>> {
    if events == [] then []
    else MatchesOf(link, events[..|events| - 1]) + (if SameLink(link, events[|events| - 1]) then [link] else [])
  }

  /** What the outer loop has appended after scanning `clicks`. */
  function EqualLinksOf(clicks: seq<Option<string>>, events: seq<Option<string>>): seq<Option<string>> {
    if clicks == [] then []
    else EqualLinksOf(clicks[..|clicks| - 1], events) + MatchesOf(clicks[|clicks| - 1], events)
  }

  /** A link is appended for a click link exactly when it is that link and an event has it too. */
  lemma {:induction false} MatchesOfMembers(link: Option<string>, events: seq<Option<string>>, l: Option<string>)
    ensures l in MatchesOf(link, events) <==> l == link && l.Some? && l in events
  {
    if events != [] {
      var init := events[..|events| - 1];
      MatchesOfMembers(link, init, l);
      assert events == init + [events[|events| - 1]];
    }
  }

  /** Against unique event links, a click link is appended at most once. */
  lemma {:induction false} MatchesOfUnique(link: Option<string>, events: seq<Option<string>>)
    requires NoDup(events)
    ensures MatchesOf(link, events) == if link.Some? && link in events then [link] else []
  {
    if events != [] {
      var init := events[..|events| - 1];
      var last := events[|events| - 1];
      assert NoDup(init);
      MatchesOfUnique(link, init);
      assert events == init + [last];
      assert last !in init;
    }
  }

  /** The collected links are the click links that some event link equals. */
  lemma {:induction false} EqualLinksMembers(clicks: seq<Option<string>>, events: seq<Option<string>>, l: Option<string>)
    ensures l in EqualLinksOf(clicks, events) <==> l.Some? && l in clicks && l in events
  {
    if clicks != [] {
      var init := clicks[..|clicks| - 1];
      EqualLinksMembers(init, events, l);
      MatchesOfMembers(clicks[|clicks| - 1], events, l);
      assert clicks == init + [clicks[|clicks| - 1]];
    }
  }

  /** Against unique event links, the collected links are the matching click links in click order. */
  lemma {:induction false} EqualLinksFilter(clicks: seq<Option<string>>, events: seq<Option<string>>)
    requires NoDup(events)
    ensures EqualLinksOf(clicks, events) == Filter(clicks, InEvents(events))
  {
    if clicks != [] {
      var init := clicks[..|clicks| - 1];
      var last := clicks[|clicks| - 1];
      var p := InEvents(events);
      EqualLinksFilter(init, events);
      MatchesOfUnique(last, events);
      assert clicks == init + [last];
      FilterAppend(init, [last], p);
      assert Filter([last], p) == if p(last) then [last] else [];
      assert EqualLinksOf(clicks, events) == Filter(init, p) + Filter([last], p);
    }
  }

  /** Filtering keeps a sequence free of repetitions. */
  lemma {:induction false} FilterNoDup<T(!new)>(s: seq<T>, p: T -> bool)
    requires NoDup(s)
    ensures NoDup(Filter(s, p))
  {
    if s != [] {
      assert NoDup(s[1..]);
      FilterNoDup(s[1..], p);
      assert s[0] !in s[1..];
    }
  }

  /** The nested loop building `equal_links` from the unique click links and the unique event links. */
  method EqualLinks(clicksLinks: seq<Option<string>>, eventsLinks: seq<Option<string>>)
    returns (equalLinks: seq<Option<string>>)
    ensures equalLinks == EqualLinksOf(clicksLinks, eventsLinks)
    ensures forall l :: l in equalLinks <==> l.Some? && l in clicksLinks && l in eventsLinks
    ensures NoDup(eventsLinks) ==> equalLinks == Filter(clicksLinks, InEvents(eventsLinks))
    ensures NoDup(clicksLinks) && NoDup(eventsLinks) ==> NoDup(equalLinks)
  {
    equalLinks := [];
    var a := 0;
    while a < |clicksLinks|
      invariant a <= |clicksLinks|
      invariant equalLinks == EqualLinksOf(clicksLinks[..a], eventsLinks)
    {
      var i := clicksLinks[a];
      var b := 0;
      while b < |eventsLinks|
        invariant b <= |eventsLinks|
        invariant equalLinks == EqualLinksOf(clicksLinks[..a], eventsLinks) + MatchesOf(i, eventsLinks[..b])
      {
        assert eventsLinks[..b + 1][..b] == eventsLinks[..b];
        if SameLink(i, eventsLinks[b]) {
          equalLinks := equalLinks + [i];
        }
        b := b + 1;
      }
      assert eventsLinks[..b] == eventsLinks;
      assert clicksLinks[..a + 1][..a] == clicksLinks[..a];
      a := a + 1;
    }
    assert clicksLinks[..a] == clicksLinks;
    forall l ensures l in equalLinks <==> l.Some? && l in clicksLinks && l in eventsLinks {
      EqualLinksMembers(clicksLinks, eventsLinks, l);
    }
    if NoDup(eventsLinks) {
      EqualLinksFilter(clicksLinks, eventsLinks);
      if NoDup(clicksLinks) {
        FilterNoDup(clicksLinks, InEvents(eventsLinks));
      }
    }
  }

  /** A click with its link; the other columns ride along unchanged. */
  datatype LinkedClick = LinkedClick(userId: string, createTime: Option<int>, url: Option<string>)

  /** The mask "the click's link is present and some event has it". */
  function ClickHasEventLink(eventUrls: seq<Option<string>>): LinkedClick -> bool {
    (c: LinkedClick) => c.url.Some? && c.url in eventUrls
  }

  /** The link column of a frame. */
  function UrlsOf(clicks: seq<LinkedClick>): (urls: seq<Option<string>>)
    ensures |urls| == |clicks| && forall i :: 0 <= i < |clicks| ==> urls[i] == clicks[i].url
  {
    if clicks == [] then [] else [clicks[0].url] + UrlsOf(clicks[1..])
  }

  /** `url.unique()` on both frames, the `equal_links` loop and the `isin` mask: the clicks kept are
      exactly those whose link some event has, in their order. */
  method KeepLinkedClicks(clicks: seq<LinkedClick>, eventUrls: seq<Option<string>>)
    returns (kept: seq<LinkedClick>)
    ensures kept == Filter(clicks, ClickHasEventLink(eventUrls))
    ensures IsSubsequence(kept, clicks)
  {
    var eventsLinks := Distinct(eventUrls);
    var clicksLinks := Distinct(UrlsOf(clicks));
    var equalLinks := EqualLinks(clicksLinks, eventsLinks);
    kept := Filter(clicks, (c: LinkedClick) => c.url in equalLinks);
    forall i | 0 <= i < |clicks|
      ensures (clicks[i].url in equalLinks) == (clicks[i].url.Some? && clicks[i].url in eventUrls)
    {
      var u := clicks[i].url;
      assert u == UrlsOf(clicks)[i];
      assert u in clicksLinks;
    }
    FilterCongruent(clicks, (c: LinkedClick) => c.url in equalLinks, ClickHasEventLink(eventUrls));
    FilterIsSubsequence(clicks, ClickHasEventLink(eventUrls));
  }
}
