/** The catalogue of decoration themes and its name search, shared by the
    two EventDecoration screens (src/components/pages/EventDecoration.jsx and
    src/pages/EventDecoration.jsx declare the same twelve `eventTypes` and
    the same `filteredEvents` / `displayEvents` expressions). */
module Decorations {
  import opened Seqs
  import opened Text

  /** One entry of `eventTypes` (its description and picture, which the
      search never reads, are left out). */
  datatype EventType = EventType(id: string, name: string)

  const StageEntry := EventType("stage-entry", "Stage and Entry")
  const Mandap := EventType("mandap", "Mandap Decoration")
  const Haldi := EventType("haldi", "Haldi Ceremony")
  const Mehandi := EventType("mehandi", "Mehandi Function")
  const Sangeet := EventType("sangeet", "Sangeet Night")
  const Birthday := EventType("birthday", "Birthday Party")
  const Engagement := EventType("engagement", "Engagement")
  const BabyShower := EventType("baby-shower", "Baby Shower")
  const Anniversary := EventType("anniversary", "Wedding Anniversaries")
  const Corporate := EventType("corporate", "Corporate Events")
  const Reception := EventType("reception", "Wedding Reception")
  const Cocktail := EventType("cocktail", "Cocktail Party")

  /** `eventTypes`, in declared order. */
  const EventTypes: seq<EventType> := [
    StageEntry, Mandap, Haldi, Mehandi, Sangeet, Birthday,
    Engagement, BabyShower, Anniversary, Corporate, Reception, Cocktail
  ]

  /** The search predicate: the lower-cased name contains the lower-cased term. */
  predicate Matches(e: EventType, term: string) {
    Includes(Lower(e.name), Lower(term))
  }

  /** `events.filter(...)` with the search predicate, over any list. */
  function SearchIn(events: seq<EventType>, term: string): (r: seq<EventType>)
    ensures |r| <= |events|
  {
    if events == [] then []
    else if Matches(events[0], term) then [events[0]] + SearchIn(events[1..], term)
    else SearchIn(events[1..], term)
  }

  /** `filteredEvents`. */
  function FilteredEvents(term: string): seq<EventType> {
    SearchIn(EventTypes, term)
  }

  /** `displayEvents`: the filtered list for a non-empty term, else all. */
  function DisplayEvents(term: string): seq<EventType> {
    if term != "" then FilteredEvents(term) else EventTypes
  }

  /** No two entries share an id. */
  predicate DistinctIds(events: seq<EventType>) {
    forall i, j :: 0 <= i < j < |events| ==> events[i].id != events[j].id
  }

  // ---------------------------------------------------------------------------
  // Properties of the search
  // ---------------------------------------------------------------------------

  /** The search keeps exactly the entries whose name matches. */
  lemma {:induction false} SearchExact(events: seq<EventType>, term: string)
    ensures forall e :: e in SearchIn(events, term) <==> e in events && Matches(e, term)
  {
    if events != [] {
      SearchExact(events[1..], term);
      assert events == [events[0]] + events[1..];
    }
  }

  /** A search keeps nothing when nothing matches. */
  lemma {:induction false} SearchNoneMatch(events: seq<EventType>, term: string)
    requires forall e :: e in events ==> !Matches(e, term)
    ensures SearchIn(events, term) == []
  {
    if events != [] {
      SearchNoneMatch(events[1..], term);
    }
  }

  /** A search keeps everything when every entry matches. */
  lemma {:induction false} SearchAllMatch(events: seq<EventType>, term: string)
    requires forall e :: e in events ==> Matches(e, term)
    ensures SearchIn(events, term) == events
  {
    if events != [] {
      SearchAllMatch(events[1..], term);
    }
  }

  /** The empty term matches every name. */
  lemma EmptyTermMatches(e: EventType)
    ensures Matches(e, "")
  {
    assert Lower("") == "";
    IncludesEmpty(Lower(e.name));
  }

  /** So the filtered list for the empty term is the whole list, and the
      `searchTerm ? filteredEvents : eventTypes` choice never changes what is
      shown. */
  lemma DisplayIsFiltered(term: string)
    ensures DisplayEvents(term) == FilteredEvents(term)
    ensures DisplayEvents("") == EventTypes
  {
    forall e | e in EventTypes
      ensures Matches(e, "")
    {
      EmptyTermMatches(e);
    }
    SearchAllMatch(EventTypes, "");
  }

  /** The result keeps the catalogue's order: it is a subsequence of it. */
  lemma {:induction false} SearchIsSubsequence(events: seq<EventType>, term: string)
    ensures IsSubsequence(SearchIn(events, term), events)
  {
    if events != [] {
      SearchIsSubsequence(events[1..], term);
      var rest := SearchIn(events[1..], term);
      if Matches(events[0], term) {
        assert ([events[0]] + rest)[1..] == rest;
      } else {
        SubsequenceOfTail(rest, events);
      }
    }
  }

  /** The result never repeats an id when the input does not. */
  lemma {:induction false} SearchKeepsDistinctIds(events: seq<EventType>, term: string)
    requires DistinctIds(events)
    ensures DistinctIds(SearchIn(events, term))
  {
    if events != [] {
      assert DistinctIds(events[1..]) by {
        forall i, j | 0 <= i < j < |events[1..]|
          ensures events[1..][i].id != events[1..][j].id
        {
          assert events[1..][i] == events[i + 1] && events[1..][j] == events[j + 1];
        }
      }
      SearchKeepsDistinctIds(events[1..], term);
      var rest := SearchIn(events[1..], term);
      if Matches(events[0], term) {
        SearchExact(events[1..], term);
        forall k | 0 <= k < |rest|
          ensures rest[k].id != events[0].id
        {
          assert rest[k] in rest;
          var j :| 0 <= j < |events[1..]| && events[1..][j] == rest[k];
          assert rest[k] == events[j + 1];
        }
        var r := [events[0]] + rest;
        forall i, j | 0 <= i < j < |r|
          ensures r[i].id != r[j].id
        {
          if i > 0 {
            assert r[i] == rest[i - 1] && r[j] == rest[j - 1];
          } else {
            assert r[j] == rest[j - 1];
          }
        }
      }
    }
  }

  /** No two ids in the catalogue agree in both first letter and length. */
  lemma CatalogueDistinctIds()
    ensures DistinctIds(EventTypes)
  {
    var keys := [('s', 11), ('m', 6), ('h', 5), ('m', 7), ('s', 7), ('b', 8),
                 ('e', 10), ('b', 11), ('a', 11), ('c', 9), ('r', 9), ('c', 8)];
    assert forall i :: 0 <= i < 12 ==> keys[i] == (EventTypes[i].id[0], |EventTypes[i].id|);
  }

  /** The catalogue's ids are distinct, so every search result's are. */
  lemma FilteredHasDistinctIds(term: string)
    ensures DistinctIds(FilteredEvents(term))
    ensures IsSubsequence(FilteredEvents(term), EventTypes)
  {
    CatalogueDistinctIds();
    SearchKeepsDistinctIds(EventTypes, term);
    SearchIsSubsequence(EventTypes, term);
  }

  /** Matching ignores letter case: terms that lower-case alike find the
      same entries. */
  lemma {:induction false} SearchCaseInsensitive(events: seq<EventType>, a: string, b: string)
    requires Lower(a) == Lower(b)
    ensures SearchIn(events, a) == SearchIn(events, b)
  {
    if events != [] {
      SearchCaseInsensitive(events[1..], a, b);
    }
  }

  /** A search over a concatenation searches each part. */
  lemma SearchAppend(a: seq<EventType>, b: seq<EventType>, term: string)
    ensures SearchIn(a + b, term) == SearchIn(a, term) + SearchIn(b, term)
  {
    SearchIsFilter(a + b, term);
    SearchIsFilter(a, term);
    SearchIsFilter(b, term);
    FilterAppend(a, b, e => Matches(e, term));
  }

  /** The search is the generic filter with the search predicate. */
  lemma {:induction false} SearchIsFilter(events: seq<EventType>, term: string)
    ensures SearchIn(events, term) == Filter(events, e => Matches(e, term))
  {
    if events != [] {
      SearchIsFilter(events[1..], term);
    }
  }

  /** A name that holds a lower-case letter of the term in neither case does
      not match. */
  lemma MissingLetter(e: EventType, term: string, k: int)
    requires 0 <= k < |term| && 'a' <= Lower(term)[k] <= 'z'
    requires Lower(term)[k] !in e.name && (Lower(term)[k] as int - 32) as char !in e.name
    ensures !Matches(e, term)
  {
    var c := Lower(term)[k];
    assert c !in Lower(e.name) by {
      forall i | 0 <= i < |e.name|
        ensures Lower(e.name)[i] != c
      {
        assert e.name[i] != c && e.name[i] != (c as int - 32) as char;
      }
    }
    IncludesHasChars(Lower(e.name), Lower(term));
  }

  /** A name that starts with the term, in any case, matches. */
  lemma StartsWithTerm(e: EventType, term: string, head: string, rest: string)
    requires e.name == head + rest && Lower(head) == Lower(term)
    ensures Matches(e, term)
  {
    LowerAppend(head, rest);
    assert Lower(e.name)[..|Lower(term)|] == Lower(term);
  }

  /** Two entries that each lack some lower-case letter of the term (in both
      cases) are both dropped. */
  lemma PairMisses(a: EventType, b: EventType, term: string, i: int, j: int)
    requires 0 <= i < |term| && 'a' <= Lower(term)[i] <= 'z'
    requires Lower(term)[i] !in a.name && (Lower(term)[i] as int - 32) as char !in a.name
    requires 0 <= j < |term| && 'a' <= Lower(term)[j] <= 'z'
    requires Lower(term)[j] !in b.name && (Lower(term)[j] as int - 32) as char !in b.name
    ensures SearchIn([a, b], term) == []
  {
    MissingLetter(a, term, i);
    MissingLetter(b, term, j);
    assert [a, b][1..] == [b];
  }

  /** Of a matching entry followed by one that lacks a letter of the term,
      only the first is kept. */
  lemma PairKeepsFirst(a: EventType, b: EventType, term: string, j: int)
    requires Matches(a, term)
    requires 0 <= j < |term| && 'a' <= Lower(term)[j] <= 'z'
    requires Lower(term)[j] !in b.name && (Lower(term)[j] as int - 32) as char !in b.name
    ensures SearchIn([a, b], term) == [a]
  {
    MissingLetter(b, term, j);
    assert [a, b][1..] == [b];
  }

  lemma WeddingLower()
    ensures Lower("WEDDING") == "wedding"
  {
  }

  // The catalogue, two entries at a time, searched for "WEDDING": the letter
  // 0 ('w') is missing from every name but the two weddings and "Baby
  // Shower", which lacks letter 2 ('d').

  lemma WeddingPair1()
    ensures SearchIn([StageEntry, Mandap], "WEDDING") == []
  {
    WeddingLower();
    PairMisses(StageEntry, Mandap, "WEDDING", 0, 0);
  }

  lemma WeddingPair2()
    ensures SearchIn([Haldi, Mehandi], "WEDDING") == []
  {
    WeddingLower();
    PairMisses(Haldi, Mehandi, "WEDDING", 0, 0);
  }

  lemma WeddingPair3()
    ensures SearchIn([Sangeet, Birthday], "WEDDING") == []
  {
    WeddingLower();
    PairMisses(Sangeet, Birthday, "WEDDING", 0, 0);
  }

  lemma WeddingPair4()
    ensures SearchIn([Engagement, BabyShower], "WEDDING") == []
  {
    WeddingLower();
    PairMisses(Engagement, BabyShower, "WEDDING", 0, 2);
  }

  lemma AnniversaryMatches()
    ensures Matches(Anniversary, "WEDDING")
  {
    assert Anniversary.name == "Wedding" + " Anniversaries";
    StartsWithTerm(Anniversary, "WEDDING", "Wedding", " Anniversaries");
  }

  lemma ReceptionMatches()
    ensures Matches(Reception, "WEDDING")
  {
    assert Reception.name == "Wedding" + " Reception";
    StartsWithTerm(Reception, "WEDDING", "Wedding", " Reception");
  }

  lemma WeddingPair5()
    ensures SearchIn([Anniversary, Corporate], "WEDDING") == [Anniversary]
  {
    WeddingLower();
    AnniversaryMatches();
    PairKeepsFirst(Anniversary, Corporate, "WEDDING", 0);
  }

  lemma WeddingPair6()
    ensures SearchIn([Reception, Cocktail], "WEDDING") == [Reception]
  {
    WeddingLower();
    ReceptionMatches();
    PairKeepsFirst(Reception, Cocktail, "WEDDING", 0);
  }

  /** A search over six consecutive pieces searches each piece. */
  lemma SearchSix(p1: seq<EventType>, p2: seq<EventType>, p3: seq<EventType>,
                  p4: seq<EventType>, p5: seq<EventType>, p6: seq<EventType>, term: string)
    ensures SearchIn(p1 + p2 + p3 + p4 + p5 + p6, term)
         == SearchIn(p1, term) + SearchIn(p2, term) + SearchIn(p3, term)
          + SearchIn(p4, term) + SearchIn(p5, term) + SearchIn(p6, term)
  {
    SearchAppend(p1, p2, term);
    SearchAppend(p1 + p2, p3, term);
    SearchAppend(p1 + p2 + p3, p4, term);
    SearchAppend(p1 + p2 + p3 + p4, p5, term);
    SearchAppend(p1 + p2 + p3 + p4 + p5, p6, term);
  }

  lemma CatalogueInPairs()
    ensures EventTypes == [StageEntry, Mandap] + [Haldi, Mehandi] + [Sangeet, Birthday]
                        + [Engagement, BabyShower] + [Anniversary, Corporate] + [Reception, Cocktail]
  {
  }

  lemma WeddingInPairs()
    ensures SearchIn([StageEntry, Mandap] + [Haldi, Mehandi] + [Sangeet, Birthday]
                     + [Engagement, BabyShower] + [Anniversary, Corporate] + [Reception, Cocktail],
                     "WEDDING") == [Anniversary, Reception]
  {
    WeddingPair1();
    WeddingPair2();
    WeddingPair3();
    WeddingPair4();
    WeddingPair5();
    WeddingPair6();
    SearchSix([StageEntry, Mandap], [Haldi, Mehandi], [Sangeet, Birthday],
              [Engagement, BabyShower], [Anniversary, Corporate], [Reception, Cocktail], "WEDDING");
  }

  /** A search for "WEDDING" lists "Wedding Anniversaries" and then "Wedding
      Reception": upper-case input finds the mixed-case names, in catalogue
      order. */
  lemma WeddingSearch()
    ensures FilteredEvents("WEDDING") == [Anniversary, Reception]
  {
    CatalogueInPairs();
    WeddingInPairs();
  }
}
