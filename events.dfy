/** The "Upcoming Events" section (src/components/Events.jsx): six events, a
    row of category buttons that filters them, and a hover highlight. */
module EventsSection {
  import opened Seqs

  /** The values `activeCategory` can take: the labels of the five category
      buttons, which are the only writers of that state. */
  datatype Category = All | Wedding | Corporate | Celebration | Charity

  /** A button's label, which is also the string stored as the category. */
  function Label(c: Category): string {
    match c
    case All => "All"
    case Wedding => "Wedding"
    case Corporate => "Corporate"
    case Celebration => "Celebration"
    case Charity => "Charity"
  }

  /** An event card's data (its date, place and picture are only displayed). */
  datatype Event = Event(id: nat, title: string, category: Category)

  const SummerWedding := Event(1, "Summer Garden Wedding", Wedding)
  const Gala := Event(2, "Corporate Gala Night", Corporate)
  const BirthdayBash := Event(3, "Destination Birthday Bash", Celebration)
  const Fundraiser := Event(4, "Charity Fundraiser", Charity)
  const Anniversary := Event(5, "Wedding Anniversary", Celebration)
  const Launch := Event(6, "Product Launch", Corporate)

  /** `events`, in declared order. */
  const Events: seq<Event> := [SummerWedding, Gala, BirthdayBash, Fundraiser, Anniversary, Launch]

  /** `categories`, in button order. */
  const Categories: seq<Category> := [All, Wedding, Corporate, Celebration, Charity]

  /** `events.filter(event => event.category === c)`, over any list. */
  function InCategory(events: seq<Event>, c: Category): (r: seq<Event>)
    ensures |r| <= |events|
  {
    if events == [] then []
    else if events[0].category == c then [events[0]] + InCategory(events[1..], c)
    else InCategory(events[1..], c)
  }

  /** `filteredEvents` for the active category. */
  function Filtered(active: Category): seq<Event> {
    if active == All then Events else InCategory(Events, active)
  }

  /** The ids of a list of events, in order. */
  function Ids(events: seq<Event>): (r: seq<nat>)
    ensures |r| == |events|
    ensures forall i :: 0 <= i < |r| ==> r[i] == events[i].id
  {
    if events == [] then [] else [events[0].id] + Ids(events[1..])
  }

  /** The category filter keeps exactly the events of that category. */
  lemma {:induction false} InCategoryExact(events: seq<Event>, c: Category)
    ensures forall e :: e in InCategory(events, c) <==> e in events && e.category == c
  {
    if events != [] {
      InCategoryExact(events[1..], c);
      assert events == [events[0]] + events[1..];
    }
  }

  /** ... in their original order. */
  lemma {:induction false} InCategoryIsSubsequence(events: seq<Event>, c: Category)
    ensures IsSubsequence(InCategory(events, c), events)
  {
    if events != [] {
      InCategoryIsSubsequence(events[1..], c);
      var rest := InCategory(events[1..], c);
      if events[0].category == c {
        assert ([events[0]] + rest)[1..] == rest;
      } else {
        SubsequenceOfTail(rest, events);
      }
    }
  }

  /** Whatever the category, the shown list is an order-preserving part of
      `events`; for a category other than 'All' it is exactly the events of
      that category. */
  lemma FilteredIsSelection(active: Category)
    ensures IsSubsequence(Filtered(active), Events) && |Filtered(active)| <= |Events|
    ensures active != All ==>
              forall e :: e in Filtered(active) <==> e in Events && e.category == active
  {
    InCategoryIsSubsequence(Events, active);
    InCategoryExact(Events, active);
    if active == All {
      SubsequenceRefl(Events);
    }
  }

  /** The four categories other than 'All' split the six events: Wedding has
      event 1, Corporate 2 and 6, Celebration 3 and 5, Charity 4. */
  lemma CategoriesPartition()
    ensures Ids(Filtered(Wedding)) == [1]
    ensures Ids(Filtered(Corporate)) == [2, 6]
    ensures Ids(Filtered(Celebration)) == [3, 5]
    ensures Ids(Filtered(Charity)) == [4]
  {
    PartitionStep(Wedding);
    PartitionStep(Corporate);
    PartitionStep(Celebration);
    PartitionStep(Charity);
  }

  /** The filter for one category, unfolded over the six events. */
  lemma PartitionStep(c: Category)
    ensures InCategory(Events, c)
         == (if SummerWedding.category == c then [SummerWedding] else [])
          + (if Gala.category == c then [Gala] else [])
          + (if BirthdayBash.category == c then [BirthdayBash] else [])
          + (if Fundraiser.category == c then [Fundraiser] else [])
          + (if Anniversary.category == c then [Anniversary] else [])
          + (if Launch.category == c then [Launch] else [])
  {
    var t1 := [Gala, BirthdayBash, Fundraiser, Anniversary, Launch];
    var t2 := [BirthdayBash, Fundraiser, Anniversary, Launch];
    var t3 := [Fundraiser, Anniversary, Launch];
    var t4 := [Anniversary, Launch];
    var t5 := [Launch];
    InCategoryCons(Events, c);
    assert Events[1..] == t1;
    InCategoryCons(t1, c);
    assert t1[1..] == t2;
    InCategoryCons(t2, c);
    assert t2[1..] == t3;
    InCategoryCons(t3, c);
    assert t3[1..] == t4;
    InCategoryCons(t4, c);
    assert t4[1..] == t5;
    InCategoryCons(t5, c);
    assert t5[1..] == [];
  }

  lemma InCategoryCons(events: seq<Event>, c: Category)
    requires events != []
    ensures InCategory(events, c)
         == (if events[0].category == c then [events[0]] else []) + InCategory(events[1..], c)
  {
  }

  /** Every event is listed under exactly one category other than 'All'. */
  lemma OneCategoryEach(e: Event, c: Category, d: Category)
    requires e in Events && c != All && d != All
    requires e in Filtered(c) && e in Filtered(d)
    ensures c == d
  {
    InCategoryExact(Events, c);
    InCategoryExact(Events, d);
  }

  lemma EveryEventListed(e: Event)
    requires e in Events
    ensures e.category != All && e in Filtered(e.category)
  {
    InCategoryExact(Events, e.category);
  }

  /** The event ids are 1 to 6, so no two cards share a React key. */
  lemma IdsDistinct()
    ensures Ids(Events) == [1, 2, 3, 4, 5, 6]
    ensures Distinct(Ids(Events))
  {
  }

  // ---------------------------------------------------------------------------
  // Section state
  // ---------------------------------------------------------------------------

  /** `activeCategory` and `hoveredEvent`. */
  datatype SectionState = SectionState(active: Category, hovered: Option<nat>)

  const Initial := SectionState(All, None)

  /** Clicking a category button. */
  function ClickCategory(s: SectionState, c: Category): (r: SectionState)
    ensures r.active == c && r.hovered == s.hovered
  {
    s.(active := c)
  }

  /** The pointer entering a shown card; elsewhere nothing happens. */
  function MouseEnter(s: SectionState, e: Event): (r: SectionState)
    ensures e in Filtered(s.active) ==> r.hovered == Some(e.id)
    ensures e !in Filtered(s.active) ==> r == s
    ensures r.active == s.active
  {
    if e in Filtered(s.active) then s.(hovered := Some(e.id)) else s
  }

  /** The pointer leaving a card. */
  function MouseLeave(s: SectionState): (r: SectionState)
    ensures r.hovered == None && r.active == s.active
  {
    s.(hovered := None)
  }

  /** A state the section can reach: the highlight, if any, is the id of one
      of the six events. */
  predicate Reachable(s: SectionState) {
    s.hovered.Some? ==> s.hovered.value in Ids(Events)
  }

  /** Every handler keeps the section reachable; the initial state shows all
      six events. */
  lemma HandlersKeepReachable(s: SectionState, c: Category, e: Event)
    requires Reachable(s)
    ensures Reachable(ClickCategory(s, c)) && Reachable(MouseLeave(s))
    ensures Reachable(MouseEnter(s, e))
    ensures Reachable(Initial) && Filtered(Initial.active) == Events
  {
    if e in Filtered(s.active) {
      FilteredIsSelection(s.active);
      IdsDistinct();
      SubsequenceMembers(Filtered(s.active), Events);
      assert e in Events;
    }
  }

  /** Only one card is scaled up at a time: the one whose id is held. */
  function Highlighted(s: SectionState, e: Event): bool {
    s.hovered == Some(e.id)
  }

  /** Two different events never share an id. */
  lemma IdsIdentify(a: Event, b: Event)
    requires a in Events && b in Events && a.id == b.id
    ensures a == b
  {
  }

  lemma AtMostOneHighlighted(s: SectionState, i: int, j: int)
    requires 0 <= i < j < |Filtered(s.active)|
    ensures !(Highlighted(s, Filtered(s.active)[i]) && Highlighted(s, Filtered(s.active)[j]))
  {
    var shown := Filtered(s.active);
    FilteredIsSelection(s.active);
    SubsequenceMembers(shown, Events);
    IdsDistinct();
    assert Distinct(Events) by {
      forall x, y | 0 <= x < y < |Events|
        ensures Events[x] != Events[y]
      {
        assert Ids(Events)[x] != Ids(Events)[y];
      }
    }
    SubsequenceDistinct(shown, Events);
    assert shown[i] in Events && shown[j] in Events;
    if shown[i].id == shown[j].id {
      IdsIdentify(shown[i], shown[j]);
    }
  }
}
