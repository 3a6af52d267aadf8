/** The "Our Services" section (src/components/Services.jsx): five service
    cards under an all/featured filter, each with a "learn more" button that
    either opens the decoration page or a "coming soon" dialog. */
module ServicesSection {
  import opened Seqs

  /** A service card's data (descriptions, picture and icon are only
      displayed). */
  datatype Service = Service(id: nat, title: string, isPrimary: bool)

  const DecorationTitle := "Event & Decoration"

  const Decoration := Service(1, DecorationTitle, true)
  const Photography := Service(2, "Photography & Videography", false)
  const Mehandi := Service(3, "Mehandi Artist", false)
  const Makeup := Service(4, "Makeup Artist", false)
  const Catering := Service(5, "Catering & More", false)

  /** `services`, in declared order. */
  const Services: seq<Service> := [Decoration, Photography, Mehandi, Makeup, Catering]

  /** The filter's predicate for a given `activeFilter`: `isPrimary` for
      'featured', and `true` for anything else. */
  function Keeps(filter: string, s: Service): bool {
    if filter == "featured" then s.isPrimary else true
  }

  /** `services.filter(...)` with that predicate, over any list. */
  function KeptBy(services: seq<Service>, filter: string): (r: seq<Service>)
    ensures |r| <= |services|
  {
    if services == [] then []
    else if Keeps(filter, services[0]) then [services[0]] + KeptBy(services[1..], filter)
    else KeptBy(services[1..], filter)
  }

  /** `filteredServices`. */
  function FilteredServices(filter: string): seq<Service> {
    if filter == "all" then Services else KeptBy(Services, filter)
  }

  /** The filter keeps exactly the services its predicate accepts. */
  lemma {:induction false} KeptByExact(services: seq<Service>, filter: string)
    ensures forall s :: s in KeptBy(services, filter) <==> s in services && Keeps(filter, s)
  {
    if services != [] {
      KeptByExact(services[1..], filter);
      assert services == [services[0]] + services[1..];
    }
  }

  /** A filter other than 'featured' keeps the whole list. */
  lemma {:induction false} KeptByEverything(services: seq<Service>, filter: string)
    requires filter != "featured"
    ensures KeptBy(services, filter) == services
  {
    if services != [] {
      KeptByEverything(services[1..], filter);
    }
  }

  /** The filtered list keeps the services' order. */
  lemma {:induction false} KeptByIsSubsequence(services: seq<Service>, filter: string)
    ensures IsSubsequence(KeptBy(services, filter), services)
  {
    if services != [] {
      KeptByIsSubsequence(services[1..], filter);
      var rest := KeptBy(services[1..], filter);
      if Keeps(filter, services[0]) {
        assert ([services[0]] + rest)[1..] == rest;
      } else {
        SubsequenceOfTail(rest, services);
      }
    }
  }

  /** 'all' (the initial filter) and every value but 'featured' show the five
      services in declared order; 'featured' shows exactly the primary ones,
      in order. */
  lemma FilterShows(filter: string)
    ensures filter != "featured" ==> FilteredServices(filter) == Services
    ensures filter == "featured" ==>
              (forall s :: s in FilteredServices(filter) <==> s in Services && s.isPrimary)
              && IsSubsequence(FilteredServices(filter), Services)
  {
    if filter == "featured" {
      KeptByExact(Services, filter);
      KeptByIsSubsequence(Services, filter);
    } else if filter != "all" {
      KeptByEverything(Services, filter);
    }
  }

  /** With these five services, 'featured' shows only "Event & Decoration". */
  lemma FeaturedIsDecoration()
    ensures FilteredServices("featured") == [Decoration]
  {
    var t1 := [Photography, Mehandi, Makeup, Catering];
    var t2 := [Mehandi, Makeup, Catering];
    var t3 := [Makeup, Catering];
    var t4 := [Catering];
    assert Services[1..] == t1 && t1[1..] == t2 && t2[1..] == t3 && t3[1..] == t4 && t4[1..] == [];
    assert KeptBy(t4, "featured") == [];
    assert KeptBy(t3, "featured") == [];
    assert KeptBy(t2, "featured") == [];
    assert KeptBy(t1, "featured") == [];
  }

  // ---------------------------------------------------------------------------
  // Learn more
  // ---------------------------------------------------------------------------

  /** What a card's "learn more" button does: open a page, or hand the title
      to the section. */
  datatype CardAction = Navigate(path: string) | Delegate(title: string)

  /** `ServiceCard.handleLearnMore`. */
  function CardLearnMore(title: string): (r: CardAction)
    ensures r.Navigate? <==> title == DecorationTitle
    ensures r.Navigate? ==> r.path == "/event-decoration"
    ensures r.Delegate? ==> r.title == title
  {
    if title == DecorationTitle then Navigate("/event-decoration") else Delegate(title)
  }

  /** The button's caption. */
  function LearnMoreCaption(title: string): string {
    if title == DecorationTitle then "Explore Packages" else "Learn more"
  }

  /** The caption announces the page exactly for the card that navigates. */
  lemma CaptionMatchesAction(title: string)
    ensures LearnMoreCaption(title) == "Explore Packages" <==> CardLearnMore(title).Navigate?
  {
  }

  /** `ComingSoonModal`: nothing while closed, else the announcement naming
      the service. */
  function ComingSoonText(isOpen: bool, serviceName: string): (r: Option<string>)
    ensures r.None? <==> !isOpen
  {
    if !isOpen then None
    else Some("Our " + serviceName
              + " service will be available soon. We're working hard to bring you the best experience.")
  }

  /** The open dialog names the service right after "Our ". */
  lemma ComingSoonNamesService(serviceName: string)
    ensures var t := ComingSoonText(true, serviceName).value;
            t[..4] == "Our " && t[4..4 + |serviceName|] == serviceName
  {
    var t := ComingSoonText(true, serviceName).value;
    assert t == "Our " + serviceName
              + " service will be available soon. We're working hard to bring you the best experience.";
  }

  /** The section's state hooks (the never-set `showEventDecoration` is left
      out). */
  class ServicesSection {
    var activeFilter: string
    var modalOpen: bool
    var selectedService: string

    /** The dialog never concerns the decoration service. */
    predicate Valid()
      reads this
    {
      selectedService != DecorationTitle
    }

    /** The cards on the page. */
    function Shown(): seq<Service>
      reads this
    {
      FilteredServices(activeFilter)
    }

    /** The initial state: filter 'all', dialog closed, no service chosen. */
    constructor ()
      ensures Valid()
      ensures activeFilter == "all" && !modalOpen && selectedService == ""
      ensures Shown() == Services
    {
      activeFilter := "all";
      modalOpen := false;
      selectedService := "";
    }

    /** "All Services" or "Featured". */
    method ClickFilter(featured: bool)
      requires Valid()
      modifies this
      ensures Valid()
      ensures activeFilter == (if featured then "featured" else "all")
      ensures modalOpen == old(modalOpen) && selectedService == old(selectedService)
    {
      activeFilter := if featured then "featured" else "all";
    }

    /** The section's `handleLearnMore`: any title but the decoration one is
        recorded and opens the dialog. */
    method HandleLearnMore(title: string)
      requires Valid()
      modifies this
      ensures Valid()
      ensures title != DecorationTitle ==> selectedService == title && modalOpen
      ensures title == DecorationTitle ==>
                selectedService == old(selectedService) && modalOpen == old(modalOpen)
      ensures activeFilter == old(activeFilter)
    {
      if title != DecorationTitle {
        selectedService := title;
        modalOpen := true;
      }
    }

    /** A shown card's button: the decoration card returns the page to open;
        any other card opens the dialog about itself. */
    method ClickLearnMore(s: Service) returns (navigateTo: Option<string>)
      requires Valid()
      modifies this
      ensures Valid()
      ensures s in old(Shown()) && s.title == DecorationTitle ==>
                navigateTo == Some("/event-decoration")
                && modalOpen == old(modalOpen) && selectedService == old(selectedService)
      ensures s in old(Shown()) && s.title != DecorationTitle ==>
                navigateTo == None && modalOpen && selectedService == s.title
      ensures s !in old(Shown()) ==>
                navigateTo == None && modalOpen == old(modalOpen)
                && selectedService == old(selectedService)
      ensures activeFilter == old(activeFilter)
    {
      navigateTo := None;
      if s in FilteredServices(activeFilter) {
        match CardLearnMore(s.title)
        case Navigate(path) =>
          navigateTo := Some(path);
        case Delegate(title) =>
          HandleLearnMore(title);
      }
    }

    /** The dialog's close button, "Got it, thanks!" or its backdrop, all
        present only while it is open: only `modalOpen` changes. */
    method CloseModal()
      requires Valid()
      modifies this
      ensures Valid()
      ensures !modalOpen
      ensures selectedService == old(selectedService) && activeFilter == old(activeFilter)
    {
      if modalOpen {
        modalOpen := false;
      }
    }
  }

}
