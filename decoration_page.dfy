/** The EventDecoration page of src/pages/EventDecoration.jsx: the theme
    catalogue with two always-present search inputs (one for wide and one for
    narrow screens) and a "custom event" request dialog. Every handler
    replaces one whole state value, so the page is a state record and one
    function per handler. */
module DecorationPage {
  import opened Seqs
  import opened Decorations

  /** The page's three state hooks. */
  datatype PageState = PageState(
    selectedEvent: Option<EventType>, searchTerm: string, showRequestForm: bool)

  const Initial := PageState(None, "", false)

  /** The two search inputs: the wide-screen one in the top bar and the
      narrow-screen one above the cards. */
  datatype SearchInput = TopBar | AboveCards

  /** The ways the dialog is dismissed: its backdrop, its X button, or a
      mouse press that lands outside the dialog's content (a press inside it
      changes nothing). */
  datatype Dismissal = Backdrop | CloseButton | PressOutside

  /** The themes on the page. */
  function Shown(s: PageState): seq<EventType> {
    DisplayEvents(s.searchTerm)
  }

  /** Typing v into either input. */
  function TypeSearch(s: PageState, input: SearchInput, v: string): (r: PageState)
    ensures r.searchTerm == v
    ensures r.selectedEvent == s.selectedEvent && r.showRequestForm == s.showRequestForm
  {
    match input
    case TopBar => s.(searchTerm := v)
    case AboveCards => s.(searchTerm := v)
  }

  /** "Request Custom". */
  function OpenRequest(s: PageState): (r: PageState)
    ensures r.showRequestForm
    ensures r.selectedEvent == s.selectedEvent && r.searchTerm == s.searchTerm
  {
    s.(showRequestForm := true)
  }

  /** Dismissing the dialog; a no-op while it is closed. */
  function CloseRequest(s: PageState, how: Dismissal): (r: PageState)
    ensures !r.showRequestForm
    ensures r.selectedEvent == s.selectedEvent && r.searchTerm == s.searchTerm
  {
    if s.showRequestForm then s.(showRequestForm := false) else s
  }

  /** "View Details" or "Book Now" on a shown card. */
  function SelectEvent(s: PageState, e: EventType): (r: PageState)
    ensures e in Shown(s) ==> r.selectedEvent == Some(e)
    ensures e !in Shown(s) ==> r == s
    ensures r.searchTerm == s.searchTerm && r.showRequestForm == s.showRequestForm
  {
    if e in Shown(s) then s.(selectedEvent := Some(e)) else s
  }

  /** A state the page can reach: a selected theme is a catalogue entry. */
  predicate Reachable(s: PageState) {
    s.selectedEvent.Some? ==> s.selectedEvent.value in EventTypes
  }

  /** Both inputs write the one shared term, so typing the same text into
      either one yields the same page, and the two inputs show it alike. */
  lemma InputsShareTerm(s: PageState, v: string)
    ensures TypeSearch(s, TopBar, v) == TypeSearch(s, AboveCards, v)
    ensures Shown(TypeSearch(s, TopBar, v)) == FilteredEvents(v)
  {
    DisplayIsFiltered(v);
  }

  /** Every handler keeps the page reachable. */
  lemma HandlersKeepReachable(s: PageState, input: SearchInput, v: string, how: Dismissal, e: EventType)
    requires Reachable(s)
    ensures Reachable(TypeSearch(s, input, v))
    ensures Reachable(OpenRequest(s)) && Reachable(CloseRequest(s, how))
    ensures Reachable(SelectEvent(s, e))
  {
    SearchExact(EventTypes, s.searchTerm);
  }

  /** The dialog changes nothing but itself: opening and dismissing it leaves
      the same page behind, whatever it was, and never changes the cards. */
  lemma DialogRoundTrip(s: PageState, how: Dismissal)
    ensures CloseRequest(OpenRequest(s), how) == s.(showRequestForm := false)
    ensures Shown(OpenRequest(s)) == Shown(s) && Shown(CloseRequest(s, how)) == Shown(s)
  {
  }

  /** Dismissing twice is dismissing once. */
  lemma CloseIdempotent(s: PageState, a: Dismissal, b: Dismissal)
    ensures CloseRequest(CloseRequest(s, a), b) == CloseRequest(s, a)
  {
  }

  /** Typing replaces the term outright: the last text typed decides the
      cards, whichever input it went into. */
  lemma LastTypingWins(s: PageState, i: SearchInput, j: SearchInput, v: string, w: string)
    ensures TypeSearch(TypeSearch(s, i, v), j, w) == TypeSearch(s, j, w)
  {
  }

  /** On the initial page every theme is shown, in declared order. */
  lemma InitialShowsAll()
    ensures Shown(Initial) == EventTypes && Reachable(Initial)
  {
    DisplayIsFiltered("");
  }

  /** Selecting a theme after a search picks from the filtered list only. */
  lemma SelectionAfterSearch(s: PageState, v: string, e: EventType)
    requires v != ""
    ensures e in EventTypes && Matches(e, v) ==>
              SelectEvent(TypeSearch(s, TopBar, v), e).selectedEvent == Some(e)
    ensures !(e in EventTypes && Matches(e, v)) ==>
              SelectEvent(TypeSearch(s, TopBar, v), e).selectedEvent == s.selectedEvent
  {
    SearchExact(EventTypes, v);
  }
}
