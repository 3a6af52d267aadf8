/** The EventDecoration screen of src/components/pages/EventDecoration.jsx:
    the theme catalogue under a toggled search bar, and a "custom event"
    request dialog. */
module DecorationComponent {
  import opened Seqs
  import opened Decorations

  /** The search toggle's aria-label; ToggleSearch shows that it names what
      the click does. */
  function SearchAriaLabel(showSearch: bool): string {
    if showSearch then "Close search" else "Open search"
  }

  /** The screen's state hooks, together with whether `searchInputRef` is
      attached, which React keeps equal to whether the input is mounted. */
  class EventDecorationScreen {
    var selectedEvent: Option<EventType>
    var searchTerm: string
    var showSearch: bool
    var showRequestForm: bool
    var inputMounted: bool

    /** The input (and so its ref) exists exactly while the search bar is
        shown, a selected theme comes from the catalogue, and the term is
        empty while the bar is hidden. */
    predicate Valid()
      reads this
    {
      inputMounted == showSearch
      && (selectedEvent.Some? ==> selectedEvent.value in EventTypes)
      && (!showSearch ==> searchTerm == "")
    }

    /** The themes on the page. */
    function Shown(): seq<EventType>
      reads this
    {
      DisplayEvents(searchTerm)
    }

    /** The initial state: nothing selected, empty term, bar and dialog closed. */
    constructor ()
      ensures Valid()
      ensures selectedEvent == None && searchTerm == "" && !showSearch && !showRequestForm
    {
      selectedEvent := None;
      searchTerm := "";
      showSearch := false;
      showRequestForm := false;
      inputMounted := false;
    }

    /** `toggleSearch`: flips the bar. The focus branch needs the bar closed
        and the input mounted at once, which never happens, so the else
        branch always runs and the term is cleared on opening as well as on
        closing. */
    method ToggleSearch()
      requires Valid()
      modifies this
      ensures Valid()
      ensures showSearch == !old(showSearch) && searchTerm == ""
      ensures selectedEvent == old(selectedEvent) && showRequestForm == old(showRequestForm)
      ensures old(SearchAriaLabel(showSearch)) == "Open search" <==> showSearch
      ensures old(SearchAriaLabel(showSearch)) == "Close search" <==> !showSearch
    {
      var wasShown := showSearch;
      showSearch := !showSearch;
      if !wasShown && inputMounted {
        // the focus timer would be scheduled here
      } else {
        searchTerm := "";
      }
      inputMounted := showSearch;
    }

    /** Typing into the search input, which exists only while the bar is shown. */
    method TypeSearch(v: string)
      requires Valid()
      modifies this
      ensures Valid()
      ensures old(showSearch) ==> searchTerm == v
      ensures !old(showSearch) ==> searchTerm == old(searchTerm)
      ensures showSearch == old(showSearch) && selectedEvent == old(selectedEvent)
      ensures showRequestForm == old(showRequestForm)
    {
      if showSearch {
        searchTerm := v;
      }
    }

    /** The clear button, shown while the bar is open and the term non-empty:
        afterwards the term is empty and the whole catalogue is shown. */
    method ClearSearch()
      requires Valid()
      modifies this
      ensures Valid()
      ensures searchTerm == "" && Shown() == EventTypes
      ensures showSearch == old(showSearch) && selectedEvent == old(selectedEvent)
      ensures showRequestForm == old(showRequestForm)
    {
      if showSearch && searchTerm != "" {
        searchTerm := "";
      }
      DisplayIsFiltered("");
    }

    /** "Request Event" or its mobile twin, both always in the header. */
    method OpenRequestForm()
      requires Valid()
      modifies this
      ensures Valid()
      ensures showRequestForm
      ensures selectedEvent == old(selectedEvent) && searchTerm == old(searchTerm)
      ensures showSearch == old(showSearch)
    {
      showRequestForm := true;
    }

    /** The dialog's backdrop or its X button, present only while it is open. */
    method CloseRequestForm()
      requires Valid()
      modifies this
      ensures Valid()
      ensures !showRequestForm
      ensures selectedEvent == old(selectedEvent) && searchTerm == old(searchTerm)
      ensures showSearch == old(showSearch)
    {
      if showRequestForm {
        showRequestForm := false;
      }
    }

    /** A mouse press anywhere in the document: the outside-click listener
        closes the dialog when its content is mounted and the press is not
        inside it. While the dialog is closed the press changes nothing. */
    method MouseDown(insideDialog: bool)
      requires Valid()
      modifies this
      ensures Valid()
      ensures showRequestForm == (old(showRequestForm) && insideDialog)
      ensures selectedEvent == old(selectedEvent) && searchTerm == old(searchTerm)
      ensures showSearch == old(showSearch)
    {
      if showRequestForm && !insideDialog {
        showRequestForm := false;
      }
    }

    /** "View Work", "Event Gallery" or "Book Now" on a shown card. */
    method SelectEvent(e: EventType)
      requires Valid()
      modifies this
      ensures Valid()
      ensures e in old(Shown()) ==> selectedEvent == Some(e)
      ensures e !in old(Shown()) ==> selectedEvent == old(selectedEvent)
      ensures searchTerm == old(searchTerm) && showSearch == old(showSearch)
      ensures showRequestForm == old(showRequestForm)
    {
      if e in DisplayEvents(searchTerm) {
        DisplayWithinCatalogue(searchTerm, e);
        selectedEvent := Some(e);
      }
    }
  }

  /** Every shown card is a catalogue entry. */
  lemma DisplayWithinCatalogue(term: string, e: EventType)
    ensures e in DisplayEvents(term) ==> e in EventTypes
  {
    SearchExact(EventTypes, term);
  }

  /** Open the bar, search for "WEDDING", then close the bar: the two wedding
      themes are shown while searching, and closing brings back the whole
      catalogue with an empty term. */
  method SearchAndClose() returns (during: seq<EventType>, after: seq<EventType>, term: string)
    ensures during == [Anniversary, Reception]
    ensures after == EventTypes && term == ""
  {
    var screen := new EventDecorationScreen();
    screen.ToggleSearch();
    screen.TypeSearch("WEDDING");
    WeddingSearch();
    during := screen.Shown();
    screen.ToggleSearch();
    DisplayIsFiltered("");
    after := screen.Shown();
    term := screen.searchTerm;
  }

  /** Reopening the bar never brings back an earlier term. */
  method ReopenForgetsTerm(v: string) returns (reopened: string)
    ensures reopened == ""
  {
    var screen := new EventDecorationScreen();
    screen.ToggleSearch();
    screen.TypeSearch(v);
    screen.ToggleSearch();
    screen.ToggleSearch();
    reopened := screen.searchTerm;
  }
}
