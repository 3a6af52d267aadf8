/** The three-step consultation booking (src/components/sections/BookingSection.jsx):
    step 1 picks a date in the calendar widget, step 2 collects seven event
    details, step 3 offers the consultation-fee button, which opens a
    "Request Received" dialog. */
module Booking {
  import opened Dates
  import opened Seqs

  /** The seven fields of the `form` state, in the order the page shows them. */
  datatype Field = Name | Phone | Email | EventType | Venue | Guests | Budget

  const AllFields: seq<Field> := [Name, Phone, Email, EventType, Venue, Guests, Budget]

  /** The `form` state: every field starts as the empty string. */
  datatype BookingForm = BookingForm(
    name: string, phone: string, email: string, eventType: string,
    venue: string, guests: string, budget: string)

  const EmptyForm := BookingForm("", "", "", "", "", "", "")

  /** The values the budget `<select>` can hold: the "Select a range"
      placeholder, whose value is '', and the four ranges. */
  const BudgetOptions: seq<string> := [
    "",
    "₹50,000 - ₹1,00,000",
    "₹1,00,000 - ₹2,50,000",
    "₹2,50,000 - ₹5,00,000",
    "₹5,00,000+"
  ]

  /** The value of field f. */
  function Get(form: BookingForm, f: Field): string {
    match f
    case Name => form.name
    case Phone => form.phone
    case Email => form.email
    case EventType => form.eventType
    case Venue => form.venue
    case Guests => form.guests
    case Budget => form.budget
  }

  /** `setForm({ ...form, f: v })`: field f takes v, the others keep theirs. */
  function With(form: BookingForm, f: Field, v: string): (r: BookingForm)
    ensures Get(r, f) == v
    ensures forall g :: g != f ==> Get(r, g) == Get(form, g)
  {
    match f
    case Name => form.(name := v)
    case Phone => form.(phone := v)
    case Email => form.(email := v)
    case EventType => form.(eventType := v)
    case Venue => form.(venue := v)
    case Guests => form.(guests := v)
    case Budget => form.(budget := v)
  }

  /** Two forms with the same value in every field are the same form. */
  lemma FormExtensional(a: BookingForm, b: BookingForm)
    requires forall f :: Get(a, f) == Get(b, f)
    ensures a == b
  {
    assert Get(a, Name) == Get(b, Name) && Get(a, Phone) == Get(b, Phone);
    assert Get(a, Email) == Get(b, Email) && Get(a, EventType) == Get(b, EventType);
    assert Get(a, Venue) == Get(b, Venue) && Get(a, Guests) == Get(b, Guests);
    assert Get(a, Budget) == Get(b, Budget);
  }

  /** Typing into a field and then restoring its old value gives back the
      form; the second of two edits to one field wins. */
  lemma EditUndone(form: BookingForm, f: Field, v: string, w: string)
    ensures With(With(form, f, v), f, Get(form, f)) == form
    ensures With(With(form, f, v), f, w) == With(form, f, w)
  {
    FormExtensional(With(With(form, f, v), f, Get(form, f)), form);
    FormExtensional(With(With(form, f, v), f, w), With(form, f, w));
  }

  /** Edits to two different fields can be made in either order. */
  lemma EditsCommute(form: BookingForm, f: Field, g: Field, v: string, w: string)
    requires f != g
    ensures With(With(form, f, v), g, w) == With(With(form, g, w), f, v)
  {
    FormExtensional(With(With(form, f, v), g, w), With(With(form, g, w), f, v));
  }

  /** The fields of `fields` that are still empty, in order. */
  function MissingIn(form: BookingForm, fields: seq<Field>): (r: seq<Field>)
    ensures forall i :: 0 <= i < |r| ==> r[i] in fields && Get(form, r[i]) == ""
    ensures forall i :: 0 <= i < |fields| && Get(form, fields[i]) == "" ==> fields[i] in r
  {
    if fields == [] then []
    else (if Get(form, fields[0]) == "" then [fields[0]] else []) + MissingIn(form, fields[1..])
  }

  /** The fields still empty, in page order. */
  function MissingFields(form: BookingForm): seq<Field> {
    MissingIn(form, AllFields)
  }

  /** The Proceed button is enabled: a date is selected and no field is the
      empty string (JavaScript's falsy string). */
  predicate ProceedEnabled(selectedDate: Option<Date>, form: BookingForm) {
    selectedDate.Some?
    && form.name != "" && form.phone != "" && form.email != ""
    && form.eventType != "" && form.venue != "" && form.guests != ""
    && form.budget != ""
  }

  /** Proceed is enabled exactly when a date is selected and no field is
      missing. */
  lemma ProceedEnabledIff(selectedDate: Option<Date>, form: BookingForm)
    ensures ProceedEnabled(selectedDate, form) <==> selectedDate.Some? && MissingFields(form) == []
  {
    var missing := MissingFields(form);
    if missing != [] {
      assert Get(form, missing[0]) == "";
    }
    if !ProceedEnabled(selectedDate, form) && selectedDate.Some? {
      var i :=
        if form.name == "" then 0 else if form.phone == "" then 1
        else if form.email == "" then 2 else if form.eventType == "" then 3
        else if form.venue == "" then 4 else if form.guests == "" then 5 else 6;
      assert Get(form, AllFields[i]) == "";
      assert AllFields[i] in missing;
    }
  }

  /** The name the dialog thanks: the entered name, or "Client" when the
      field is empty. */
  function ShownName(form: BookingForm): (r: string)
    ensures r != ""
    ensures form.name != "" ==> r == form.name
    ensures form.name == "" ==> r == "Client"
  {
    if form.name != "" then form.name else "Client"
  }

  /** The event type the dialog names: the entered type, or "Event". */
  function ShownEventType(form: BookingForm): (r: string)
    ensures r != ""
    ensures form.eventType != "" ==> r == form.eventType
    ensures form.eventType == "" ==> r == "Event"
  {
    if form.eventType != "" then form.eventType else "Event"
  }

  /** The dialog's message. */
  function ConfirmationMessage(form: BookingForm): string {
    "Thank you, " + ShownName(form) + "! Your consultation request for "
    + ShownEventType(form) + " has been received. Our team will contact you within 24 hours."
  }

  /** The message always names someone and something, and the name sits right
      after the greeting. */
  lemma ConfirmationNamesClient(form: BookingForm)
    ensures var m := ConfirmationMessage(form);
            |m| > 11 + |ShownName(form)|
            && m[..11] == "Thank you, "
            && m[11..11 + |ShownName(form)|] == ShownName(form)
  {
    var m := ConfirmationMessage(form);
    var n := ShownName(form);
    assert m == "Thank you, " + n + ("! Your consultation request for "
      + ShownEventType(form) + " has been received. Our team will contact you within 24 hours.");
  }

  /** The section's state hooks. */
  class BookingSection {
    var selectedDate: Option<Date>
    var step: int
    var form: BookingForm
    var confirmOpen: bool

    /** The step is 1, 2 or 3; it is 1 exactly while no date is selected; a
        selected date is an existing date. */
    predicate Valid()
      reads this
    {
      1 <= step <= 3
      && (step == 1 <==> selectedDate.None?)
      && (selectedDate.Some? ==> selectedDate.value.Valid())
    }

    /** Step 2 (the details) is on the page. */
    predicate DetailsShown()
      reads this
    {
      step >= 2
    }

    /** Step 3 (the fee button) is on the page. */
    predicate FeeButtonShown()
      reads this
    {
      step >= 3
    }

    /** The initial state: no date, step 1, an empty form, no dialog. */
    constructor ()
      ensures Valid()
      ensures selectedDate == None && step == 1 && form == EmptyForm && !confirmOpen
    {
      selectedDate := None;
      step := 1;
      form := EmptyForm;
      confirmOpen := false;
    }

    /** The calendar's onSelect: the date is stored and the flow moves to step
        2, also from step 3, which then leaves the page again. */
    method SelectDate(d: Date)
      requires Valid() && d.Valid()
      modifies this
      ensures Valid()
      ensures selectedDate == Some(d) && step == 2
      ensures form == old(form) && confirmOpen == old(confirmOpen)
    {
      selectedDate := Some(d);
      step := 2;
    }

    /** Typing into a detail input or choosing a budget: takes effect only
        while step 2 is shown, and the budget takes only the select's values. */
    method EditField(f: Field, v: string)
      requires Valid()
      modifies this
      ensures Valid()
      ensures old(DetailsShown()) && (f != Budget || v in BudgetOptions) ==> form == With(old(form), f, v)
      ensures !(old(DetailsShown()) && (f != Budget || v in BudgetOptions)) ==> form == old(form)
      ensures selectedDate == old(selectedDate) && step == old(step) && confirmOpen == old(confirmOpen)
    {
      if step >= 2 && (f != Budget || v in BudgetOptions) {
        form := With(form, f, v);
      }
    }

    /** The Proceed button: moves to step 3 when shown and enabled. */
    method ClickProceed()
      requires Valid()
      modifies this
      ensures Valid()
      ensures old(DetailsShown()) && ProceedEnabled(old(selectedDate), old(form)) ==> step == 3
      ensures !(old(DetailsShown()) && ProceedEnabled(old(selectedDate), old(form))) ==> step == old(step)
      ensures selectedDate == old(selectedDate) && form == old(form) && confirmOpen == old(confirmOpen)
    {
      if step >= 2 && ProceedEnabled(selectedDate, form) {
        step := 3;
      }
    }

    /** "Proceed to Consultation Fee": opens the dialog when step 3 is shown. */
    method ClickConsultationFee()
      requires Valid()
      modifies this
      ensures Valid()
      ensures confirmOpen == (old(confirmOpen) || old(FeeButtonShown()))
      ensures selectedDate == old(selectedDate) && step == old(step) && form == old(form)
    {
      if step >= 3 {
        confirmOpen := true;
      }
    }

    /** The dialog's close icon and its Close button. */
    method CloseConfirm()
      requires Valid()
      modifies this
      ensures Valid()
      ensures !confirmOpen
      ensures selectedDate == old(selectedDate) && step == old(step) && form == old(form)
    {
      confirmOpen := false;
    }
  }

  /** Filling every detail on step 2 with v (and the first budget range):
      nothing is missing afterwards. */
  method FillDetails(b: BookingSection, v: string)
    requires b.Valid() && b.step == 2 && v != ""
    modifies b
    ensures b.Valid() && b.step == 2 && b.selectedDate == old(b.selectedDate)
    ensures b.form == BookingForm(v, v, v, v, v, v, BudgetOptions[1])
    ensures MissingFields(b.form) == []
  {
    b.EditField(Name, v);
    b.EditField(Phone, v);
    b.EditField(Email, v);
    b.EditField(EventType, v);
    b.EditField(Venue, v);
    b.EditField(Guests, v);
    b.EditField(Budget, BudgetOptions[1]);
    ProceedEnabledIff(b.selectedDate, b.form);
  }

  /** The page moves through the steps in order: the fee button appears only
      after a Proceed click with every field filled, and the fields can be
      cleared again afterwards without leaving step 3, which is why the dialog
      falls back to "Client" and "Event". */
  method FilledThenCleared(today: Date, v: string) returns (b: BookingSection)
    requires today.Valid() && v != ""
    ensures b.Valid() && b.step == 3 && b.form.name == ""
    ensures ShownName(b.form) == "Client"
  {
    b := new BookingSection();
    b.SelectDate(today);
    FillDetails(b, v);
    b.ClickProceed();
    b.EditField(Name, "");
  }
}
