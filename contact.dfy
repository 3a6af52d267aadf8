/** The "Get In Touch" form (src/components/Contact.jsx): five fields, a
    simulated send that completes after a delay, and a thank-you panel that a
    second delay or a button dismisses. The two delays are timers, so their
    firings are events of their own here. */
module ContactForm {
  import opened Seqs

  /** The five named inputs. */
  datatype Field = Name | Email | Phone | EventType | Message

  /** `formData`. */
  datatype Form = Form(name: string, email: string, phone: string, eventType: string, message: string)

  const EmptyForm := Form("", "", "", "", "")

  /** The values of the event-type `<select>`. */
  const EventTypeOptions: seq<string> := ["", "wedding", "corporate", "birthday", "anniversary", "other"]

  /** The value of field f. */
  function Get(form: Form, f: Field): string {
    match f
    case Name => form.name
    case Email => form.email
    case Phone => form.phone
    case EventType => form.eventType
    case Message => form.message
  }

  /** `{ ...prev, [name]: value }`: field f takes v, the others keep theirs. */
  function With(form: Form, f: Field, v: string): (r: Form)
    ensures Get(r, f) == v
    ensures forall g :: g != f ==> Get(r, g) == Get(form, g)
  {
    match f
    case Name => form.(name := v)
    case Email => form.(email := v)
    case Phone => form.(phone := v)
    case EventType => form.(eventType := v)
    case Message => form.(message := v)
  }

  /** The browser lets the form submit only when the three `required`
      fields are non-empty. */
  predicate RequiredFilled(form: Form) {
    form.name != "" && form.email != "" && form.message != ""
  }

  /** The submit button's caption. */
  function SubmitCaption(isSubmitting: bool): string {
    if isSubmitting then "Sending..." else "Send Message"
  }

  /** The caption reads "Sending..." exactly while the button is disabled
      (a send is in flight), and "Send Message" exactly while it can be
      pressed. */
  lemma CaptionShowsProgress(isSubmitting: bool)
    ensures SubmitCaption(isSubmitting) == "Sending..." <==> isSubmitting
    ensures SubmitCaption(isSubmitting) == "Send Message" <==> !isSubmitting
  {
  }

  /** Writing a field and reading it back gives what was written, and
      writing it again overrides the first write. */
  lemma WithOverrides(form: Form, f: Field, v: string, w: string)
    ensures With(With(form, f, v), f, w) == With(form, f, w)
    ensures With(form, f, Get(form, f)) == form
  {
  }

  /** A cleared form never satisfies the required fields. */
  lemma EmptyFormBlocked()
    ensures !RequiredFilled(EmptyForm)
    ensures forall f :: Get(EmptyForm, f) == ""
  {
  }

  /** The component's state hooks and its pending timers: the send that the
      1500 ms timer will complete (with the form as it was when the send
      began, which is what that timer's callback sees), and how many 5000 ms
      reset timers are still to fire. */
  class ContactSection {
    var form: Form
    var isSubmitting: bool
    var isSubmitted: bool
    var pendingSend: Option<Form>
    var pendingResets: nat

    /** A send is in flight exactly while `isSubmitting` holds, the
        thank-you panel and a send in flight never coincide, and the event
        type is one of the select's values. */
    predicate Valid()
      reads this
    {
      (isSubmitting <==> pendingSend.Some?)
      && !(isSubmitting && isSubmitted)
      && form.eventType in EventTypeOptions
    }

    /** The form (and not the thank-you panel) is on the page. */
    predicate FormShown()
      reads this
    {
      !isSubmitted
    }

    /** The initial state: an empty form, nothing in flight, no panel. */
    constructor ()
      ensures Valid()
      ensures form == EmptyForm && !isSubmitting && !isSubmitted
      ensures pendingSend == None && pendingResets == 0
    {
      form := EmptyForm;
      isSubmitting := false;
      isSubmitted := false;
      pendingSend := None;
      pendingResets := 0;
    }

    /** `handleChange` from one of the inputs, which exist only while the form
        is shown; the select only offers its option values. */
    method Edit(f: Field, v: string)
      requires Valid()
      modifies this
      ensures Valid()
      ensures old(FormShown()) && (f != EventType || v in EventTypeOptions) ==> form == With(old(form), f, v)
      ensures !(old(FormShown()) && (f != EventType || v in EventTypeOptions)) ==> form == old(form)
      ensures isSubmitting == old(isSubmitting) && isSubmitted == old(isSubmitted)
      ensures pendingSend == old(pendingSend) && pendingResets == old(pendingResets)
    {
      if !isSubmitted && (f != EventType || v in EventTypeOptions) {
        form := With(form, f, v);
      }
    }

    /** `handleSubmit`: needs the form shown, the button enabled (not
        sending) and the required fields filled; it marks the send as in
        flight and starts the 1500 ms timer. */
    method Submit()
      requires Valid()
      modifies this
      ensures Valid()
      ensures old(FormShown() && !isSubmitting && RequiredFilled(form)) ==>
                isSubmitting && pendingSend == Some(old(form))
                && SubmitCaption(isSubmitting) == "Sending..."
      ensures !old(FormShown() && !isSubmitting && RequiredFilled(form)) ==>
                isSubmitting == old(isSubmitting) && pendingSend == old(pendingSend)
      ensures form == old(form) && isSubmitted == old(isSubmitted) && pendingResets == old(pendingResets)
    {
      if !isSubmitted && !isSubmitting && RequiredFilled(form) {
        isSubmitting := true;
        pendingSend := Some(form);
      }
    }

    /** The 1500 ms timer fires: the send completes with the form as it was
        at submission (returned here as what is logged), the thank-you panel
        replaces the form, every field is cleared and the 5000 ms timer
        starts. */
    method CompleteSend() returns (sent: Option<Form>)
      requires Valid()
      modifies this
      ensures Valid()
      ensures sent == old(pendingSend)
      ensures old(pendingSend).Some? ==>
                !isSubmitting && isSubmitted && form == EmptyForm
                && pendingSend == None && pendingResets == old(pendingResets) + 1
      ensures old(pendingSend).None? ==>
                isSubmitting == old(isSubmitting) && isSubmitted == old(isSubmitted)
                && form == old(form) && pendingSend == old(pendingSend)
                && pendingResets == old(pendingResets)
    {
      sent := pendingSend;
      if pendingSend.Some? {
        isSubmitting := false;
        isSubmitted := true;
        form := EmptyForm;
        pendingSend := None;
        pendingResets := pendingResets + 1;
      }
    }

    /** A 5000 ms timer fires: the panel goes away; the form is untouched. */
    method ResetFires()
      requires Valid()
      modifies this
      ensures Valid()
      ensures old(pendingResets) > 0 ==> !isSubmitted && pendingResets == old(pendingResets) - 1
      ensures old(pendingResets) == 0 ==> isSubmitted == old(isSubmitted) && pendingResets == 0
      ensures form == old(form) && isSubmitting == old(isSubmitting) && pendingSend == old(pendingSend)
    {
      if pendingResets > 0 {
        pendingResets := pendingResets - 1;
        isSubmitted := false;
      }
    }

    /** "Send Another Message", shown with the panel: the panel goes away;
        the form and the timers are untouched. */
    method SendAnother()
      requires Valid()
      modifies this
      ensures Valid()
      ensures !isSubmitted
      ensures form == old(form) && isSubmitting == old(isSubmitting)
      ensures pendingSend == old(pendingSend) && pendingResets == old(pendingResets)
    {
      if isSubmitted {
        isSubmitted := false;
      }
    }
  }

  /** Fill the three required fields, submit, keep typing while the send is
      in flight, and let the send complete: what is sent is the form as
      submitted (the later typing is lost), the panel shows, the form is
      empty, and pressing submit again does nothing until the panel goes. */
  method SendWhileTyping(name: string, email: string, message: string, late: string)
    returns (sent: Option<Form>, formAfter: Form, panel: bool, resubmitted: bool)
    requires name != "" && email != "" && message != ""
    ensures sent == Some(Form(name, email, "", "", message))
    ensures formAfter == EmptyForm && panel && !resubmitted
  {
    var c := new ContactSection();
    c.Edit(Name, name);
    c.Edit(Email, email);
    c.Edit(Message, message);
    c.Submit();
    c.Edit(Name, late);
    sent := c.CompleteSend();
    formAfter := c.form;
    panel := c.isSubmitted;
    c.Submit();
    resubmitted := c.isSubmitting;
  }

  /** A reset timer left from an earlier send still clears the panel of a
      later one: send, dismiss the panel by hand, send again, and the first
      send's timer ends the second panel (after less than 5000 ms of it). */
  method StaleResetEndsLaterPanel(name: string, email: string, message: string)
    returns (panelBefore: bool, panelAfter: bool, resetsLeft: nat)
    requires name != "" && email != "" && message != ""
    ensures panelBefore && !panelAfter && resetsLeft == 1
  {
    var c := new ContactSection();
    c.Edit(Name, name);
    c.Edit(Email, email);
    c.Edit(Message, message);
    c.Submit();
    var sent := c.CompleteSend();
    c.SendAnother();
    c.Edit(Name, name);
    c.Edit(Email, email);
    c.Edit(Message, message);
    c.Submit();
    sent := c.CompleteSend();
    panelBefore := c.isSubmitted;
    c.ResetFires();
    panelAfter := c.isSubmitted;
    resetsLeft := c.pendingResets;
  }
}
