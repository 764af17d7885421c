/** The field state machine shared by the two form components (`ModalForm` and
    `ContactForm`): three text fields, a phone field that only accepts digits, a
    submit step that refuses empty fields and clears the form after emitting the
    record, and the prefill effect that loads the contact being edited.
    Each handler is one atomic transition `Step` on the current fields; what a
    handler hands to its parent (`onSubmit`/`onAdd`, `onClose`) is its `Emit`. */
module Form {
  import opened Contacts
  import Text

  datatype Fields = Fields(name: string, email: string, phone: string)

  /** The fields of a freshly mounted form: `useState("")` three times. */
  const Blank: Fields := Fields("", "", "")

  /** What a handler passes to the parent: nothing (the alert path and plain typing),
      the record given to `onSubmit`/`onAdd`, or the `onClose` intent. */
  datatype Emit = Silent | Submitted(contact: Contact) | Closed

  datatype Outcome = Outcome(fields: Fields, emit: Emit)

  /** The user events a form reacts to. `EditingSet` is the `editing` prop changing,
      which re-runs the prefill effect. `ClosePressed` exists in the modal only. */
  datatype Event =
    | NameTyped(value: string)
    | EmailTyped(value: string)
    | PhoneTyped(value: string)
    | EditingSet(editing: Option<Contact>)
    | SubmitPressed
    | ClosePressed

  /** The prefill effect: a non-null `editing` loads its three fields; null touches nothing. */
  function Prefill(f: Fields, editing: Option<Contact>): Fields {
    match editing
    case None => f
    case Some(c) => Fields(c.name, c.email, c.phone)
  }

  /** `handlePhoneChange`: the new value is taken only when it passes `/^\d*$/`. */
  function ChangePhone(f: Fields, v: string): Fields {
    if Text.AllDigits(v) then f.(phone := v) else f
  }

  /** No field is the empty string (`!name || !email || !phone` is false). */
  predicate Complete(f: Fields) {
    f.name != "" && f.email != "" && f.phone != ""
  }

  /** `handleSubmit`: an incomplete form is refused (alert, no callback, no change);
      a complete one hands `{name, email, phone}` to the parent and is then cleared. */
  function Submit(f: Fields): Outcome {
    if !Complete(f) then Outcome(f, Silent)
    else Outcome(Blank, Submitted(Contact(f.name, f.email, f.phone)))
  }

  function Step(f: Fields, e: Event): Outcome {
    match e
    case NameTyped(v) => Outcome(f.(name := v), Silent)
    case EmailTyped(v) => Outcome(f.(email := v), Silent)
    case PhoneTyped(v) => Outcome(ChangePhone(f, v), Silent)
    case EditingSet(editing) => Outcome(Prefill(f, editing), Silent)
    case SubmitPressed => Submit(f)
    case ClosePressed => Outcome(f, Closed)
  }

  /** The fields after a sequence of events, with every callback invocation in order. */
  datatype Trace = Trace(fields: Fields, emitted: seq<Emit>)

  function Run(f: Fields, events: seq<Event>): Trace
    decreases |events|
  {
    if events == [] then Trace(f, [])
    else
      var o := Step(f, events[0]);
      var rest := Run(o.fields, events[1..]);
      Trace(rest.fields, (if o.emit.Silent? then [] else [o.emit]) + rest.emitted)
  }

  /** Every contact the prefill effect may load carries an all-digits phone. */
  ghost predicate PrefillsDigitPhones(events: seq<Event>) {
    forall i :: 0 <= i < |events| && events[i].EditingSet? && events[i].editing.Some? ==>
      Text.AllDigits(events[i].editing.value.phone)
  }

  lemma PhoneChangeTakesOnlyDigits(f: Fields, v: string)
    ensures var o := Step(f, PhoneTyped(v));
      && o.emit == Silent
      && o.fields.name == f.name && o.fields.email == f.email
      && (Text.AllDigits(v) ==> o.fields.phone == v)
      && (!Text.AllDigits(v) ==> o.fields == f)
  {
  }

  lemma SubmitRefusesIncomplete(f: Fields)
    requires f.name == "" || f.email == "" || f.phone == ""
    ensures Step(f, SubmitPressed) == Outcome(f, Silent)
  {
  }

  lemma SubmitEmitsAndClears(f: Fields)
    requires f.name != "" && f.email != "" && f.phone != ""
    ensures Step(f, SubmitPressed) == Outcome(Fields("", "", ""), Submitted(Contact(f.name, f.email, f.phone)))
  {
  }

  lemma PrefillLoadsOrKeeps(f: Fields, editing: Option<Contact>)
    ensures var o := Step(f, EditingSet(editing));
      && o.emit == Silent
      && (editing.Some? ==>
            o.fields == Fields(editing.value.name, editing.value.email, editing.value.phone))
      && (editing.None? ==> o.fields == f)
  {
  }

  lemma CloseChangesNothing(f: Fields)
    ensures Step(f, ClosePressed) == Outcome(f, Closed)
  {
  }

  /** The phone field stays all digits through any run of events, as long as it
      starts that way and every prefilled contact has an all-digits phone: the
      prefill is the one path that bypasses the digit check. */
  lemma {:induction false} RunKeepsPhoneDigits(f: Fields, events: seq<Event>)
    requires Text.AllDigits(f.phone)
    requires PrefillsDigitPhones(events)
    ensures Text.AllDigits(Run(f, events).fields.phone)
    decreases |events|
  {
    if events != [] {
      var o := Step(f, events[0]);
      assert Text.AllDigits(o.fields.phone);
      assert PrefillsDigitPhones(events[1..]) by {
        forall i | 0 <= i < |events[1..]|
          ensures events[1..][i] == events[i + 1]
        {
        }
      }
      RunKeepsPhoneDigits(o.fields, events[1..]);
    }
  }

  /** Every record a form hands to its parent has three non-empty fields, whatever
      the events and the starting fields. */
  lemma {:induction false} RunEmitsOnlyCompleteRecords(f: Fields, events: seq<Event>)
    ensures forall i :: 0 <= i < |Run(f, events).emitted| && Run(f, events).emitted[i].Submitted? ==>
      var c := Run(f, events).emitted[i].contact;
      c.name != "" && c.email != "" && c.phone != ""
    decreases |events|
  {
    if events != [] {
      RunEmitsOnlyCompleteRecords(Step(f, events[0]).fields, events[1..]);
    }
  }

  /** Under the hypotheses of `RunKeepsPhoneDigits`, every emitted record also has
      an all-digits phone. */
  lemma {:induction false} RunEmitsDigitPhones(f: Fields, events: seq<Event>)
    requires Text.AllDigits(f.phone)
    requires PrefillsDigitPhones(events)
    ensures forall i :: 0 <= i < |Run(f, events).emitted| && Run(f, events).emitted[i].Submitted? ==>
      Text.AllDigits(Run(f, events).emitted[i].contact.phone)
    decreases |events|
  {
    if events != [] {
      var o := Step(f, events[0]);
      assert Text.AllDigits(o.fields.phone);
      assert PrefillsDigitPhones(events[1..]) by {
        forall i | 0 <= i < |events[1..]|
          ensures events[1..][i] == events[i + 1]
        {
        }
      }
      RunEmitsDigitPhones(o.fields, events[1..]);
    }
  }

  /** Editing round trip: prefilling a complete contact and submitting unchanged
      hands back exactly that contact, once, and leaves the form blank. */
  lemma EditRoundTrip(f: Fields, c: Contact)
    requires c.name != "" && c.email != "" && c.phone != ""
    ensures Run(f, [EditingSet(Some(c)), SubmitPressed]) == Trace(Blank, [Submitted(c)])
  {
    var events := [EditingSet(Some(c)), SubmitPressed];
    var g := Prefill(f, Some(c));
    assert events[1..] == [SubmitPressed];
    assert events[1..][1..] == [];
    assert Run(g, events[1..]) == Trace(Blank, [Submitted(c)]);
  }

  /** Typing "12a3" keystroke by keystroke stores "123": the "12a" value is refused
      and the next keystroke extends the still-displayed "12". */
  lemma PhoneTypingDropsLetters()
    ensures Run(Blank, [PhoneTyped("1"), PhoneTyped("12"), PhoneTyped("12a"), PhoneTyped("123")]).fields.phone == "123"
  {
  }
}
