/** The `ModalForm` component: three field states updated by its handlers. Every
    handler is tied to the transition `Form.Step` for the user event it reacts to,
    so the lemmas proved about `Form.Step` and `Form.Run` hold of this form. */
module ModalFormView {
  import opened Contacts
  import opened Form
  import Text

  class ModalForm {
    var name: string
    var email: string
    var phone: string

    function Current(): Fields
      reads this
    {
      Fields(name, email, phone)
    }

    /** Mounting: the fields start empty and the prefill effect runs once with the
        initial `editing` prop. */
    constructor (editing: Option<Contact>)
      ensures Current() == Step(Blank, EditingSet(editing)).fields
    {
      name, email, phone := "", "", "";
      if editing.Some? {
        name, email, phone := editing.value.name, editing.value.email, editing.value.phone;
      }
    }

    /** The prefill effect, re-run when the `editing` prop changes. */
    method OnEditingChange(editing: Option<Contact>)
      modifies this
      ensures Outcome(Current(), Silent) == Step(old(Current()), EditingSet(editing))
    {
      if editing.Some? {
        name := editing.value.name;
        email := editing.value.email;
        phone := editing.value.phone;
      }
    }

    method OnNameChange(value: string)
      modifies this
      ensures Outcome(Current(), Silent) == Step(old(Current()), NameTyped(value))
    {
      name := value;
    }

    method OnEmailChange(value: string)
      modifies this
      ensures Outcome(Current(), Silent) == Step(old(Current()), EmailTyped(value))
    {
      email := value;
    }

    method HandlePhoneChange(value: string)
      modifies this
      ensures Outcome(Current(), Silent) == Step(old(Current()), PhoneTyped(value))
    {
      if Text.AllDigits(value) {
        phone := value;
      }
    }

    /** Returns `Submitted(c)` when `onSubmit(c)` is invoked and `Silent` on the alert path. */
    method HandleSubmit() returns (emitted: Emit)
      modifies this
      ensures Outcome(Current(), emitted) == Step(old(Current()), SubmitPressed)
    {
      if name == "" || email == "" || phone == "" {
        emitted := Silent;
        return;
      }
      emitted := Submitted(Contact(name, email, phone));
      name := "";
      email := "";
      phone := "";
    }

    /** Both the header's close button and "Cancelar" call `onClose` and nothing else. */
    method OnClose() returns (emitted: Emit)
      ensures Outcome(Current(), emitted) == Step(Current(), ClosePressed)
    {
      emitted := Closed;
    }
  }
}
