# Contact manager: a verified model of the contact collection and its forms

This project models the logic of a small browser contact manager ("Agenda de
Contactos"). Users add, edit, delete, search and letter-filter contacts. Each
contact has a name, an email and a phone. The model covers four parts:

- the `App` component's state and handlers (`app.dfy`): the duplicate check
  and upsert of `addContact`, `deleteContact`, `startEditing`, the "Agregar
  contacto" reset, the modal's close, the search and letter setters, the
  derived `filteredContacts` view and the `alphabet` of letter buttons;
- the field state machine shared by the two forms (`form.dfy`), and the two
  components as classes whose handlers are tied to it: `ModalForm`
  (`modal_form.dfy`) and `ContactForm` (`contact_form.dfy`);
- the `ContactList` projection (`contact_list.dfy`): a stable sorted copy by
  name and one row per contact with its edit and delete arguments;
- support modules: `Contact` and `Option` (`contacts.dfy`), the ASCII string
  built-ins (`text.dfy`), and `filter` on sequences with its lemmas (`seqs.dfy`).

State that the source changes in place is a class. `App.ContactBook` holds
`contacts`, `editingContact`, `message`, `showModal`, `searchTerm` and
`filterLetter`. `ModalFormView.ModalForm` and `ContactFormView.ContactForm`
hold `name`, `email` and `phone`. Each state-changing handler is a method with a
`modifies` clause. Its `ensures` either ties the new state to a pure function
of the old state (`App.AddResult`, `App.RemoveByEmail` or `Form.Step`) or gives
the new values directly. `ModalForm.OnClose` changes nothing and has no
`modifies` clause. The lemmas state what the
source promises about those functions.

A callback given to a form (`onSubmit`, `onAdd`, `onClose`) is modelled as the
`Form.Emit` value the handler returns. `Silent` means no callback was invoked:
this is the alert path and plain typing. `Submitted(c)` means the callback got
`c`. `Closed` is the close intent. `Form.Run` folds a sequence of user events
over the fields and collects every callback invocation in order.

The ordering of `localeCompare` is abstract. The parameter `le(a, b)` stands
for `a.localeCompare(b) <= 0`. It is assumed only to be a total preorder.
Lowercasing, `includes` and `startsWith` are modelled on ASCII.

Notes on the code's behaviour that the model keeps:

- `deleteContact` filters out every entry with the given email
  (src/App.tsx:73), not just the first one. With pairwise distinct emails only
  one entry goes, even when names repeat (`App.RemoveKnownUnique`).
- The modal's `onClose` only hides the modal (src/App.tsx:159). The edit
  target stays set until a successful update clears it (src/App.tsx:61) or the
  "Agregar contacto" button resets it (src/App.tsx:118).
- When nothing is being edited, the duplicate scan compares against `""`
  (src/App.tsx:46). An entry whose email is `""` can therefore never block a
  candidate, even one with the same name (`App.EmptyEmailNeverDuplicate`). So
  the collection invariant is proved only for lists whose emails are all
  non-empty (`App.AddKeepsUnique`). Both forms guarantee this for every
  record they emit, whatever the events (`Form.RunEmitsOnlyCompleteRecords`).

## Model

| member | source | states |
|---|---|---|
| `Seqs.Keep` | src/App.tsx:73 | `filter`: the result is no longer than the input and holds exactly the input's elements that pass the predicate |
| `App.ExcludedEmail` | src/App.tsx:46 | `editingContact?.email ?? ""`; what it means for the scan is stated by `App.AddRejectsExactlyDuplicates` and `App.EmptyEmailNeverDuplicate` |
| `App.Clashes` | src/App.tsx:44-46 | the predicate inside `some`; stated by `App.AddRejectsExactlyDuplicates` |
| `App.HasDuplicate` | src/App.tsx:43-47 | `contacts.some(...)`; `App.AddRejectsExactlyDuplicates` states it holds exactly when some entry clashes |
| `App.AddResult` | src/App.tsx:41-69 | an accepted add grows the list by one when not editing and keeps its length when editing, and holds only old entries and the candidate; `App.AddRejectsExactlyDuplicates`, `App.AddAppends`, `App.AddReplaces`, `App.EditInPlace` and `App.AddKeepsUnique` state the rest |
| `App.ReplaceByEmail` | src/App.tsx:58-60 | the `map` keeps the length; each entry with the target email becomes the candidate and every other entry is kept at its position |
| `App.AddRejectsExactlyDuplicates` | src/App.tsx:43-53 | the add is refused if and only if some entry shares the candidate's email or name and its email is not the excluded one (the edit target's email, or "" when not editing) |
| `App.EmptyEmailNeverDuplicate` | src/App.tsx:46 | when not editing and every entry sharing the candidate's email or name has email "", the candidate is appended to the whole list |
| `App.AddAppends` | src/App.tsx:64 | not editing and no duplicate: length grows by one, every old entry keeps its position, the candidate is last and can be found by its email |
| `App.AddReplaces` | src/App.tsx:57-61 | editing and no duplicate: the length is kept, entries with the target's email become the candidate, all others are untouched |
| `App.EditInPlace` | src/App.tsx:57-61 | in a unique collection, re-submitting entry k under its own email with a name free elsewhere replaces exactly entry k |
| `App.AddKeepsUnique` | src/App.tsx:41-69 | an accepted add or update of a candidate with a non-empty email keeps names and emails pairwise distinct and emails non-empty |
| `App.RemoveByEmail` | src/App.tsx:72-74 | the result holds exactly the entries whose email differs from the deleted one |
| `App.RemoveKeepsOrder` | src/App.tsx:73 | the result is an order-preserving subsequence, shorter by the number of entries carrying that email |
| `App.RemoveAbsentIsNoOp` | src/App.tsx:73 | deleting an email no entry has changes nothing |
| `App.RemoveIdempotent` | src/App.tsx:73 | deleting the same email twice equals deleting it once |
| `App.RemoveKnownUnique` | src/App.tsx:73 | with pairwise distinct emails (names may repeat), deleting entry i's email removes exactly entry i, so the length drops by one |
| `App.RemoveKeepsUnique` | src/App.tsx:73 | deleting keeps names and emails pairwise distinct and emails non-empty |
| `App.Matches` | src/App.tsx:84-90 | the per-contact test of `filteredContacts`; stated by `App.FilterEverything`, `App.SearchIgnoresCase`, `App.SearchExampleAnn` and `App.LetterFilter` |
| `App.FilterContacts` | src/App.tsx:83-91 | the view holds exactly the contacts whose lowercased name contains the lowercased term and, unless the filter is "Todos", starts with the lowercased letter; its length is the list's minus the non-matching entries, and it is an order-preserving subsequence of the list, which together fix it as the `filter` result |
| `App.FilterEverything` | src/App.tsx:83-91 | an empty term with "Todos" shows every contact, in order |
| `App.SearchIgnoresCase` | src/App.tsx:84-86 | for every contact, term and letter, lowercasing the term or the contact's name beforehand does not change whether it matches |
| `App.SearchExampleAnn` | src/App.tsx:84-86 | the term "ann" matches "Anna Smith" and not "Bob Jones" |
| `App.LetterFilter` | src/App.tsx:87-89 | the letter "B" matches "Bob Jones" and not "Anna Smith" |
| `App.Alphabet` | src/App.tsx:94-96 | 26 one-character strings, all uppercase 'A'..'Z', strictly increasing, every letter present |
| `App.DeleteFromRow` | src/App.tsx:150-154 | for any list, the delete button of a displayed item removes that item from the collection; with pairwise distinct emails the list shrinks by exactly one |
| `App.ContactBook.constructor` | src/App.tsx:15-33 | the loaded list, no edit target, no message, modal closed, empty search, filter "Todos" |
| `App.ContactBook.AddContact` | src/App.tsx:41-69 | on a duplicate only the warning "El contacto ya existe" is set; otherwise the list becomes `AddResult`'s, the edit target is cleared, the modal closes and the message is kept; the collection invariant is preserved for a non-empty email |
| `App.ContactBook.DeleteContact` | src/App.tsx:72-74 | the list becomes `RemoveByEmail` of the old one and the invariant is preserved; nothing else changes |
| `App.ContactBook.StartEditing` | src/App.tsx:77-80 | the edit target is the given contact and the modal is open |
| `App.ContactBook.StartAdding` | src/App.tsx:117-120 | no edit target and the modal is open |
| `App.ContactBook.CloseModal` | src/App.tsx:159 | only the modal flag changes, to closed |
| `App.ContactBook.SetSearchTerm` | src/App.tsx:111 | only the search term changes |
| `App.ContactBook.SetFilterLetter` | src/App.tsx:142 | only the letter filter changes |
| `App.ContactBook.FilteredContacts` | src/App.tsx:83-91 | the view of the current state: exactly the matching contacts with their multiplicity (length is the list's minus the non-matching entries), as an order-preserving subsequence |
| `Form.ChangePhone` | src/components/ModalForm.tsx:29-32 | `handlePhoneChange`; stated by `Form.PhoneChangeTakesOnlyDigits` and `Form.RunKeepsPhoneDigits` |
| `Form.Submit` | src/components/ModalForm.tsx:35-51 | `handleSubmit`; stated by `Form.SubmitRefusesIncomplete`, `Form.SubmitEmitsAndClears` and `Form.EditRoundTrip` |
| `Form.Prefill` | src/components/ModalForm.tsx:20-26 | the prefill effect (also src/components/ContactForm.tsx:19-26); stated by `Form.PrefillLoadsOrKeeps` |
| `Form.Step` | src/components/ModalForm.tsx:20-105 | one handler of either form as a transition on the fields plus the callback it invokes; stated by the `Form` lemmas in this table |
| `Form.Run` | src/components/ModalForm.tsx:20-105 | a sequence of handler calls, collecting every callback invocation in order; stated by `Form.RunKeepsPhoneDigits`, `Form.RunEmitsOnlyCompleteRecords`, `Form.RunEmitsDigitPhones`, `Form.EditRoundTrip`, `Form.PhoneTypingDropsLetters` |
| `Form.PhoneChangeTakesOnlyDigits` | src/components/ModalForm.tsx:29-32 | a phone value is taken when every character is a digit (including the empty value); otherwise nothing changes; name and email never change |
| `Form.SubmitRefusesIncomplete` | src/components/ModalForm.tsx:39-42 | with any empty field, no callback is invoked and the fields are unchanged |
| `Form.SubmitEmitsAndClears` | src/components/ModalForm.tsx:45-50 | with all fields non-empty, the callback gets `{name, email, phone}` as they stood and all three fields become "" |
| `Form.PrefillLoadsOrKeeps` | src/components/ModalForm.tsx:20-26 | a non-null `editing` loads its three fields; a null one leaves the fields as they were |
| `Form.CloseChangesNothing` | src/components/ModalForm.tsx:71 | closing emits the close intent (so never a submission) and changes no field |
| `Form.RunKeepsPhoneDigits` | src/components/ModalForm.tsx:20-32 | over any sequence of events, the phone stays all digits if it starts so and every prefilled contact's phone is all digits |
| `Form.RunEmitsOnlyCompleteRecords` | src/components/ModalForm.tsx:39-45 | over any sequence of events from any fields, every record a form emits has three non-empty fields |
| `Form.RunEmitsDigitPhones` | src/components/ModalForm.tsx:20-45 | if the phone starts all digits and every prefilled contact's phone is all digits, every emitted record has an all-digits phone |
| `Form.EditRoundTrip` | src/components/ModalForm.tsx:20-50 | prefilling a complete contact and submitting emits exactly that contact once and leaves the form blank |
| `Form.PhoneTypingDropsLetters` | src/components/ModalForm.tsx:29-32 | typing "12a3" keystroke by keystroke stores "123" |
| `ModalFormView.ModalForm.constructor` | src/components/ModalForm.tsx:15-26 | mounting starts from three empty fields and runs the prefill with the initial `editing` |
| `ModalFormView.ModalForm.OnEditingChange` | src/components/ModalForm.tsx:20-26 | the fields become the prefill transition of the old fields |
| `ModalFormView.ModalForm.OnNameChange` | src/components/ModalForm.tsx:81 | only the name changes, to the typed value |
| `ModalFormView.ModalForm.OnEmailChange` | src/components/ModalForm.tsx:88 | only the email changes, to the typed value |
| `ModalFormView.ModalForm.HandlePhoneChange` | src/components/ModalForm.tsx:29-32 | the fields become the digit-checked phone transition of the old fields |
| `ModalFormView.ModalForm.HandleSubmit` | src/components/ModalForm.tsx:35-51 | the new fields and the emitted value are the submit transition of the old fields |
| `ModalFormView.ModalForm.OnClose` | src/components/ModalForm.tsx:105 | emits the close intent and changes no field |
| `ContactFormView.ContactForm.constructor` | src/components/ContactForm.tsx:14-26 | mounting starts from three empty fields and runs the prefill with the initial `editing` |
| `ContactFormView.ContactForm.OnEditingChange` | src/components/ContactForm.tsx:19-26 | the fields become the prefill transition of the old fields |
| `ContactFormView.ContactForm.OnNameChange` | src/components/ContactForm.tsx:63 | only the name changes, to the typed value |
| `ContactFormView.ContactForm.OnEmailChange` | src/components/ContactForm.tsx:74 | only the email changes, to the typed value |
| `ContactFormView.ContactForm.HandlePhoneChange` | src/components/ContactForm.tsx:29-34 | the fields become the digit-checked phone transition of the old fields |
| `ContactFormView.ContactForm.HandleSubmit` | src/components/ContactForm.tsx:37-53 | the new fields and the value passed to `onAdd` are the submit transition of the old fields |
| `ContactList.Insert` | src/components/ContactList.tsx:14 | inserting adds exactly one element: the length grows by one and the multiset gains the inserted contact |
| `ContactList.SortByName` | src/components/ContactList.tsx:14 | the sorted copy is a permutation of the input: same length, same multiset |
| `ContactList.SortByNameIsSorted` | src/components/ContactList.tsx:14 | for a total preorder, the sorted copy is non-decreasing by name |
| `ContactList.SortByNameIsStable` | src/components/ContactList.tsx:14 | contacts whose names compare equal keep their input relative order |
| `ContactList.Render` | src/components/ContactList.tsx:19-51 | one row per contact in sorted order; each row's key is its email, its edit button passes the contact unchanged and its delete button passes its email |
| `ContactList.RowFor` | src/components/ContactList.tsx:19-51 | one list item for a contact; its key, edit argument and delete argument are stated by `ContactList.Render` |
| `Text.ToLower` | src/App.tsx:85 | `toLowerCase` on ASCII: same length, each character lowercased |
| `Text.ToLowerIdempotent` | src/App.tsx:84-86 | lowercasing an already lowercased string changes nothing, so the term and the name are each lowercased exactly once in effect |
| `Text.Contains` | src/App.tsx:86 | `includes`; `Text.ContainsEmpty` states the empty term is always included |
| `Text.StartsWith` | src/App.tsx:89 | `startsWith`; used by `App.Matches`, stated by `App.LetterFilter` |
| `Text.AllDigits` | src/components/ModalForm.tsx:31 | the `/^\d*$/` test; stated by `Form.PhoneChangeTakesOnlyDigits` |
| `Text.ContainsEmpty` | src/App.tsx:86 | every string includes the empty string, so an empty search term matches every name |

## Left out

- Reading the list from local storage with `JSON.parse`, and writing it back after every change (src/App.tsx:15-18, 36-38): browser I/O and serialisation. The loaded list is the constructor's parameter.
- The timer that clears the warning after 3 seconds (src/App.tsx:52): time and asynchrony. Only the setting of the message is modelled.
- `alert(...)` in both forms: a UI side effect. It is modelled as the refused submit (`Silent`).
- JSX rendering, Bootstrap classes, the modal markup and the highlighting of the selected letter button (src/App.tsx:98-165).
- The avatar image URL built with `encodeURIComponent` for an external image service (src/components/ContactList.tsx:27-29).
- Locale-aware comparison and Unicode case mapping: `localeCompare` is an abstract total preorder and lowercasing is ASCII only.
- React's scheduling and batching of state setters and effects: each handler is one atomic transition on the current state.
- Mounting and unmounting the modal (`showModal && <ModalForm/>`) is not a member; a fresh `ModalForm` object stands for a new mount.
- ContactList.SortByName: the input is not changed because sequences are values; no member states this separately. The engine's own sort algorithm is replaced by a stable insertion sort with the same result for a consistent comparator. For an inconsistent comparator, JavaScript leaves the order implementation-defined; that case is not modelled.
