/** The `App` component: the contact collection and the state around it (the
    contact being edited, the warning message, the modal flag, the search term and
    the letter filter). The new lists are computed by pure functions; the class
    `ContactBook` holds the state and its handlers assign the new values. */
module App {
  import opened Contacts
  import opened Seqs
  import Text
  import ContactList

  const DuplicateMessage: string := "El contacto ya existe"

  /** The letter-filter value that lets every name through. */
  const AllLetters: string := "Todos"

  // ---------------------------------------------------------------------------
  // addContact

  /** `editingContact?.email ?? ""`: the email whose entries the duplicate scan skips. */
  function ExcludedEmail(editing: Option<Contact>): string {
    match editing
    case None => ""
    case Some(c) => c.email
  }

  /** The predicate given to `contacts.some(...)`. */
  predicate Clashes(c: Contact, candidate: Contact, excluded: string) {
    (c.email == candidate.email || c.name == candidate.name) && c.email != excluded
  }

  predicate HasDuplicate(contacts: seq<Contact>, candidate: Contact, excluded: string) {
    exists c :: c in contacts && Clashes(c, candidate, excluded)
  }

  /** `contacts.map(c => c.email === target ? candidate : c)`. */
  function ReplaceByEmail(contacts: seq<Contact>, target: string, candidate: Contact): (r: seq<Contact>)
    ensures |r| == |contacts|
    ensures forall i :: 0 <= i < |r| ==>
      r[i] == if contacts[i].email == target then candidate else contacts[i]
  {
    if contacts == [] then []
    else
      [if contacts[0].email == target then candidate else contacts[0]]
        + ReplaceByEmail(contacts[1..], target, candidate)
  }

  datatype AddOutcome = Rejected | Accepted(contacts: seq<Contact>)

  /** The list `addContact` computes: refused on a duplicate, otherwise an in-place
      replacement while editing and an append when not. */
  function AddResult(contacts: seq<Contact>, editing: Option<Contact>, candidate: Contact): (r: AddOutcome)
    ensures r.Accepted? ==> |r.contacts| == |contacts| + (if editing.Some? then 0 else 1)
    ensures r.Accepted? ==> forall c :: c in r.contacts ==> c == candidate || c in contacts
  {
    if HasDuplicate(contacts, candidate, ExcludedEmail(editing)) then Rejected
    else
      assert forall c :: c in contacts + [candidate] ==> c == candidate || c in contacts;
      match editing
      case Some(target) => Accepted(ReplaceByEmail(contacts, target.email, candidate))
      case None => Accepted(contacts + [candidate])
  }

  /** The collection invariant the duplicate scan is meant to keep: no two entries
      share an email or a name. */
  ghost predicate Unique(contacts: seq<Contact>) {
    forall i, j :: 0 <= i < j < |contacts| ==>
      contacts[i].email != contacts[j].email && contacts[i].name != contacts[j].name
  }

  /** No two entries share an email; implied by `Unique`. */
  ghost predicate DistinctEmails(contacts: seq<Contact>) {
    forall i, j :: 0 <= i < j < |contacts| ==> contacts[i].email != contacts[j].email
  }

  ghost predicate EmailsNonEmpty(contacts: seq<Contact>) {
    forall i :: 0 <= i < |contacts| ==> contacts[i].email != ""
  }

  /** The candidate is refused exactly when some entry outside the edit target
      shares its email or its name. */
  lemma AddRejectsExactlyDuplicates(contacts: seq<Contact>, editing: Option<Contact>, candidate: Contact)
    ensures AddResult(contacts, editing, candidate).Rejected? <==>
      exists i :: 0 <= i < |contacts| &&
        (contacts[i].email == candidate.email || contacts[i].name == candidate.name) &&
        contacts[i].email != ExcludedEmail(editing)
  {
    if AddResult(contacts, editing, candidate).Rejected? {
      var c :| c in contacts && Clashes(c, candidate, ExcludedEmail(editing));
      var i :| 0 <= i < |contacts| && contacts[i] == c;
    } else {
      forall i | 0 <= i < |contacts|
        ensures !Clashes(contacts[i], candidate, ExcludedEmail(editing))
      {
        assert contacts[i] in contacts;
      }
    }
  }

  /** Not editing, the excluded email is "", so entries with an empty email never
      count as duplicates: when every entry sharing the candidate's email or name has
      email "", the candidate is appended, even under a name already present. */
  lemma EmptyEmailNeverDuplicate(contacts: seq<Contact>, candidate: Contact)
    requires forall j :: 0 <= j < |contacts| && contacts[j].email != "" ==>
      contacts[j].email != candidate.email && contacts[j].name != candidate.name
    ensures AddResult(contacts, None, candidate) == Accepted(contacts + [candidate])
  {
  }

  /** Not editing and no duplicate: the candidate is appended, the old entries keep
      their positions, and the new entry is found by its email. */
  lemma AddAppends(contacts: seq<Contact>, candidate: Contact)
    requires !HasDuplicate(contacts, candidate, "")
    ensures var r := AddResult(contacts, None, candidate);
      && r.Accepted?
      && |r.contacts| == |contacts| + 1
      && (forall i :: 0 <= i < |contacts| ==> r.contacts[i] == contacts[i])
      && r.contacts[|contacts|] == candidate
      && (exists i :: 0 <= i < |r.contacts| && r.contacts[i].email == candidate.email)
  {
  }

  /** Editing and no duplicate: every entry with the edit target's email becomes the
      candidate, every other entry is untouched, and the length is preserved. */
  lemma AddReplaces(contacts: seq<Contact>, target: Contact, candidate: Contact)
    requires !HasDuplicate(contacts, candidate, target.email)
    ensures var r := AddResult(contacts, Some(target), candidate);
      && r.Accepted?
      && |r.contacts| == |contacts|
      && (forall i :: 0 <= i < |contacts| && contacts[i].email == target.email ==> r.contacts[i] == candidate)
      && (forall i :: 0 <= i < |contacts| && contacts[i].email != target.email ==> r.contacts[i] == contacts[i])
  {
  }

  /** Editing the entry at `k` and resubmitting it under the same email, with a name
      no other entry has, replaces that one entry in place. */
  lemma EditInPlace(contacts: seq<Contact>, k: nat, candidate: Contact)
    requires Unique(contacts)
    requires k < |contacts| && candidate.email == contacts[k].email
    requires forall j :: 0 <= j < |contacts| && j != k ==> contacts[j].name != candidate.name
    ensures AddResult(contacts, Some(contacts[k]), candidate) == Accepted(contacts[k := candidate])
  {
  }

  /** A successful add or update keeps the collection free of shared emails and
      names (and of empty emails), provided the candidate's email is not empty, as
      the forms guarantee. */
  lemma AddKeepsUnique(contacts: seq<Contact>, editing: Option<Contact>, candidate: Contact)
    requires Unique(contacts) && EmailsNonEmpty(contacts)
    requires candidate.email != ""
    requires AddResult(contacts, editing, candidate).Accepted?
    ensures Unique(AddResult(contacts, editing, candidate).contacts)
    ensures EmailsNonEmpty(AddResult(contacts, editing, candidate).contacts)
  {
    var excluded := ExcludedEmail(editing);
    var r := AddResult(contacts, editing, candidate).contacts;
    assert forall j :: 0 <= j < |contacts| ==> !Clashes(contacts[j], candidate, excluded) by {
      forall j | 0 <= j < |contacts|
        ensures !Clashes(contacts[j], candidate, excluded)
      {
        assert contacts[j] in contacts;
      }
    }
    match editing {
      case None =>
        assert r == contacts + [candidate];
      case Some(target) =>
        forall i, j | 0 <= i < j < |r|
          ensures r[i].email != r[j].email && r[i].name != r[j].name
        {
          if contacts[i].email == target.email && contacts[j].email == target.email {
            assert false;
          }
        }
    }
  }

  // ---------------------------------------------------------------------------
  // deleteContact

  function NotEmail(email: string): Contact -> bool {
    (c: Contact) => c.email != email
  }

  function HasEmail(email: string): Contact -> bool {
    (c: Contact) => c.email == email
  }

  /** `contacts.filter(c => c.email !== email)`. */
  function RemoveByEmail(contacts: seq<Contact>, email: string): (r: seq<Contact>)
    ensures forall c :: c in r <==> c in contacts && c.email != email
  {
    Keep(contacts, NotEmail(email))
  }

  /** The result keeps the input order, and its length drops by the number of
      entries carrying the email. */
  lemma RemoveKeepsOrder(contacts: seq<Contact>, email: string)
    ensures IsSubsequence(RemoveByEmail(contacts, email), contacts)
    ensures |RemoveByEmail(contacts, email)| == |contacts| - |Keep(contacts, HasEmail(email))|
  {
    KeepIsSubsequence(contacts, NotEmail(email));
    KeepPartition(contacts, NotEmail(email), HasEmail(email));
  }

  lemma RemoveAbsentIsNoOp(contacts: seq<Contact>, email: string)
    requires forall i :: 0 <= i < |contacts| ==> contacts[i].email != email
    ensures RemoveByEmail(contacts, email) == contacts
  {
    KeepAll(contacts, NotEmail(email));
  }

  lemma RemoveIdempotent(contacts: seq<Contact>, email: string)
    ensures RemoveByEmail(RemoveByEmail(contacts, email), email) == RemoveByEmail(contacts, email)
  {
    KeepIdempotent(contacts, NotEmail(email));
  }

  /** With pairwise distinct emails, deleting a known email removes exactly that
      one entry; names may repeat. */
  lemma RemoveKnownUnique(contacts: seq<Contact>, i: nat)
    requires DistinctEmails(contacts) && i < |contacts|
    ensures RemoveByEmail(contacts, contacts[i].email) == contacts[..i] + contacts[i + 1..]
    ensures |RemoveByEmail(contacts, contacts[i].email)| == |contacts| - 1
  {
    var p := NotEmail(contacts[i].email);
    forall j | 0 <= j < |contacts| && j != i
      ensures p(contacts[j])
    {
    }
    KeepDropsOne(contacts, p, i);
  }

  lemma RemoveKeepsUnique(contacts: seq<Contact>, email: string)
    requires Unique(contacts) && EmailsNonEmpty(contacts)
    ensures Unique(RemoveByEmail(contacts, email)) && EmailsNonEmpty(RemoveByEmail(contacts, email))
  {
    var r := RemoveByEmail(contacts, email);
    KeepIsSubsequence(contacts, NotEmail(email));
    SubsequenceKeepsUnique(r, contacts);
  }

  lemma {:induction false} SubsequenceKeepsUnique(a: seq<Contact>, b: seq<Contact>)
    requires IsSubsequence(a, b)
    requires Unique(b) && EmailsNonEmpty(b)
    ensures Unique(a) && EmailsNonEmpty(a)
    decreases |b|
  {
    if b != [] {
      var bt := b[1..];
      assert Unique(bt) && EmailsNonEmpty(bt) by {
        assert forall i :: 0 <= i < |bt| ==> bt[i] == b[i + 1];
      }
      if a != [] && a[0] == b[0] && IsSubsequence(a[1..], bt) {
        SubsequenceKeepsUnique(a[1..], bt);
        SubsequenceMembers(a[1..], bt);
        forall i, j | 0 <= i < j < |a|
          ensures a[i].email != a[j].email && a[i].name != a[j].name
        {
          if i == 0 {
            assert a[j] == a[1..][j - 1];
            assert a[j] in a[1..];
            assert a[j] in bt;
            var k :| 0 <= k < |bt| && bt[k] == a[j];
            assert b[k + 1] == a[j];
          } else {
            assert a[i] == a[1..][i - 1] && a[j] == a[1..][j - 1];
          }
        }
        forall i | 0 <= i < |a|
          ensures a[i].email != ""
        {
          if i > 0 {
            assert a[i] == a[1..][i - 1];
          }
        }
      } else {
        SubsequenceKeepsUnique(a, bt);
      }
    }
  }

  lemma {:induction false} SubsequenceMembers(a: seq<Contact>, b: seq<Contact>)
    requires IsSubsequence(a, b)
    ensures forall x :: x in a ==> x in b
    decreases |b|
  {
    if b != [] {
      if a != [] && a[0] == b[0] && IsSubsequence(a[1..], b[1..]) {
        SubsequenceMembers(a[1..], b[1..]);
        assert forall x :: x in a ==> x == a[0] || x in a[1..];
      } else {
        SubsequenceMembers(a, b[1..]);
      }
    }
  }

  // ---------------------------------------------------------------------------
  // filteredContacts and alphabet

  /** The test applied to each contact by `filteredContacts`. */
  predicate Matches(c: Contact, term: string, letter: string) {
    && Text.Contains(Text.ToLower(c.name), Text.ToLower(term))
    && (letter == AllLetters || Text.StartsWith(Text.ToLower(c.name), Text.ToLower(letter)))
  }

  function MatchesFilter(term: string, letter: string): Contact -> bool {
    (c: Contact) => Matches(c, term, letter)
  }

  function FailsFilter(term: string, letter: string): Contact -> bool {
    (c: Contact) => !Matches(c, term, letter)
  }

  /** The view is an order-preserving subsequence of the list that holds exactly the
      matching contacts, and its length is the list's minus the entries that do not
      match: together these fix it as the `filter` of the list. */
  function FilterContacts(contacts: seq<Contact>, term: string, letter: string): (r: seq<Contact>)
    ensures forall c :: c in r <==> c in contacts && Matches(c, term, letter)
    ensures |r| + |Keep(contacts, FailsFilter(term, letter))| == |contacts|
    ensures IsSubsequence(r, contacts)
  {
    KeepPartition(contacts, MatchesFilter(term, letter), FailsFilter(term, letter));
    KeepIsSubsequence(contacts, MatchesFilter(term, letter));
    Keep(contacts, MatchesFilter(term, letter))
  }

  /** An empty search with the "Todos" filter shows every contact. */
  lemma FilterEverything(contacts: seq<Contact>)
    ensures FilterContacts(contacts, "", AllLetters) == contacts
  {
    forall i | 0 <= i < |contacts|
      ensures Matches(contacts[i], "", AllLetters)
    {
      Text.ContainsEmpty(Text.ToLower(contacts[i].name));
    }
    KeepAll(contacts, MatchesFilter("", AllLetters));
  }

  /** Neither the case of the search term nor that of the name changes the outcome. */
  lemma SearchIgnoresCase(c: Contact, term: string, letter: string)
    ensures Matches(c, term, letter) <==> Matches(c, Text.ToLower(term), letter)
    ensures Matches(c, term, letter) <==> Matches(c.(name := Text.ToLower(c.name)), term, letter)
  {
    Text.ToLowerIdempotent(term);
    Text.ToLowerIdempotent(c.name);
  }

  lemma SearchExampleAnn()
    ensures Matches(Contact("Anna Smith", "anna@example.com", "1"), "ann", AllLetters)
    ensures !Matches(Contact("Bob Jones", "bob@example.com", "2"), "ann", AllLetters)
  {
    var anna := Text.ToLower("Anna Smith");
    assert Text.ToLower("ann") == "ann";
    assert anna[0..3] == "ann";
    assert Text.OccursAt(anna, "ann", 0);
    var bob := Text.ToLower("Bob Jones");
    assert bob == "bob jones";
    forall i | 0 <= i <= |bob| - 3
      ensures !Text.OccursAt(bob, "ann", i)
    {
      assert bob[i..i + 3][0] == bob[i];
      assert bob[i..i + 3][1] == bob[i + 1];
      assert bob[i..i + 3][2] == bob[i + 2];
    }
  }

  lemma LetterFilter()
    ensures Matches(Contact("Bob Jones", "bob@example.com", "2"), "", "B")
    ensures !Matches(Contact("Anna Smith", "anna@example.com", "1"), "", "B")
  {
    Text.ContainsEmpty(Text.ToLower("Bob Jones"));
    assert Text.ToLower("B") == "b";
    assert Text.ToLower("Bob Jones")[..1] == "b";
    assert Text.ToLower("Anna Smith")[..1] == "a";
  }

  /** The letter buttons: "A" to "Z", each a one-character string, in order. */
  function Alphabet(): (r: seq<string>)
    ensures |r| == 26
    ensures forall i :: 0 <= i < |r| ==> |r[i]| == 1 && 'A' <= r[i][0] <= 'Z'
    ensures forall i, j :: 0 <= i < j < |r| ==> r[i][0] < r[j][0]
    ensures forall c :: 'A' <= c <= 'Z' ==> [c] in r
  {
    var r := seq(26, i requires 0 <= i < 26 => [(65 + i) as char]);
    assert forall c :: 'A' <= c <= 'Z' ==> r[c as int - 65] == [c];
    r
  }

  // ---------------------------------------------------------------------------
  // The list view's buttons, wired to deleteContact and startEditing

  /** The "Eliminar" button of any displayed item deletes that item from the
      collection; with distinct emails it deletes only that item. */
  lemma DeleteFromRow(contacts: seq<Contact>, term: string, letter: string,
                      le: (string, string) -> bool, i: nat)
    requires i < |ContactList.Render(FilterContacts(contacts, term, letter), le)|
    ensures var row := ContactList.Render(FilterContacts(contacts, term, letter), le)[i];
      && row.shown in contacts
      && row.shown !in RemoveByEmail(contacts, row.deleteArgument)
      && (DistinctEmails(contacts) ==> |RemoveByEmail(contacts, row.deleteArgument)| == |contacts| - 1)
  {
    var row := ContactList.Render(FilterContacts(contacts, term, letter), le)[i];
    if DistinctEmails(contacts) {
      var k :| 0 <= k < |contacts| && contacts[k] == row.shown;
      RemoveKnownUnique(contacts, k);
    }
  }

  // ---------------------------------------------------------------------------
  // The component's state

  class ContactBook {
    var contacts: seq<Contact>
    var editingContact: Option<Contact>
    var searchTerm: string
    var filterLetter: string
    var message: Option<string>
    var showModal: bool

    ghost predicate Valid()
      reads this
    {
      Unique(contacts) && EmailsNonEmpty(contacts)
    }

    /** `saved` is the list read back from storage at start-up. */
    constructor (saved: seq<Contact>)
      ensures contacts == saved && editingContact == None && message == None && !showModal
      ensures searchTerm == "" && filterLetter == AllLetters
    {
      contacts := saved;
      editingContact := None;
      searchTerm := "";
      filterLetter := AllLetters;
      message := None;
      showModal := false;
    }

    /** `addContact`: on a duplicate only the warning is set; otherwise the new list
        is stored, the edit target cleared and the modal closed. */
    method AddContact(contact: Contact)
      modifies this`contacts, this`editingContact, this`message, this`showModal
      ensures AddResult(old(contacts), old(editingContact), contact).Rejected? ==>
        && contacts == old(contacts) && editingContact == old(editingContact)
        && showModal == old(showModal) && message == Some(DuplicateMessage)
      ensures AddResult(old(contacts), old(editingContact), contact).Accepted? ==>
        && contacts == AddResult(old(contacts), old(editingContact), contact).contacts
        && editingContact == None && !showModal && message == old(message)
      ensures old(Valid()) && contact.email != "" ==> Valid()
    {
      var found := HasDuplicate(contacts, contact, ExcludedEmail(editingContact));
      if found {
        message := Some(DuplicateMessage);
        return;
      }
      if editingContact.Some? {
        contacts := ReplaceByEmail(contacts, editingContact.value.email, contact);
        editingContact := None;
      } else {
        contacts := contacts + [contact];
      }
      showModal := false;
      if old(Valid()) && contact.email != "" {
        AddKeepsUnique(old(contacts), old(editingContact), contact);
      }
    }

    method DeleteContact(email: string)
      modifies this`contacts
      ensures contacts == RemoveByEmail(old(contacts), email)
      ensures old(Valid()) ==> Valid()
    {
      contacts := RemoveByEmail(contacts, email);
      if old(Valid()) {
        RemoveKeepsUnique(old(contacts), email);
      }
    }

    method StartEditing(contact: Contact)
      modifies this`editingContact, this`showModal
      ensures editingContact == Some(contact) && showModal
    {
      editingContact := Some(contact);
      showModal := true;
    }

    /** The "Agregar contacto" button: no edit target, modal open. */
    method StartAdding()
      modifies this`editingContact, this`showModal
      ensures editingContact == None && showModal
    {
      editingContact := None;
      showModal := true;
    }

    /** The modal's `onClose`: only the modal flag changes; the edit target stays. */
    method CloseModal()
      modifies this`showModal
      ensures !showModal
    {
      showModal := false;
    }

    method SetSearchTerm(term: string)
      modifies this`searchTerm
      ensures searchTerm == term
    {
      searchTerm := term;
    }

    method SetFilterLetter(letter: string)
      modifies this`filterLetter
      ensures filterLetter == letter
    {
      filterLetter := letter;
    }

    /** `filteredContacts`, recomputed from the current state. */
    function FilteredContacts(): (r: seq<Contact>)
      reads this
      ensures forall c :: c in r <==> c in contacts && Matches(c, searchTerm, filterLetter)
      ensures |r| + |Keep(contacts, FailsFilter(searchTerm, filterLetter))| == |contacts|
      ensures IsSubsequence(r, contacts)
    {
      FilterContacts(contacts, searchTerm, filterLetter)
    }
  }
}
