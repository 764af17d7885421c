/** The `ContactList` component: a copy of its `contacts` prop sorted by name
    (`[...contacts].sort((a, b) => a.name.localeCompare(b.name))`) and one row per
    contact whose buttons call `onEdit` and `onDelete`.
    `localeCompare` is left abstract: `le(a, b)` stands for
    `a.localeCompare(b) <= 0` and is only assumed to be a total preorder.
    `Array.prototype.sort` is stable, which the insertion sort below also is. */
module ContactList {
  import opened Contacts
  import opened Seqs

  ghost predicate TotalPreorder(le: (string, string) -> bool) {
    && (forall a, b :: le(a, b) || le(b, a))
    && (forall a, b, c :: le(a, b) && le(b, c) ==> le(a, c))
  }

  ghost predicate SortedByName(s: seq<Contact>, le: (string, string) -> bool) {
    forall i, j :: 0 <= i < j < |s| ==> le(s[i].name, s[j].name)
  }

  /** Names `le` cannot tell apart from `n`. */
  function SameNameAs(le: (string, string) -> bool, n: string): Contact -> bool {
    (c: Contact) => le(c.name, n) && le(n, c.name)
  }

  /** Puts `x` in front of the first element whose name is not before `x`'s. */
  function Insert(x: Contact, t: seq<Contact>, le: (string, string) -> bool): (r: seq<Contact>)
    ensures |r| == |t| + 1
    ensures multiset(r) == multiset(t) + multiset{x}
  {
    if t == [] then [x]
    else if le(x.name, t[0].name) then [x] + t
    else
      assert t == [t[0]] + t[1..];
      [t[0]] + Insert(x, t[1..], le)
  }

  /** The `sorted` copy: a fresh sequence, so the prop itself is never changed. */
  function SortByName(s: seq<Contact>, le: (string, string) -> bool): (r: seq<Contact>)
    ensures |r| == |s|
    ensures multiset(r) == multiset(s)
  {
    if s == [] then []
    else
      assert s == [s[0]] + s[1..];
      Insert(s[0], SortByName(s[1..], le), le)
  }

  lemma {:induction false} InsertKeepsSorted(x: Contact, t: seq<Contact>, le: (string, string) -> bool)
    requires TotalPreorder(le)
    requires SortedByName(t, le)
    ensures SortedByName(Insert(x, t, le), le)
  {
    if t == [] {
    } else if le(x.name, t[0].name) {
      var r := [x] + t;
      forall i, j | 0 <= i < j < |r|
        ensures le(r[i].name, r[j].name)
      {
        if i == 0 && j > 1 {
          assert le(t[0].name, t[j - 1].name);
        }
      }
    } else {
      var tail := t[1..];
      assert SortedByName(tail, le) by {
        forall i, j | 0 <= i < j < |tail|
          ensures le(tail[i].name, tail[j].name)
        {
          assert tail[i] == t[i + 1] && tail[j] == t[j + 1];
        }
      }
      InsertKeepsSorted(x, tail, le);
      var rest := Insert(x, tail, le);
      var r := [t[0]] + rest;
      assert le(t[0].name, x.name);
      forall k | 0 <= k < |rest|
        ensures le(t[0].name, rest[k].name)
      {
        assert rest[k] in multiset(rest);
        if rest[k] != x {
          assert rest[k] in multiset(tail);
          var m :| 0 <= m < |tail| && tail[m] == rest[k];
          assert t[m + 1] == rest[k];
        }
      }
      forall i, j | 0 <= i < j < |r|
        ensures le(r[i].name, r[j].name)
      {
        if i > 0 {
          assert r[i] == rest[i - 1] && r[j] == rest[j - 1];
        } else {
          assert r[j] == rest[j - 1];
        }
      }
    }
  }

  /** The displayed order is non-decreasing by name. */
  lemma {:induction false} SortByNameIsSorted(s: seq<Contact>, le: (string, string) -> bool)
    requires TotalPreorder(le)
    ensures SortedByName(SortByName(s, le), le)
  {
    if s != [] {
      SortByNameIsSorted(s[1..], le);
      InsertKeepsSorted(s[0], SortByName(s[1..], le), le);
    }
  }

  /** Inserting `x` keeps the contacts of every name class in the order of `[x] + t`. */
  lemma {:induction false} InsertIsStable(x: Contact, t: seq<Contact>, le: (string, string) -> bool, n: string)
    requires TotalPreorder(le)
    ensures Keep(Insert(x, t, le), SameNameAs(le, n)) == Keep([x] + t, SameNameAs(le, n))
  {
    var q := SameNameAs(le, n);
    if t != [] && !le(x.name, t[0].name) {
      var tail := t[1..];
      InsertIsStable(x, tail, le, n);
      var rest := Insert(x, tail, le);
      assert ([t[0]] + rest)[1..] == rest;
      assert ([x] + tail)[1..] == tail;
      assert ([x] + t)[1..] == t;
      assert t[1..] == tail;
      assert !(q(x) && q(t[0]));
    }
  }

  /** Contacts whose names compare equal keep their input order. */
  lemma {:induction false} SortByNameIsStable(s: seq<Contact>, le: (string, string) -> bool, n: string)
    requires TotalPreorder(le)
    ensures Keep(SortByName(s, le), SameNameAs(le, n)) == Keep(s, SameNameAs(le, n))
  {
    if s != [] {
      SortByNameIsStable(s[1..], le, n);
      InsertIsStable(s[0], SortByName(s[1..], le), le, n);
      var q := SameNameAs(le, n);
      var sorted := SortByName(s[1..], le);
      assert ([s[0]] + sorted)[1..] == sorted;
      assert s == [s[0]] + s[1..];
    }
  }

  /** One rendered list item: its React key, the contact shown, and the arguments
      its "Editar" and "Eliminar" buttons pass to `onEdit` and `onDelete`. */
  datatype Row = Row(key: string, shown: Contact, editArgument: Contact, deleteArgument: string)

  function RowFor(c: Contact): Row {
    Row(c.email, c, c, c.email)
  }

  /** `sorted.map(...)`: the items in display order. */
  function Render(contacts: seq<Contact>, le: (string, string) -> bool): (rows: seq<Row>)
    ensures |rows| == |contacts|
    ensures forall i :: 0 <= i < |rows| ==> rows[i].shown == SortByName(contacts, le)[i]
    ensures forall i :: 0 <= i < |rows| ==> rows[i].shown in contacts
    ensures forall i :: 0 <= i < |rows| ==>
      rows[i].key == rows[i].shown.email &&
      rows[i].editArgument == rows[i].shown &&
      rows[i].deleteArgument == rows[i].shown.email
  {
    var sorted := SortByName(contacts, le);
    assert forall i :: 0 <= i < |sorted| ==> sorted[i] in multiset(sorted);
    seq(|sorted|, i requires 0 <= i < |sorted| => RowFor(sorted[i]))
  }
}
