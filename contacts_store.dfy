/** The `contacts` table of the CRM API (exam-solutions/assignment5/database.py) and the
    `ContactsDatabase` operations over it. The table is a sequence of rows in rowid order; `nextId`
    is the AUTOINCREMENT counter, and the ghost set `issued` remembers every id ever handed out. */
module ContactsStore {
  import opened Wrappers
  import opened Text

  /** One row: `id INTEGER PRIMARY KEY AUTOINCREMENT, name TEXT NOT NULL, email TEXT UNIQUE NOT NULL,
      phone TEXT, company TEXT, created_at TIMESTAMP`. */
  datatype Contact = Contact(id: int, name: string, email: string, phone: Option<string>, company: Option<string>, createdAt: string)

  /** The `contact_data` dictionary that create and update write: `name` and `email` are required keys,
      `phone` and `company` are read with `.get` and may be `None`. */
  datatype ContactData = ContactData(name: string, email: string, phone: Option<string>, company: Option<string>)

  /** `sqlite3.IntegrityError("Email already exists")`. */
  datatype StoreError = DuplicateEmail

  datatype SortField = ById | ByName | ByCompany | ByEmail | ByCreatedAt

  datatype Direction = Asc | Desc

  /** The dictionary `get_contacts` returns; `ContactsListResponse` has exactly these four fields. */
  datatype ContactsList = ContactsList(data: seq<Contact>, count: nat, limit: int, offset: int)

  predicate HasId(rows: seq<Contact>, id: int)
  {
    exists i | 0 <= i < |rows| :: rows[i].id == id
  }

  /** `SELECT id FROM contacts WHERE email = ?` finds a row (exact comparison). */
  predicate EmailTaken(rows: seq<Contact>, email: string)
  {
    exists i | 0 <= i < |rows| :: rows[i].email == email
  }

  /** `SELECT id FROM contacts WHERE email = ? AND id != ?` finds a row. */
  predicate EmailHeldByOther(rows: seq<Contact>, email: string, id: int)
  {
    exists i | 0 <= i < |rows| :: rows[i].email == email && rows[i].id != id
  }

  predicate IdsIncreasing(rows: seq<Contact>)
  {
    forall i, j :: 0 <= i < j < |rows| ==> rows[i].id < rows[j].id
  }

  /** The UNIQUE constraint on `email`. */
  predicate EmailsUnique(rows: seq<Contact>)
  {
    forall i, j :: 0 <= i < j < |rows| ==> rows[i].email != rows[j].email
  }

  /** `SELECT * FROM contacts WHERE id = ?`, first row or `None`. */
  function FindById(rows: seq<Contact>, id: int): (r: Option<Contact>)
    ensures r.Some? <==> HasId(rows, id)
    ensures r.Some? ==> r.value in rows && r.value.id == id
  {
    if rows == [] then None
    else if rows[0].id == id then Some(rows[0])
    else
      assert forall i :: 1 <= i < |rows| ==> rows[i] == rows[1..][i - 1];
      FindById(rows[1..], id)
  }

  /** With unique ids, a row is determined by its id. */
  lemma IdDeterminesRow(rows: seq<Contact>, a: Contact, b: Contact)
    requires IdsIncreasing(rows) && a in rows && b in rows && a.id == b.id
    ensures a == b
  {
    var i :| 0 <= i < |rows| && rows[i] == a;
    var j :| 0 <= j < |rows| && rows[j] == b;
    if i < j {
      assert rows[i].id < rows[j].id;
    } else if j < i {
      assert rows[j].id < rows[i].id;
    }
  }

  /** The position of the row with id `id`. */
  function IndexOfId(rows: seq<Contact>, id: int): (i: nat)
    requires HasId(rows, id)
    ensures i < |rows| && rows[i].id == id
  {
    if rows[0].id == id then 0
    else
      assert HasId(rows[1..], id) by {
        var i :| 0 <= i < |rows| && rows[i].id == id;
        assert rows[1..][i - 1] == rows[i];
      }
      1 + IndexOfId(rows[1..], id)
  }

  /** `DELETE FROM contacts WHERE id = ?`: the rows without that id, in their order. */
  function RemoveId(rows: seq<Contact>, id: int): (r: seq<Contact>)
    ensures forall c :: c in r <==> c in rows && c.id != id
    ensures !HasId(rows, id) ==> r == rows
    ensures HasId(rows, id) ==> |r| < |rows|
    ensures !HasId(r, id)
  {
    if rows == [] then []
    else
      var rest := RemoveId(rows[1..], id);
      assert forall i :: 1 <= i < |rows| ==> rows[i] == rows[1..][i - 1];
      assert HasId(rows, id) && rows[0].id != id ==> HasId(rows[1..], id) by {
        if HasId(rows, id) && rows[0].id != id {
          var i :| 0 <= i < |rows| && rows[i].id == id;
          assert rows[1..][i - 1].id == id;
        }
      }
      if rows[0].id == id then rest
      else
        assert !HasId(rows, id) ==> rows == [rows[0]] + rows[1..];
        [rows[0]] + rest
  }

  lemma {:induction false} RemoveIdKeepsOrder(rows: seq<Contact>, id: int)
    requires IdsIncreasing(rows)
    ensures IdsIncreasing(RemoveId(rows, id))
  {
    if rows != [] {
      var tail := rows[1..];
      assert IdsIncreasing(tail) by {
        forall i, j | 0 <= i < j < |tail| ensures tail[i].id < tail[j].id {
          assert tail[i] == rows[i + 1] && tail[j] == rows[j + 1];
        }
      }
      RemoveIdKeepsOrder(tail, id);
      var rest := RemoveId(tail, id);
      if rows[0].id != id {
        forall c | c in rest
          ensures rows[0].id < c.id
        {
          var i :| 1 <= i < |rows| && rows[i] == c;
        }
        ConsIncreasing(rows[0], rest);
      }
    }
  }

  /** A row with a smaller id than every row of an id-ordered table can go in front of it. */
  lemma ConsIncreasing(c: Contact, rest: seq<Contact>)
    requires IdsIncreasing(rest) && forall x :: x in rest ==> c.id < x.id
    ensures IdsIncreasing([c] + rest)
  {
    var s := [c] + rest;
    forall i, j | 0 <= i < j < |s| ensures s[i].id < s[j].id {
      assert s[j] == rest[j - 1];
      if i > 0 { assert s[i] == rest[i - 1]; }
    }
  }

  lemma {:induction false} RemoveIdKeepsEmailsUnique(rows: seq<Contact>, id: int)
    requires IdsIncreasing(rows) && EmailsUnique(rows)
    ensures EmailsUnique(RemoveId(rows, id))
  {
    if rows != [] {
      var tail := rows[1..];
      assert IdsIncreasing(tail) && EmailsUnique(tail) by {
        forall i, j | 0 <= i < j < |tail| ensures tail[i].id < tail[j].id && tail[i].email != tail[j].email {
          assert tail[i] == rows[i + 1] && tail[j] == rows[j + 1];
        }
      }
      RemoveIdKeepsEmailsUnique(tail, id);
      var rest := RemoveId(tail, id);
      if rows[0].id != id {
        forall c | c in rest
          ensures rows[0].email != c.email
        {
          var i :| 1 <= i < |rows| && rows[i] == c;
        }
        ConsEmailsUnique(rows[0], rest);
      }
    }
  }

  /** A row whose email no row of a table holds can go in front of it. */
  lemma ConsEmailsUnique(c: Contact, rest: seq<Contact>)
    requires EmailsUnique(rest) && forall x :: x in rest ==> c.email != x.email
    ensures EmailsUnique([c] + rest)
  {
    var s := [c] + rest;
    forall i, j | 0 <= i < j < |s| ensures s[i].email != s[j].email {
      assert s[j] == rest[j - 1];
      if i > 0 { assert s[i] == rest[i - 1]; }
    }
  }

  /** The row `UPDATE contacts SET name = ?, email = ?, phone = ?, company = ? WHERE id = ?` leaves. */
  function Overwrite(c: Contact, data: ContactData): (r: Contact)
    ensures r.id == c.id && r.createdAt == c.createdAt
    ensures ContactData(r.name, r.email, r.phone, r.company) == data
  {
    c.(name := data.name, email := data.email, phone := data.phone, company := data.company)
  }

  /** The names `sort_by` may take; any other value sorts by `id`. */
  const ValidSortFields: seq<string> := ["id", "name", "company", "email", "created_at"]

  function FieldName(f: SortField): string
  {
    match f
    case ById => "id"
    case ByName => "name"
    case ByCompany => "company"
    case ByEmail => "email"
    case ByCreatedAt => "created_at"
  }

  /** `sort_by`, with any value outside the valid fields replaced by `id` (case-sensitive). */
  function ResolveSortField(sortBy: string): (f: SortField)
    ensures sortBy in ValidSortFields ==> FieldName(f) == sortBy
    ensures sortBy !in ValidSortFields ==> f == ById
  {
    if sortBy == "name" then ByName
    else if sortBy == "company" then ByCompany
    else if sortBy == "email" then ByEmail
    else if sortBy == "created_at" then ByCreatedAt
    else ById
  }

  /** `order`, with any value whose lower-case form is neither `asc` nor `desc` replaced by `asc`. */
  function ResolveOrder(order: string): (d: Direction)
    ensures d == Desc <==> Lower(order) == "desc"
  {
    if Lower(order) == "desc" then Desc else Asc
  }

  /** The order `ORDER BY field ASC` sorts by: integers numerically, text by the BINARY collation,
      and (SQLite's choice) a NULL company before every non-NULL one. */
  predicate KeyLe(a: Contact, b: Contact, field: SortField)
  {
    match field
    case ById => a.id <= b.id
    case ByName => LexLe(a.name, b.name)
    case ByEmail => LexLe(a.email, b.email)
    case ByCreatedAt => LexLe(a.createdAt, b.createdAt)
    case ByCompany => a.company.None? || (b.company.Some? && LexLe(a.company.value, b.company.value))
  }

  /** `a` may come before `b` under `ORDER BY field dir`. */
  predicate Precedes(a: Contact, b: Contact, field: SortField, dir: Direction)
  {
    if dir == Asc then KeyLe(a, b, field) else KeyLe(b, a, field)
  }

  lemma KeyLeTotal(a: Contact, b: Contact, field: SortField)
    ensures KeyLe(a, b, field) || KeyLe(b, a, field)
  {
    match field
    case ById =>
    case ByName => LexLeTotal(a.name, b.name);
    case ByEmail => LexLeTotal(a.email, b.email);
    case ByCreatedAt => LexLeTotal(a.createdAt, b.createdAt);
    case ByCompany =>
      if a.company.Some? && b.company.Some? {
        LexLeTotal(a.company.value, b.company.value);
      }
  }

  lemma KeyLeTransitive(a: Contact, b: Contact, c: Contact, field: SortField)
    requires KeyLe(a, b, field) && KeyLe(b, c, field)
    ensures KeyLe(a, c, field)
  {
    match field
    case ById =>
    case ByName => LexLeTransitive(a.name, b.name, c.name);
    case ByEmail => LexLeTransitive(a.email, b.email, c.email);
    case ByCreatedAt => LexLeTransitive(a.createdAt, b.createdAt, c.createdAt);
    case ByCompany =>
      if a.company.Some? {
        LexLeTransitive(a.company.value, b.company.value, c.company.value);
      }
  }

  lemma PrecedesTotal(a: Contact, b: Contact, field: SortField, dir: Direction)
    ensures Precedes(a, b, field, dir) || Precedes(b, a, field, dir)
  {
    KeyLeTotal(a, b, field);
  }

  lemma PrecedesTransitive(a: Contact, b: Contact, c: Contact, field: SortField, dir: Direction)
    requires Precedes(a, b, field, dir) && Precedes(b, c, field, dir)
    ensures Precedes(a, c, field, dir)
  {
    if dir == Asc {
      KeyLeTransitive(a, b, c, field);
    } else {
      KeyLeTransitive(c, b, a, field);
    }
  }

  predicate SortedBy(s: seq<Contact>, field: SortField, dir: Direction)
  {
    forall i, j :: 0 <= i < j < |s| ==> Precedes(s[i], s[j], field, dir)
  }

  /** What `ORDER BY field dir` promises of two rows: the sort-key order, except that where either
      company is NULL the placement is left open. */
  predicate InOrder(a: Contact, b: Contact, field: SortField, dir: Direction)
  {
    (field == ByCompany && (a.company.None? || b.company.None?)) || Precedes(a, b, field, dir)
  }

  predicate OrderedBy(s: seq<Contact>, field: SortField, dir: Direction)
  {
    forall i, j :: 0 <= i < j < |s| ==> InOrder(s[i], s[j], field, dir)
  }

  /** Inserts `x` in front of the first row it may precede (so before rows with an equal key). */
  function InsertSorted(x: Contact, s: seq<Contact>, field: SortField, dir: Direction): (r: seq<Contact>)
    ensures multiset(r) == multiset(s) + multiset{x}
  {
    if s == [] || Precedes(x, s[0], field, dir) then [x] + s
    else
      assert s == [s[0]] + s[1..];
      [s[0]] + InsertSorted(x, s[1..], field, dir)
  }

  lemma {:induction false} InsertSortedSorted(x: Contact, s: seq<Contact>, field: SortField, dir: Direction)
    requires SortedBy(s, field, dir)
    ensures SortedBy(InsertSorted(x, s, field, dir), field, dir)
  {
    if s == [] {
    } else if Precedes(x, s[0], field, dir) {
      forall j | 0 <= j < |s|
        ensures Precedes(x, s[j], field, dir)
      {
        if j > 0 {
          PrecedesTransitive(x, s[0], s[j], field, dir);
        }
      }
      ConsSortedBy(x, s, field, dir);
    } else {
      var tail := s[1..];
      assert SortedBy(tail, field, dir) && forall k :: 0 <= k < |tail| ==> Precedes(s[0], tail[k], field, dir) by {
        forall i, j | 0 <= i < j < |tail| ensures Precedes(tail[i], tail[j], field, dir) {
          assert tail[i] == s[i + 1] && tail[j] == s[j + 1];
        }
        forall k | 0 <= k < |tail| ensures Precedes(s[0], tail[k], field, dir) {
          assert tail[k] == s[k + 1];
        }
      }
      PrecedesTotal(x, s[0], field, dir);
      InsertSortedSorted(x, tail, field, dir);
      InsertKeepsFirst(s[0], x, tail, field, dir);
      ConsSortedBy(s[0], InsertSorted(x, tail, field, dir), field, dir);
    }
  }

  /** A row that may precede every row of a sorted list can go in front of it. */
  lemma ConsSortedBy(h: Contact, tail: seq<Contact>, field: SortField, dir: Direction)
    requires SortedBy(tail, field, dir)
    requires forall k :: 0 <= k < |tail| ==> Precedes(h, tail[k], field, dir)
    ensures SortedBy([h] + tail, field, dir)
  {
    var r := [h] + tail;
    forall i, j | 0 <= i < j < |r| ensures Precedes(r[i], r[j], field, dir) {
      if i == 0 {
        assert r[j] == tail[j - 1];
      } else {
        assert r[i] == tail[i - 1] && r[j] == tail[j - 1];
      }
    }
  }

  /** Inserting a row that `h` may precede keeps `h` able to precede every row. */
  lemma InsertKeepsFirst(h: Contact, x: Contact, tail: seq<Contact>, field: SortField, dir: Direction)
    requires Precedes(h, x, field, dir)
    requires forall k :: 0 <= k < |tail| ==> Precedes(h, tail[k], field, dir)
    ensures forall k :: 0 <= k < |InsertSorted(x, tail, field, dir)| ==> Precedes(h, InsertSorted(x, tail, field, dir)[k], field, dir)
  {
    var t := InsertSorted(x, tail, field, dir);
    forall k | 0 <= k < |t| ensures Precedes(h, t[k], field, dir) {
      assert t[k] in multiset(t);
      if t[k] != x {
        assert t[k] in multiset(tail);
        var m :| 0 <= m < |tail| && tail[m] == t[k];
      }
    }
  }

  /** A stable insertion sort of the rows by `ORDER BY field dir`. */
  function SortContacts(s: seq<Contact>, field: SortField, dir: Direction): (r: seq<Contact>)
    ensures multiset(r) == multiset(s)
  {
    if s == [] then []
    else
      assert s == [s[0]] + s[1..];
      InsertSorted(s[0], SortContacts(s[1..], field, dir), field, dir)
  }

  /** The sort puts the rows in `ORDER BY` order. */
  lemma {:induction false} SortContactsSorted(s: seq<Contact>, field: SortField, dir: Direction)
    ensures SortedBy(SortContacts(s, field, dir), field, dir)
  {
    if s != [] {
      SortContactsSorted(s[1..], field, dir);
      InsertSortedSorted(s[0], SortContacts(s[1..], field, dir), field, dir);
    }
  }

  lemma SortedIsOrdered(s: seq<Contact>, field: SortField, dir: Direction)
    requires SortedBy(s, field, dir)
    ensures OrderedBy(s, field, dir)
  {
  }

  /** Python truthiness of an optional filter string: `None` and `""` switch the filter off. */
  predicate Active(filter: Option<string>)
  {
    filter.Some? && filter.value != []
  }

  /** `LOWER(company) = LOWER(?)`; a NULL company never matches an active filter. */
  predicate CompanyMatches(c: Contact, company: Option<string>)
  {
    !Active(company) || (c.company.Some? && Lower(c.company.value) == Lower(company.value))
  }

  /** `name LIKE '%search%' OR email LIKE '%search%'`, read as a case-insensitive substring test. */
  predicate SearchMatches(c: Contact, search: Option<string>)
  {
    !Active(search) || IsSubstring(Lower(search.value), Lower(c.name)) || IsSubstring(Lower(search.value), Lower(c.email))
  }

  /** The WHERE clause: the active conditions joined with AND. */
  predicate Matches(c: Contact, company: Option<string>, search: Option<string>)
  {
    CompanyMatches(c, company) && SearchMatches(c, search)
  }

  /** The rows the WHERE clause selects, in table order: each row occurs as often as in the table if it matches, else not at all. */
  function Filter(rows: seq<Contact>, company: Option<string>, search: Option<string>): (r: seq<Contact>)
    ensures forall c :: multiset(r)[c] == if Matches(c, company, search) then multiset(rows)[c] else 0
    ensures forall c :: c in r ==> c in rows && Matches(c, company, search)
  {
    if rows == [] then []
    else
      assert rows == [rows[0]] + rows[1..];
      var rest := Filter(rows[1..], company, search);
      if Matches(rows[0], company, search) then [rows[0]] + rest else rest
  }

  /** Without an active filter the WHERE clause is empty and every row is selected, in table order. */
  lemma {:induction false} FilterInactive(rows: seq<Contact>, company: Option<string>, search: Option<string>)
    requires !Active(company) && !Active(search)
    ensures Filter(rows, company, search) == rows
  {
    if rows != [] {
      FilterInactive(rows[1..], company, search);
      assert rows == [rows[0]] + rows[1..];
    }
  }

  /** Both filters compare lower-cased text, so the case of the filter values does not matter. */
  lemma FiltersIgnoreCase(c: Contact, company: string, search: string)
    ensures CompanyMatches(c, Some(company)) <==> CompanyMatches(c, Some(Lower(company)))
    ensures SearchMatches(c, Some(search)) <==> SearchMatches(c, Some(Lower(search)))
  {
    LowerIdempotent(company);
    LowerIdempotent(search);
  }

  /** A search term found in the name (or the email) selects the row, whatever the case of either. */
  lemma SearchFindsSubstring(c: Contact, search: string, i: nat)
    requires search != [] && i + |search| <= |c.name| && Lower(c.name[i..i + |search|]) == Lower(search)
    ensures SearchMatches(c, Some(search))
  {
    LowerOccurs(search, c.name, i);
  }

  /** SQLite's `LIMIT limit OFFSET offset`: a negative offset counts as 0 and a negative limit means no limit. */
  function Page(s: seq<Contact>, limit: int, offset: int): (r: seq<Contact>)
    ensures |r| == PageLength(|s|, limit, offset)
    ensures forall k :: 0 <= k < |r| ==> r[k] == s[Clamp(offset, |s|) + k]
  {
    var start := Clamp(offset, |s|);
    var end := if limit < 0 || start + limit > |s| then |s| else start + limit;
    s[start..end]
  }

  /** `x` forced into `[0, n]`. */
  function Clamp(x: int, n: nat): nat
  {
    if x < 0 then 0 else if x > n then n else x
  }

  /** How many of `n` rows a page keeps. */
  function PageLength(n: nat, limit: int, offset: int): nat
  {
    var rest := n - Clamp(offset, n);
    if limit < 0 || limit > rest then rest else limit
  }

  /** `sorted` lists exactly the rows matching the filters, in an order `ORDER BY` allows. */
  predicate SortedMatches(sorted: seq<Contact>, rows: seq<Contact>, company: Option<string>, search: Option<string>,
                          field: SortField, dir: Direction)
  {
    multiset(sorted) == multiset(Filter(rows, company, search)) && OrderedBy(sorted, field, dir)
  }

  /** A window of a sorted list keeps its order. */
  lemma PageOfSorted(sorted: seq<Contact>, field: SortField, dir: Direction, limit: int, offset: int)
    requires SortedBy(sorted, field, dir)
    ensures OrderedBy(sorted, field, dir)
    ensures OrderedBy(Page(sorted, limit, offset), field, dir)
  {
    var data := Page(sorted, limit, offset);
    var start := Clamp(offset, |sorted|);
    forall i, j | 0 <= i < j < |data|
      ensures InOrder(data[i], data[j], field, dir)
    {
      assert data[i] == sorted[start + i] && data[j] == sorted[start + j];
    }
  }

  /** A window of a list holds only elements of the list. */
  lemma PageMembers(s: seq<Contact>, limit: int, offset: int, c: Contact)
    requires c in Page(s, limit, offset)
    ensures c in multiset(s)
  {
    var data := Page(s, limit, offset);
    var k :| 0 <= k < |data| && data[k] == c;
    assert s[Clamp(offset, |s|) + k] == c;
  }

  /** The five contacts `seed_sample_data` inserts. */
  const SampleContacts: seq<ContactData> := [
    ContactData("John Doe", "john.doe@acme.com", Some("555-0101"), Some("Acme Corp")),
    ContactData("Jane Smith", "jane.smith@techco.com", Some("555-0102"), Some("TechCo")),
    ContactData("Alice Johnson", "alice.j@startupx.com", Some("555-0103"), Some("StartupX")),
    ContactData("Bob Wilson", "bob.w@acme.com", Some("555-0104"), Some("Acme Corp")),
    ContactData("Carol Brown", "carol.b@freelance.com", Some("555-0105"), None)
  ]

  /** The table after trying to create each of `samples` in turn (with creation times `stamps`),
      skipping those whose email is already stored. */
  function SeedFold(rows: seq<Contact>, nextId: int, samples: seq<ContactData>, stamps: seq<string>): (seq<Contact>, int)
    requires |stamps| == |samples|
    decreases |samples|
  {
    if samples == [] then (rows, nextId)
    else if EmailTaken(rows, samples[0].email) then SeedFold(rows, nextId, samples[1..], stamps[1..])
    else
      var d := samples[0];
      SeedFold(rows + [Contact(nextId, d.name, d.email, d.phone, d.company, stamps[0])], nextId + 1, samples[1..], stamps[1..])
  }

  /** Seeding only appends rows: the old table is a prefix of the new one. */
  lemma {:induction false} SeedFoldExtends(rows: seq<Contact>, nextId: int, samples: seq<ContactData>, stamps: seq<string>)
    requires |stamps| == |samples|
    ensures |SeedFold(rows, nextId, samples, stamps).0| >= |rows|
    ensures SeedFold(rows, nextId, samples, stamps).0[..|rows|] == rows
    decreases |samples|
  {
    if samples != [] {
      if EmailTaken(rows, samples[0].email) {
        SeedFoldExtends(rows, nextId, samples[1..], stamps[1..]);
      } else {
        var d := samples[0];
        var rows' := rows + [Contact(nextId, d.name, d.email, d.phone, d.company, stamps[0])];
        SeedFoldExtends(rows', nextId + 1, samples[1..], stamps[1..]);
        assert rows'[..|rows|] == rows;
      }
    }
  }

  lemma TakenInPrefix(rows: seq<Contact>, longer: seq<Contact>, email: string)
    requires |longer| >= |rows| && longer[..|rows|] == rows && EmailTaken(rows, email)
    ensures EmailTaken(longer, email)
  {
    var i :| 0 <= i < |rows| && rows[i].email == email;
    assert longer[i] == rows[i];
  }

  /** After seeding, every sample email is stored. */
  lemma {:induction false} SeedFoldCoversSamples(rows: seq<Contact>, nextId: int, samples: seq<ContactData>, stamps: seq<string>)
    requires |stamps| == |samples|
    ensures forall k :: 0 <= k < |samples| ==> EmailTaken(SeedFold(rows, nextId, samples, stamps).0, samples[k].email)
    decreases |samples|
  {
    if samples != [] {
      var result := SeedFold(rows, nextId, samples, stamps).0;
      var rows' := if EmailTaken(rows, samples[0].email) then rows
        else rows + [Contact(nextId, samples[0].name, samples[0].email, samples[0].phone, samples[0].company, stamps[0])];
      var next' := if EmailTaken(rows, samples[0].email) then nextId else nextId + 1;
      assert result == SeedFold(rows', next', samples[1..], stamps[1..]).0;
      SeedFoldCoversSamples(rows', next', samples[1..], stamps[1..]);
      assert EmailTaken(rows', samples[0].email) by {
        if !EmailTaken(rows, samples[0].email) {
          assert rows'[|rows|].email == samples[0].email;
        }
      }
      SeedFoldExtends(rows', next', samples[1..], stamps[1..]);
      TakenInPrefix(rows', result, samples[0].email);
      forall k | 1 <= k < |samples|
        ensures EmailTaken(result, samples[k].email)
      {
        assert samples[k] == samples[1..][k - 1];
      }
    }
  }

  /** When every sample email is already stored, seeding changes nothing. */
  lemma {:induction false} SeedFoldAllTaken(rows: seq<Contact>, nextId: int, samples: seq<ContactData>, stamps: seq<string>)
    requires |stamps| == |samples|
    requires forall k :: 0 <= k < |samples| ==> EmailTaken(rows, samples[k].email)
    ensures SeedFold(rows, nextId, samples, stamps) == (rows, nextId)
  {
    if samples != [] {
      assert EmailTaken(rows, samples[0].email);
      forall k | 0 <= k < |samples| - 1
        ensures EmailTaken(rows, samples[1..][k].email)
      {
        assert samples[1..][k] == samples[k + 1];
      }
      SeedFoldAllTaken(rows, nextId, samples[1..], stamps[1..]);
    }
  }

  /** Seeding a second time (at any times) adds nothing. */
  lemma SeedIdempotent(rows: seq<Contact>, nextId: int, stamps: seq<string>, laterStamps: seq<string>)
    requires |stamps| == |SampleContacts| && |laterStamps| == |SampleContacts|
    ensures var seeded := SeedFold(rows, nextId, SampleContacts, stamps);
            SeedFold(seeded.0, seeded.1, SampleContacts, laterStamps) == seeded
  {
    var seeded := SeedFold(rows, nextId, SampleContacts, stamps);
    SeedFoldCoversSamples(rows, nextId, SampleContacts, stamps);
    SeedFoldAllTaken(seeded.0, seeded.1, SampleContacts, laterStamps);
  }

  /** The contacts table and its operations. */
  class ContactsDatabase {
    /** The rows, in rowid order. */
    var rows: seq<Contact>
    /** The id the next insert receives (AUTOINCREMENT). */
    var nextId: int
    /** Every id ever assigned, deleted rows included. */
    ghost var issued: set<int>

    /** Ids increase with insertion and are never reused; the UNIQUE constraint on email holds. */
    ghost predicate Valid()
      reads this
    {
      && nextId >= 1
      && IdsIncreasing(rows)
      && EmailsUnique(rows)
      && (forall i :: 0 <= i < |rows| ==> rows[i].id in issued)
      && (forall n :: n in issued ==> 1 <= n < nextId)
    }

    /** `init_database` on a new database file: an empty table whose first id will be 1. */
    constructor ()
      ensures Valid()
      ensures rows == [] && nextId == 1 && issued == {}
    {
      rows := [];
      nextId := 1;
      issued := {};
    }

    /** `get_contact_by_id`: the row with that id, or `None`; the table is only read. */
    method GetContactById(id: int) returns (r: Option<Contact>)
      ensures r.Some? <==> HasId(rows, id)
      ensures r.Some? ==> r.value in rows && r.value.id == id
    {
      r := FindById(rows, id);
    }

    /** `create_contact`: refuses an email already stored, and otherwise appends one row with a fresh id
        and returns the stored row. */
    method CreateContact(data: ContactData, now: string) returns (r: Result<Contact, StoreError>)
      requires Valid()
      modifies this
      ensures Valid()
      ensures old(EmailTaken(rows, data.email)) ==>
        r == Failure(DuplicateEmail) && rows == old(rows) && nextId == old(nextId) && issued == old(issued)
      ensures !old(EmailTaken(rows, data.email)) ==>
        && r == Success(Contact(old(nextId), data.name, data.email, data.phone, data.company, now))
        && rows == old(rows) + [r.value]
        && nextId == old(nextId) + 1
        && issued == old(issued) + {r.value.id}
        && (forall n :: n in old(issued) ==> n < r.value.id)
    {
      if EmailTaken(rows, data.email) {
        return Failure(DuplicateEmail);
      }
      var inserted := Contact(nextId, data.name, data.email, data.phone, data.company, now);
      rows := rows + [inserted];
      issued := issued + {nextId};
      nextId := nextId + 1;
      assert rows[|rows| - 1] == inserted;
      var stored := GetContactById(inserted.id);
      IdDeterminesRow(rows, stored.value, inserted);
      r := Success(stored.value);
    }

    /** `update_contact`: `None` for an unknown id, the duplicate error when another row holds the email,
        and otherwise that row's name, email, phone and company overwritten in place. */
    method UpdateContact(id: int, data: ContactData) returns (r: Result<Option<Contact>, StoreError>)
      requires Valid()
      modifies this
      ensures Valid() && nextId == old(nextId) && issued == old(issued)
      ensures !old(HasId(rows, id)) ==> r == Success(None) && rows == old(rows)
      ensures old(HasId(rows, id)) && old(EmailHeldByOther(rows, data.email, id)) ==>
        r == Failure(DuplicateEmail) && rows == old(rows)
      ensures old(HasId(rows, id)) && !old(EmailHeldByOther(rows, data.email, id)) ==>
        && |rows| == |old(rows)|
        && (forall k :: 0 <= k < |rows| ==>
              rows[k] == if old(rows)[k].id == id then Overwrite(old(rows)[k], data) else old(rows)[k])
        && rows == old(rows)[old(IndexOfId(rows, id)) := Overwrite(old(rows)[old(IndexOfId(rows, id))], data)]
        && r == Success(Some(rows[old(IndexOfId(rows, id))]))
    {
      if !HasId(rows, id) {
        return Success(None);
      }
      if EmailHeldByOther(rows, data.email, id) {
        return Failure(DuplicateEmail);
      }
      var i := IndexOfId(rows, id);
      ghost var before := rows;
      rows := rows[i := Overwrite(rows[i], data)];
      forall k | 0 <= k < |rows| && k != i
        ensures before[k].id != id
      {
        if k < i { assert before[k].id < before[i].id; } else { assert before[i].id < before[k].id; }
      }
      assert rows[i].id == id;
      var stored := GetContactById(id);
      IdDeterminesRow(rows, stored.value, rows[i]);
      r := Success(stored);
    }

    /** `delete_contact`: removes the row with that id and reports whether one was removed. */
    method DeleteContact(id: int) returns (deleted: bool)
      requires Valid()
      modifies this
      ensures Valid() && nextId == old(nextId) && issued == old(issued)
      ensures deleted <==> old(HasId(rows, id))
      ensures rows == RemoveId(old(rows), id)
      ensures !HasId(rows, id)
    {
      var before := |rows|;
      RemoveIdKeepsOrder(rows, id);
      RemoveIdKeepsEmailsUnique(rows, id);
      ghost var old_rows := rows;
      rows := RemoveId(rows, id);
      forall i | 0 <= i < |rows|
        ensures rows[i].id in issued
      {
        assert rows[i] in old_rows;
      }
      var rowcount := before - |rows|;
      deleted := rowcount > 0;
    }

    /** `get_contacts`: the count of rows matching the filters, and the `[offset, offset + limit)` window of
        those rows in the requested order, with `limit` and `offset` echoed back. */
    method GetContacts(limit: int, offset: int, company: Option<string>, search: Option<string>,
                       sortBy: string, order: string) returns (r: ContactsList)
      ensures r.limit == limit && r.offset == offset
      ensures r.count == |Filter(rows, company, search)|
      ensures forall c :: c in r.data ==> c in rows && Matches(c, company, search)
      ensures |r.data| == PageLength(r.count, limit, offset)
      ensures OrderedBy(r.data, ResolveSortField(sortBy), ResolveOrder(order))
      ensures exists sorted :: SortedMatches(sorted, rows, company, search, ResolveSortField(sortBy), ResolveOrder(order))
                               && r.data == Page(sorted, limit, offset)
    {
      var field := ResolveSortField(sortBy);
      var dir := ResolveOrder(order);
      var matches := Filter(rows, company, search);
      var totalCount := |matches|;
      var sorted := SortContacts(matches, field, dir);
      SortContactsSorted(matches, field, dir);
      var data := Page(sorted, limit, offset);
      PageOfSorted(sorted, field, dir, limit, offset);
      forall c | c in data
        ensures c in rows && Matches(c, company, search)
      {
        PageMembers(sorted, limit, offset, c);
        assert c in matches;
      }
      assert SortedMatches(sorted, rows, company, search, field, dir);
      r := ContactsList(data, totalCount, limit, offset);
    }

    /** `seed_sample_data`: tries to create each sample contact in turn and skips the duplicates. */
    method SeedSampleData(stamps: seq<string>)
      requires Valid() && |stamps| == |SampleContacts|
      modifies this
      ensures Valid()
      ensures (rows, nextId) == SeedFold(old(rows), old(nextId), SampleContacts, stamps)
    {
      SeedContacts(SampleContacts, stamps);
    }

    /** The loop of `seed_sample_data` over any list of contacts: one `create_contact` per contact. */
    method SeedContacts(samples: seq<ContactData>, stamps: seq<string>)
      requires Valid() && |stamps| == |samples|
      modifies this
      ensures Valid()
      ensures (rows, nextId) == SeedFold(old(rows), old(nextId), samples, stamps)
    {
      var i := 0;
      while i < |samples|
        invariant 0 <= i <= |samples|
        invariant Valid()
        invariant SeedFold(rows, nextId, samples[i..], stamps[i..]) == SeedFold(old(rows), old(nextId), samples, stamps)
      {
        var _ := CreateContact(samples[i], stamps[i]);
        assert samples[i..][1..] == samples[i + 1..];
        assert stamps[i..][1..] == stamps[i + 1..];
        i := i + 1;
      }
    }
  }
}
