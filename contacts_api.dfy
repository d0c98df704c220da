/** The route handlers of the CRM API (exam-solutions/assignment5/main.py): the hand-written body
    validation `validate_contact_data`, and the mapping of store results to HTTP outcomes. */
module ContactsApi {
  import opened Wrappers
  import opened Text
  import opened ContactsStore
  import opened ContactModels

  const NameRequired := "Name is required and cannot be empty"
  const EmailRequired := "Email is required"
  const EmailNeedsAt := "Email must contain '@' symbol"

  /** The result of `validate_contact_data`: the 422 error list, or the cleaned fields. */
  datatype Validation = Refused(errors: seq<string>) | Cleaned(data: ContactData)

  /** Python truthiness of an optional string: present and not empty. */
  predicate Truthy(v: Option<string>)
  {
    v.Some? && v.value != []
  }

  /** The name check of `validate_contact_data` fails: missing, empty or only whitespace. */
  predicate NameBlank(d: ContactInput)
  {
    d.name.None? || AllSpace(d.name.value)
  }

  /** The name test of `validate_contact_data` is `NameBlank`. */
  lemma NameCheck(d: ContactInput)
    ensures (!Truthy(d.name) || Strip(d.name.value) == []) <==> NameBlank(d)
  {
    if d.name.Some? {
      StripEmptyIff(d.name.value);
    }
  }

  /** `data.get(key, '').strip() if data.get(key) else None`. */
  function CleanOptional(v: Option<string>): (r: Option<string>)
    ensures r.None? <==> v.None? || v.value == []
    ensures r.Some? ==> r.value == Strip(v.value)
  {
    if Truthy(v) then Some(Strip(v.value)) else None
  }

  /** The name part of `validate_contact_data`'s error list. */
  function NameErrors(d: ContactInput): (e: seq<string>)
    ensures e == [] <==> !NameBlank(d)
    ensures e != [] ==> e == [NameRequired]
  {
    NameCheck(d);
    if !Truthy(d.name) || Strip(d.name.value) == [] then [NameRequired] else []
  }

  /** The email part of `validate_contact_data`'s error list. */
  function EmailErrors(d: ContactInput): (e: seq<string>)
    ensures e == [] <==> d.email.Some? && '@' in d.email.value
    ensures !Truthy(d.email) ==> e == [EmailRequired]
    ensures Truthy(d.email) && '@' !in d.email.value ==> e == [EmailNeedsAt]
  {
    if !Truthy(d.email) then [EmailRequired] else if '@' !in d.email.value then [EmailNeedsAt] else []
  }

  /** The cleaned email: lower-cased, then stripped. */
  function CleanEmail(email: string): (r: string)
    ensures r == Lower(Strip(email))
    ensures '@' in email ==> '@' in r
  {
    StripLowerCommute(email);
    if '@' in email then
      StripLowerKeeps(email, '@');
      Strip(Lower(email))
    else
      Strip(Lower(email))
  }

  /** `validate_contact_data`: collects the name error and then the email error; without errors, strips the
      name, lower-cases and strips the email, and keeps a phone or company only when it is not empty. */
  function ValidateContactData(d: ContactInput): (r: Validation)
    ensures r.Refused? <==> NameBlank(d) || d.email.None? || '@' !in d.email.value
    ensures r.Refused? ==>
      && 1 <= |r.errors| <= 2
      && |r.errors| == (if NameBlank(d) then 1 else 0) + (if !Truthy(d.email) || '@' !in d.email.value then 1 else 0)
      && (NameRequired in r.errors <==> NameBlank(d))
      && (NameBlank(d) ==> r.errors[0] == NameRequired)
      && (EmailRequired in r.errors <==> !Truthy(d.email))
      && (EmailNeedsAt in r.errors <==> Truthy(d.email) && '@' !in d.email.value)
    ensures r.Cleaned? ==>
      && d.name.Some? && d.email.Some?
      && r.data.name == Strip(d.name.value) && r.data.name != []
      && r.data.email == Lower(Strip(d.email.value)) && '@' in r.data.email
      && r.data.phone == CleanOptional(d.phone)
      && r.data.company == CleanOptional(d.company)
  {
    var errors := NameErrors(d) + EmailErrors(d);
    if errors != [] then
      Refused(errors)
    else
      StripEmptyIff(d.name.value);
      Cleaned(ContactData(Strip(d.name.value), CleanEmail(d.email.value), CleanOptional(d.phone), CleanOptional(d.company)))
  }

  /** The body a client sends back when it resubmits a cleaned contact unchanged. */
  function Resubmit(c: ContactData): ContactInput
  {
    ContactInput(Some(c.name), Some(c.email), c.phone, c.company)
  }

  /** An optional field that `validate_contact_data` keeps as a string which is empty after stripping. */
  predicate BlankKept(v: Option<string>)
  {
    v.Some? && v.value != [] && AllSpace(v.value)
  }

  /** A name that is not blank strips to a name that is not blank and is its own strip. */
  lemma NameStable(n: string)
    requires !AllSpace(n)
    ensures Strip(Strip(n)) == Strip(n) && !AllSpace(Strip(n))
  {
    StripIdempotent(n);
    StripEmptyIff(n);
    StripEmptyIff(Strip(n));
  }

  /** Cleaning an email twice is cleaning it once. */
  lemma EmailStable(e: string)
    requires '@' in e
    ensures CleanEmail(CleanEmail(e)) == CleanEmail(e) && '@' in CleanEmail(e)
  {
    StripLowerCommute(Strip(e));
    StripIdempotent(e);
    LowerIdempotent(Strip(e));
  }

  /** A body with a non-blank name and an email holding '@' is cleaned field by field. */
  lemma CleanedFields(d: ContactInput)
    requires !NameBlank(d) && d.email.Some? && '@' in d.email.value
    ensures ValidateContactData(d) ==
      Cleaned(ContactData(Strip(d.name.value), CleanEmail(d.email.value), CleanOptional(d.phone), CleanOptional(d.company)))
  {
  }

  /** Cleaned fields submitted again are accepted, with the same name and email. */
  lemma ResubmitCleaned(n: string, e: string, phone: Option<string>, company: Option<string>)
    requires !AllSpace(n) && '@' in e
    ensures var c := ContactData(Strip(n), CleanEmail(e), CleanOptional(phone), CleanOptional(company));
      && ValidateContactData(Resubmit(c)).Cleaned?
      && ValidateContactData(Resubmit(c)).data.name == c.name
      && ValidateContactData(Resubmit(c)).data.email == c.email
  {
    NameStable(n);
    EmailStable(e);
    var c := ContactData(Strip(n), CleanEmail(e), CleanOptional(phone), CleanOptional(company));
    CleanedFields(Resubmit(c));
  }

  /** Resubmitting cleaned data passes validation again, with the same name and email. */
  lemma ResubmitAccepted(d: ContactInput)
    requires ValidateContactData(d).Cleaned?
    ensures var c := ValidateContactData(d).data;
            && ValidateContactData(Resubmit(c)).Cleaned?
            && ValidateContactData(Resubmit(c)).data.name == c.name
            && ValidateContactData(Resubmit(c)).data.email == c.email
  {
    assert !NameBlank(d) && d.email.Some? && '@' in d.email.value;
    CleanedFields(d);
    ResubmitCleaned(d.name.value, d.email.value, d.phone, d.company);
  }

  /** Cleaning is stable: resubmitting cleaned data yields the same data, unless a phone or company was
      whitespace only (it was kept as `""` and then dropped to `None`). */
  lemma RevalidateCleaned(d: ContactInput)
    requires ValidateContactData(d).Cleaned?
    requires !BlankKept(d.phone) && !BlankKept(d.company)
    ensures ValidateContactData(Resubmit(ValidateContactData(d).data)) == ValidateContactData(d)
  {
    ResubmitAccepted(d);
    OptionalCleanTwice(d.phone);
    OptionalCleanTwice(d.company);
  }

  lemma OptionalCleanTwice(v: Option<string>)
    requires !BlankKept(v)
    ensures CleanOptional(CleanOptional(v)) == CleanOptional(v)
  {
    if Truthy(v) {
      StripEmptyIff(v.value);
      StripIdempotent(v.value);
    }
  }

  /** Without the blank exception, cleaning is not stable: a phone of whitespace only is kept as `""`, and
      resubmitting the cleaned body drops it to `None`. */
  lemma RevalidateBlankPhone(d: ContactInput)
    requires ValidateContactData(d).Cleaned? && BlankKept(d.phone)
    ensures ValidateContactData(d).data.phone == Some("")
    ensures ValidateContactData(Resubmit(ValidateContactData(d).data)).Cleaned?
    ensures ValidateContactData(Resubmit(ValidateContactData(d).data)).data.phone == None
  {
    StripEmptyIff(d.phone.value);
    assert !NameBlank(d) && d.email.Some? && '@' in d.email.value;
    CleanedFields(d);
    ResubmitCleaned(d.name.value, d.email.value, d.phone, d.company);
  }

  /** Where the pydantic `ContactBase` accepts a body, the hand-written validation accepts it too, with the same
      name and email; phone and company agree except that `""` is kept by pydantic and dropped here. */
  lemma ModelAgreesWithHandler(d: ContactInput)
    requires ValidateContactBase(d).Success?
    ensures ValidateContactData(d).Cleaned?
    ensures var m := ValidateContactBase(d).value;
            var c := ValidateContactData(d).data;
            && c.name == m.name && c.email == m.email
            && c.phone == (if d.phone == Some([]) then None else m.phone)
            && c.company == (if d.company == Some([]) then None else m.company)
  {
  }

  /** The response of a handler, by HTTP status. */
  datatype Outcome =
    | Ok(contact: Contact)              // 200, one contact
    | Listed(page: ContactsList)        // 200, a page of contacts
    | Created(contact: Contact)         // 201
    | NoContent                         // 204
    | NotFound                          // 404 "Contact not found"
    | Conflict                          // 409 "Email already exists"
    | Unprocessable(errors: seq<string>) // 422, the validation errors

  function StatusCode(o: Outcome): (code: int)
    ensures 200 <= code < 300 <==> o.Ok? || o.Listed? || o.Created? || o.NoContent?
  {
    match o
    case Ok(_) => 200
    case Listed(_) => 200
    case Created(_) => 201
    case NoContent => 204
    case NotFound => 404
    case Conflict => 409
    case Unprocessable(_) => 422
  }

  /** `GET /contacts`: the query parameters are constrained to 1 <= limit <= 50, offset >= 0, and an order of
      `asc` or `desc`; the store does the rest. */
  method GetContacts(db: ContactsDatabase, company: Option<string>, search: Option<string>, limit: int, offset: int,
                     sortBy: string, order: string) returns (o: Outcome)
    requires 1 <= limit <= 50 && 0 <= offset
    requires order == "asc" || order == "desc"
    ensures o.Listed?
    ensures o.page.count == |Filter(db.rows, company, search)| && o.page.limit == limit && o.page.offset == offset
    ensures |o.page.data| <= limit
    ensures |o.page.data| == if offset >= o.page.count then 0 else Min(limit, o.page.count - offset)
    ensures forall c :: c in o.page.data ==> c in db.rows && Matches(c, company, search)
    ensures OrderedBy(o.page.data, ResolveSortField(sortBy), if order == "desc" then Desc else Asc)
    ensures exists sorted :: SortedMatches(sorted, db.rows, company, search, ResolveSortField(sortBy), if order == "desc" then Desc else Asc)
                             && o.page.data == Page(sorted, limit, offset)
  {
    var page := db.GetContacts(limit, offset, company, search, sortBy, order);
    assert Lower("asc") == "asc";
    assert Lower("desc") == "desc";
    o := Listed(page);
  }

  function Min(a: int, b: int): int
  {
    if a < b then a else b
  }

  /** `GET /contacts/{contact_id}` with `contact_id > 0`. */
  method GetContact(db: ContactsDatabase, contactId: int) returns (o: Outcome)
    requires contactId > 0
    ensures o == NotFound <==> !HasId(db.rows, contactId)
    ensures o != NotFound ==> o.Ok? && o.contact in db.rows && o.contact.id == contactId
  {
    var contact := db.GetContactById(contactId);
    if contact.None? {
      return NotFound;
    }
    o := Ok(contact.value);
  }

  /** `POST /contacts`: 422 with the validation errors, 409 when the cleaned email is taken, otherwise 201 with
      the stored contact; a refused request changes nothing. */
  method CreateContact(db: ContactsDatabase, body: ContactInput, now: string) returns (o: Outcome)
    requires db.Valid()
    modifies db
    ensures db.Valid()
    ensures o.Created? || o == Conflict || o.Unprocessable?
    ensures !o.Created? ==> db.rows == old(db.rows) && db.nextId == old(db.nextId)
    ensures ValidateContactData(body).Refused? ==> o == Unprocessable(ValidateContactData(body).errors)
    ensures ValidateContactData(body).Cleaned? ==>
      var d := ValidateContactData(body).data;
      && (old(EmailTaken(db.rows, d.email)) ==> o == Conflict)
      && (!old(EmailTaken(db.rows, d.email)) ==>
            && o == Created(Contact(old(db.nextId), d.name, d.email, d.phone, d.company, now))
            && db.rows == old(db.rows) + [o.contact])
  {
    var v := ValidateContactData(body);
    if v.Refused? {
      return Unprocessable(v.errors);
    }
    var r := db.CreateContact(v.data, now);
    if r.Failure? {
      return Conflict;
    }
    o := Created(r.value);
  }

  /** `PUT /contacts/{contact_id}`: 422 with the validation errors, 404 for an unknown id, 409 when another
      contact holds the cleaned email, otherwise 200 with the overwritten contact. */
  method UpdateContact(db: ContactsDatabase, body: ContactInput, contactId: int) returns (o: Outcome)
    requires contactId > 0 && db.Valid()
    modifies db
    ensures db.Valid() && db.nextId == old(db.nextId)
    ensures o.Ok? || o == NotFound || o == Conflict || o.Unprocessable?
    ensures !o.Ok? ==> db.rows == old(db.rows)
    ensures ValidateContactData(body).Refused? ==> o == Unprocessable(ValidateContactData(body).errors)
    ensures ValidateContactData(body).Cleaned? ==>
      var d := ValidateContactData(body).data;
      && (!old(HasId(db.rows, contactId)) ==> o == NotFound)
      && (old(HasId(db.rows, contactId)) && old(EmailHeldByOther(db.rows, d.email, contactId)) ==> o == Conflict)
      && (old(HasId(db.rows, contactId)) && !old(EmailHeldByOther(db.rows, d.email, contactId)) ==>
            var i := old(IndexOfId(db.rows, contactId));
            && o == Ok(Overwrite(old(db.rows)[i], d))
            && db.rows == old(db.rows)[i := o.contact])
  {
    var v := ValidateContactData(body);
    if v.Refused? {
      return Unprocessable(v.errors);
    }
    var r := db.UpdateContact(contactId, v.data);
    if r.Failure? {
      return Conflict;
    }
    if r.value.None? {
      return NotFound;
    }
    o := Ok(r.value.value);
  }

  /** `DELETE /contacts/{contact_id}`: 204 when a contact was removed, 404 otherwise. */
  method DeleteContact(db: ContactsDatabase, contactId: int) returns (o: Outcome)
    requires contactId > 0 && db.Valid()
    modifies db
    ensures db.Valid() && db.nextId == old(db.nextId)
    ensures o == NotFound <==> !old(HasId(db.rows, contactId))
    ensures o != NotFound ==> o == NoContent
    ensures db.rows == RemoveId(old(db.rows), contactId)
  {
    var deleted := db.DeleteContact(contactId);
    if !deleted {
      return NotFound;
    }
    o := NoContent;
  }

  /** Emails that differ only in letter case or surrounding whitespace denote one contact: after the first is
      created, creating the second is a conflict and leaves the table as it was. */
  method CreateCaseVariants(db: ContactsDatabase, first: ContactInput, second: ContactInput, now: string, later: string)
    returns (o1: Outcome, o2: Outcome)
    requires db.Valid()
    requires ValidateContactData(first).Cleaned? && ValidateContactData(second).Cleaned?
    requires Lower(Strip(first.email.value)) == Lower(Strip(second.email.value))
    modifies db
    ensures o1.Created? || o1 == Conflict
    ensures o2 == Conflict
    ensures db.rows == if o1.Created? then old(db.rows) + [o1.contact] else old(db.rows)
  {
    ghost var email := ValidateContactData(first).data.email;
    assert ValidateContactData(second).data.email == email;
    o1 := CreateContact(db, first, now);
    assert EmailTaken(db.rows, email) by {
      if o1.Created? {
        assert db.rows[|db.rows| - 1].email == email;
      }
    }
    o2 := CreateContact(db, second, later);
  }
}
