/** The request model of the CRM API (exam-solutions/assignment5/models.py): the `ContactBase`
    field constraints and its four validators. The length constraints of `Field(...)` are checked on
    the value as received; the `@validator` then checks and normalises it. */
module ContactModels {
  import opened Wrappers
  import opened Text
  import opened ContactsStore

  /** A contact body as received; `None` stands for a key that is missing or `null`. */
  datatype ContactInput = ContactInput(name: Option<string>, email: Option<string>, phone: Option<string>, company: Option<string>)

  /** What pydantic reports about one field. */
  datatype ErrorKind =
    | Missing                 // a required field that is absent or null
    | TooShort(minLength: nat)
    | TooLong(maxLength: nat)
    | ValueError(message: string)   // raised by a validator

  datatype FieldError = FieldError(field: string, kind: ErrorKind)

  const MaxNameLength: nat := 100
  const MaxPhoneLength: nat := 20
  const MaxCompanyLength: nat := 100

  /** `name: str = Field(..., min_length=1, max_length=100)` and `name_must_not_be_empty`. */
  function ValidateName(v: Option<string>): (r: Result<string, ErrorKind>)
    ensures r.Success? <==> v.Some? && 1 <= |v.value| <= MaxNameLength && !AllSpace(v.value)
    ensures r.Success? ==> r.value == Strip(v.value) && r.value != []
    ensures v.Some? && 1 <= |v.value| <= MaxNameLength && AllSpace(v.value) ==> r == Failure(ValueError("Name cannot be empty"))
  {
    match v
    case None => Failure(Missing)
    case Some(s) =>
      StripEmptyIff(s);
      if |s| < 1 then Failure(TooShort(1))
      else if |s| > MaxNameLength then Failure(TooLong(MaxNameLength))
      else if s == [] || Strip(s) == [] then Failure(ValueError("Name cannot be empty"))
      else Success(Strip(s))
  }

  /** `email: str = Field(...)` and `email_must_contain_at`: the '@' test is made on the value as received,
      the result is lower-cased and then stripped. */
  function ValidateEmail(v: Option<string>): (r: Result<string, ErrorKind>)
    ensures r.Success? <==> v.Some? && '@' in v.value
    ensures r.Success? ==> r.value == Lower(Strip(v.value)) && '@' in r.value
  {
    match v
    case None => Failure(Missing)
    case Some(s) =>
      if '@' !in s then Failure(ValueError("Email must contain \"@\" symbol"))
      else
        StripLowerKeeps(s, '@');
        Success(Strip(Lower(s)))
  }

  /** An optional text field with a length bound, then `v.strip()` unless `v is None`. */
  function ValidateOptional(v: Option<string>, maxLength: nat): (r: Result<Option<string>, ErrorKind>)
    ensures v.None? ==> r == Success(None)
    ensures v.Some? ==> (r.Success? <==> |v.value| <= maxLength)
    ensures v.Some? && r.Success? ==> r.value == Some(Strip(v.value))
  {
    match v
    case None => Success(None)
    case Some(s) => if |s| > maxLength then Failure(TooLong(maxLength)) else Success(Some(Strip(s)))
  }

  /** `phone: Optional[str] = Field(None, max_length=20)` and `validate_phone`. */
  function ValidatePhone(v: Option<string>): (r: Result<Option<string>, ErrorKind>)
    ensures r.Success? <==> v.None? || |v.value| <= MaxPhoneLength
    ensures r.Success? && r.value.Some? ==> v.Some? && r.value.value == Strip(v.value) && |r.value.value| <= MaxPhoneLength
    ensures r.Success? && r.value.None? ==> v.None?
  {
    ValidateOptional(v, MaxPhoneLength)
  }

  /** `company: Optional[str] = Field(None, max_length=100)` and `validate_company`. */
  function ValidateCompany(v: Option<string>): (r: Result<Option<string>, ErrorKind>)
    ensures r.Success? <==> v.None? || |v.value| <= MaxCompanyLength
    ensures r.Success? && r.value.Some? ==> v.Some? && r.value.value == Strip(v.value) && |r.value.value| <= MaxCompanyLength
    ensures r.Success? && r.value.None? ==> v.None?
  {
    ValidateOptional(v, MaxCompanyLength)
  }

  function ErrorsOf<T>(field: string, r: Result<T, ErrorKind>): seq<FieldError>
  {
    if r.Failure? then [FieldError(field, r.error)] else []
  }

  lemma ReportedConcat(a: seq<FieldError>, b: seq<FieldError>, field: string)
    ensures Reported(a + b, field) <==> Reported(a, field) || Reported(b, field)
  {
    if Reported(a + b, field) {
      var k :| 0 <= k < |a + b| && (a + b)[k].field == field;
      if k >= |a| {
        assert b[k - |a|].field == field;
      }
    }
    if Reported(a, field) {
      var k :| 0 <= k < |a| && a[k].field == field;
      assert (a + b)[k].field == field;
    }
    if Reported(b, field) {
      var k :| 0 <= k < |b| && b[k].field == field;
      assert (a + b)[|a| + k].field == field;
    }
  }

  lemma ReportedErrorsOf<T>(name: string, r: Result<T, ErrorKind>, field: string)
    ensures Reported(ErrorsOf(name, r), field) <==> r.Failure? && name == field
  {
    if r.Failure? && name == field {
      assert ErrorsOf(name, r)[0].field == field;
    }
  }

  /** The errors of the four fields, in field order. */
  function Collect(name: Result<string, ErrorKind>, email: Result<string, ErrorKind>,
                   phone: Result<Option<string>, ErrorKind>, company: Result<Option<string>, ErrorKind>): seq<FieldError>
  {
    ErrorsOf("name", name) + ErrorsOf("email", email) + ErrorsOf("phone", phone) + ErrorsOf("company", company)
  }

  lemma CollectReports(name: Result<string, ErrorKind>, email: Result<string, ErrorKind>,
                       phone: Result<Option<string>, ErrorKind>, company: Result<Option<string>, ErrorKind>)
    ensures var errors := Collect(name, email, phone, company);
      && |errors| == (if name.Failure? then 1 else 0) + (if email.Failure? then 1 else 0)
                     + (if phone.Failure? then 1 else 0) + (if company.Failure? then 1 else 0)
      && (errors == [] <==> name.Success? && email.Success? && phone.Success? && company.Success?)
      && (Reported(errors, "name") <==> name.Failure?)
      && (Reported(errors, "email") <==> email.Failure?)
      && (Reported(errors, "phone") <==> phone.Failure?)
      && (Reported(errors, "company") <==> company.Failure?)
      && (name.Failure? ==> errors[0] == FieldError("name", name.error))
  {
    var one := ErrorsOf("name", name);
    var two := one + ErrorsOf("email", email);
    var three := two + ErrorsOf("phone", phone);
    forall f | f in ["name", "email", "phone", "company"]
      ensures Reported(three + ErrorsOf("company", company), f) <==>
        || (f == "name" && name.Failure?) || (f == "email" && email.Failure?)
        || (f == "phone" && phone.Failure?) || (f == "company" && company.Failure?)
    {
      ReportedErrorsOf("name", name, f);
      ReportedErrorsOf("email", email, f);
      ReportedErrorsOf("phone", phone, f);
      ReportedErrorsOf("company", company, f);
      ReportedConcat(one, ErrorsOf("email", email), f);
      ReportedConcat(two, ErrorsOf("phone", phone), f);
      ReportedConcat(three, ErrorsOf("company", company), f);
    }
  }

  /** Some error in `errors` is about `field`. */
  predicate Reported(errors: seq<FieldError>, field: string)
  {
    exists k | 0 <= k < |errors| :: errors[k].field == field
  }

  /** Validating a `ContactBase`: every field is checked, the errors are reported together in field order,
      and the model is built only when no field failed. */
  function ValidateContactBase(d: ContactInput): (r: Result<ContactData, seq<FieldError>>)
    ensures r.Success? <==>
      ValidateName(d.name).Success? && ValidateEmail(d.email).Success? &&
      ValidatePhone(d.phone).Success? && ValidateCompany(d.company).Success?
    ensures r.Success? ==> r.value == ContactData(ValidateName(d.name).value, ValidateEmail(d.email).value,
                                                  ValidatePhone(d.phone).value, ValidateCompany(d.company).value)
    ensures r.Failure? ==>
      && 1 <= |r.error| <= 4
      && |r.error| == (if ValidateName(d.name).Failure? then 1 else 0) + (if ValidateEmail(d.email).Failure? then 1 else 0)
                      + (if ValidatePhone(d.phone).Failure? then 1 else 0) + (if ValidateCompany(d.company).Failure? then 1 else 0)
      && (Reported(r.error, "name") <==> ValidateName(d.name).Failure?)
      && (Reported(r.error, "email") <==> ValidateEmail(d.email).Failure?)
      && (Reported(r.error, "phone") <==> ValidatePhone(d.phone).Failure?)
      && (Reported(r.error, "company") <==> ValidateCompany(d.company).Failure?)
      && (ValidateName(d.name).Failure? ==> r.error[0] == FieldError("name", ValidateName(d.name).error))
  {
    var name := ValidateName(d.name);
    var email := ValidateEmail(d.email);
    var phone := ValidatePhone(d.phone);
    var company := ValidateCompany(d.company);
    var errors := Collect(name, email, phone, company);
    CollectReports(name, email, phone, company);
    if errors != [] then Failure(errors)
    else Success(ContactData(name.value, email.value, phone.value, company.value))
  }
}
