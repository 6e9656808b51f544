/** The visitor record, the outcomes a handler reports, and the input checks
    made before anything touches the visitors table. */
module Visitors {
  import opened Wrappers
  import opened Time

  /** The `status` column. Only INSIDE and EXITED are ever written by the
      handlers; `Other` stands for any other value the column could hold. */
  datatype Status = Inside | Exited | Other(text: string)

  /** One row of the `visitors` table. */
  datatype Visitor = Visitor(
    id: int,
    name: string,
    contact: string,
    idProof: string,
    purpose: string,
    personToMeet: string,
    checkIn: Option<Stamp>,
    checkOut: Option<Stamp>,
    status: Status,
    createdAt: Stamp)

  /** The registration form as submitted; `None` is a field absent from the request. */
  datatype Form = Form(
    name: Option<string>,
    contact: Option<string>,
    idProof: Option<string>,
    purpose: Option<string>,
    personToMeet: Option<string>)

  /** The five validated registration fields. */
  datatype Entry = Entry(
    name: string,
    contact: string,
    idProof: string,
    purpose: string,
    personToMeet: string)

  /** Error messages a handler flashes. */
  datatype Problem =
    | MissingFields       // "Please fill all fields"
    | InvalidContact      // "Please enter a valid contact number"
    | MissingVisitorId    // "Please enter visitor ID"
    | MustCheckInFirst    // "Visitor needs to check in first"
    | MissingCredentials  // "Please enter both username and password"

  /** Warning messages a handler flashes. */
  datatype Notice = AlreadyCheckedIn | AlreadyCheckedOut

  /** What a registration, check-in or check-out request reports. */
  datatype Outcome = Ok(id: int) | Warning(notice: Notice) | NotFound | Invalid(problem: Problem)

  /** Python truthiness of a form value: present and not the empty string. */
  predicate Filled(field: Option<string>) {
    field.Some? && field.value != ""
  }

  predicate IsDigit(c: char) {
    '0' <= c <= '9'
  }

  /** Every character is a digit (true of the empty string). */
  predicate AllDigits(s: string) {
    s == [] || (IsDigit(s[0]) && AllDigits(s[1..]))
  }

  /** `str.isdigit()`: non-empty and made of digits only. */
  predicate IsDigitString(s: string) {
    s != [] && AllDigits(s)
  }

  /** The contact check of registration: digits only, at least ten of them. */
  predicate ValidContact(contact: string) {
    IsDigitString(contact) && |contact| >= 10
  }

  lemma {:induction false} AllDigitsMeansEveryChar(s: string)
    ensures AllDigits(s) <==> forall i :: 0 <= i < |s| ==> IsDigit(s[i])
  {
    if s != [] {
      AllDigitsMeansEveryChar(s[1..]);
      assert forall i :: 1 <= i < |s| ==> s[i] == s[1..][i - 1];
    }
  }

  /** A contact passes exactly when it has at least ten characters and every
      one of them is a digit; there is no upper bound on the length. */
  lemma ContactRule(contact: string)
    ensures ValidContact(contact) <==> |contact| >= 10 && forall i :: 0 <= i < |contact| ==> IsDigit(contact[i])
  {
    AllDigitsMeansEveryChar(contact);
  }

  /** The checks `register` makes before inserting: all five fields filled,
      then the contact rule. */
  function ValidateRegistration(form: Form): (r: Result<Entry, Problem>)
    ensures r == Failure(MissingFields) <==>
      !(Filled(form.name) && Filled(form.contact) && Filled(form.idProof)
        && Filled(form.purpose) && Filled(form.personToMeet))
    ensures r == Failure(InvalidContact) <==>
      Filled(form.name) && Filled(form.contact) && Filled(form.idProof)
      && Filled(form.purpose) && Filled(form.personToMeet) && !ValidContact(form.contact.value)
    ensures r.Success? ==>
      && Some(r.value.name) == form.name && Some(r.value.contact) == form.contact
      && Some(r.value.idProof) == form.idProof && Some(r.value.purpose) == form.purpose
      && Some(r.value.personToMeet) == form.personToMeet
      && r.value.name != "" && r.value.idProof != "" && r.value.purpose != "" && r.value.personToMeet != ""
      && ValidContact(r.value.contact)
  {
    if !(Filled(form.name) && Filled(form.contact) && Filled(form.idProof)
         && Filled(form.purpose) && Filled(form.personToMeet)) then
      Failure(MissingFields)
    else if !ValidContact(form.contact.value) then
      Failure(InvalidContact)
    else
      Success(Entry(form.name.value, form.contact.value, form.idProof.value,
                    form.purpose.value, form.personToMeet.value))
  }

  /** The guard at the top of `login`: both fields must be filled before any
      credential is looked up. */
  function CheckLoginFields(username: Option<string>, password: Option<string>): (r: Result<(string, string), Problem>)
    ensures r.Failure? <==> !Filled(username) || !Filled(password)
    ensures r.Failure? ==> r.error == MissingCredentials
    ensures r.Success? ==> r.value == (username.value, password.value) && r.value.0 != "" && r.value.1 != ""
  {
    if !Filled(username) || !Filled(password) then Failure(MissingCredentials)
    else Success((username.value, password.value))
  }
}
