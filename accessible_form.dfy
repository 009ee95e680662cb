/**
 The contact form: the record of what the user has entered, the record of the
 last accepted submission, and the error messages shown beside the fields.
 Each change handler replaces one field; submitting either records the error
 messages or accepts the form.
 */
module AccessibleForm {
  import opened Text
  import opened PhoneFormat
  import opened Validation

  /** What the form holds. */
  datatype FormData = FormData(
    name: string,
    email: string,
    phone: string,
    message: string,
    contactMethod: string,
    newsletter: bool)

  /** The keys an error record may carry: the fields of `FormData`. */
  datatype Field = Name | Email | Phone | Message | ContactMethod | Newsletter

  /** The form as the page first shows it. */
  const EmptyForm := FormData("", "", "", "", "", false)

  const NameRequired := "Name is required"
  const EmailRequired := "Email is required"
  const EmailInvalid := "Please enter a valid email address"
  const MessageRequired := "Message is required"
  const ContactMethodRequired := "Please select a contact method"

  /** The outcome of each check `handleSubmit` makes. */
  datatype Checks = Checks(nameBlank: bool, emailBlank: bool, emailShaped: bool,
                           messageBlank: bool, noContactMethod: bool)

  /** The checks run on the form `f`. */
  function RunChecks(f: FormData): Checks {
    Checks(IsBlank(f.name), IsBlank(f.email), IsEmailShaped(f.email),
           IsBlank(f.message), f.contactMethod == "")
  }

  /** The message field `k` gets for the outcomes `c`, if any. */
  function FieldError(c: Checks, k: Field): (r: Option<string>)
    ensures r.Some? ==> k in {Name, Email, Message, ContactMethod}
  {
    match k
    case Name => if c.nameBlank then Some(NameRequired) else None
    case Email =>
      if c.emailBlank then Some(EmailRequired)
      else if !c.emailShaped then Some(EmailInvalid)
      else None
    case Message => if c.messageBlank then Some(MessageRequired) else None
    case ContactMethod => if c.noContactMethod then Some(ContactMethodRequired) else None
    case Phone => None
    case Newsletter => None
  }

  /**
   The error record for the outcomes `c`: an entry for each failing field
   with that field's message, and no entry for the phone number or the
   newsletter box. The email's second message applies only when the field is
   not blank.
   */
  function ErrorRecord(c: Checks): (e: map<Field, string>)
    ensures Name in e <==> c.nameBlank
    ensures Email in e <==> c.emailBlank || !c.emailShaped
    ensures Message in e <==> c.messageBlank
    ensures ContactMethod in e <==> c.noContactMethod
    ensures Phone !in e && Newsletter !in e
    ensures Name in e ==> e[Name] == NameRequired
    ensures Email in e ==> e[Email] == if c.emailBlank then EmailRequired else EmailInvalid
    ensures Message in e ==> e[Message] == MessageRequired
    ensures ContactMethod in e ==> e[ContactMethod] == ContactMethodRequired
  {
    map k | k in {Name, Email, Message, ContactMethod} && FieldError(c, k).Some? :: FieldError(c, k).value
  }

  /**
   The error record a submission of `f` produces: a text field fails when it
   is blank after trimming; the email also fails, with its own message, when
   the shape test rejects it; the contact method fails when none is chosen.
   */
  function Validate(f: FormData): (e: map<Field, string>)
    ensures Name in e <==> IsBlank(f.name)
    ensures Email in e <==> IsBlank(f.email) || !IsEmailShaped(f.email)
    ensures Message in e <==> IsBlank(f.message)
    ensures ContactMethod in e <==> f.contactMethod == ""
    ensures Phone !in e && Newsletter !in e
    ensures Name in e ==> e[Name] == NameRequired
    ensures Email in e ==> e[Email] == if IsBlank(f.email) then EmailRequired else EmailInvalid
    ensures Message in e ==> e[Message] == MessageRequired
    ensures ContactMethod in e ==> e[ContactMethod] == ContactMethodRequired
  {
    ErrorRecord(RunChecks(f))
  }

  /**
   The error record in terms of the fields' contents: name and message fail
   when they hold only whitespace (or nothing); the email fails with
   'Email is required' when it holds only whitespace and with 'Please enter a
   valid email address' when it is otherwise not of the form `L@A.B`.
   */
  lemma ValidateReportsFailingFields(f: FormData)
    ensures Name in Validate(f) <==> AllWhitespace(f.name)
    ensures Message in Validate(f) <==> AllWhitespace(f.message)
    ensures Email in Validate(f) <==> AllWhitespace(f.email) || !MatchesEmailPattern(f.email)
    ensures Email in Validate(f) ==>
              Validate(f)[Email] == if AllWhitespace(f.email) then EmailRequired else EmailInvalid
  {
    BlankIffAllWhitespace(f.name);
    BlankIffAllWhitespace(f.message);
    BlankIffAllWhitespace(f.email);
    EmailTestMatchesPattern(f.email);
  }

  /**
   A submission is accepted exactly when the name and the message hold a
   non-whitespace character, the email is of the form `L@A.B` and a contact
   method is chosen.
   */
  lemma AcceptedIffWellFormed(f: FormData)
    ensures Validate(f) == map[] <==>
              && !AllWhitespace(f.name) && !AllWhitespace(f.message)
              && MatchesEmailPattern(f.email) && f.contactMethod != ""
  {
    BlankIffAllWhitespace(f.name);
    BlankIffAllWhitespace(f.message);
    BlankIffAllWhitespace(f.email);
    EmailTestMatchesPattern(f.email);
    NoErrorsIffAllPass(RunChecks(f));
    assert MatchesEmailPattern(f.email) ==> !AllWhitespace(f.email) by {
      if MatchesEmailPattern(f.email) {
        var i, j :| EmailSplit(f.email, i, j);
        assert f.email[..i][0] == f.email[0];
      }
    }
  }

  /** The error record is empty exactly when every check passes. */
  lemma NoErrorsIffAllPass(c: Checks)
    ensures ErrorRecord(c) == map[] <==>
              !c.nameBlank && !c.emailBlank && c.emailShaped && !c.messageBlank && !c.noContactMethod
  {
    var e := ErrorRecord(c);
    if !c.nameBlank && !c.emailBlank && c.emailShaped && !c.messageBlank && !c.noContactMethod {
      assert e.Keys == {};
    }
  }

  class ContactForm {
    var formData: FormData
    var submittedData: Option<FormData>
    var errors: map<Field, string>

    constructor ()
      ensures formData == EmptyForm && submittedData == None && errors == map[]
    {
      formData := EmptyForm;
      submittedData := None;
      errors := map[];
    }

    method SetName(value: string)
      modifies this`formData
      ensures formData == old(formData).(name := value)
    {
      formData := formData.(name := value);
    }

    method SetEmail(value: string)
      modifies this`formData
      ensures formData == old(formData).(email := value)
    {
      formData := formData.(email := value);
    }

    /**
     `handlePhoneChange`: the field keeps the formatted value, which for at
     most ten digits fits the field's 12 characters.
     */
    method HandlePhoneChange(value: string)
      modifies this`formData
      ensures formData == old(formData).(phone := FormatPhoneNumber(value))
      ensures |StripNonDigits(value)| <= 10 ==> |formData.phone| <= 12
    {
      var formatted := FormatPhoneNumber(value);
      if |StripNonDigits(value)| <= 10 {
        FormatWellFormed(value);
      }
      formData := formData.(phone := formatted);
    }

    method SetMessage(value: string)
      modifies this`formData
      ensures formData == old(formData).(message := value)
    {
      formData := formData.(message := value);
    }

    method SetContactMethod(value: string)
      modifies this`formData
      ensures formData == old(formData).(contactMethod := value)
    {
      formData := formData.(contactMethod := value);
    }

    method SetNewsletter(checked: bool)
      modifies this`formData
      ensures formData == old(formData).(newsletter := checked)
    {
      formData := formData.(newsletter := checked);
    }

    /**
     `handleSubmit`: with any failing field the error record is replaced and
     the previous submission stays as it was; otherwise the current form
     becomes the submission and the errors are cleared. The form itself is
     never changed.
     */
    method HandleSubmit()
      modifies this`errors, this`submittedData
      ensures |Validate(old(formData))| > 0 ==> errors == Validate(old(formData))
      ensures |Validate(old(formData))| > 0 ==> submittedData == old(submittedData)
      ensures |Validate(old(formData))| == 0 ==> errors == map[] && submittedData == Some(old(formData))
    {
      var newErrors := CollectErrors(formData);
      if |newErrors| > 0 {
        errors := newErrors;
        return;
      }
      submittedData := Some(formData);
      errors := map[];
    }
  }

  /**
   The first half of `handleSubmit`: run the checks on `f` and collect the
   error record.
   */
  method CollectErrors(f: FormData) returns (newErrors: map<Field, string>)
    ensures newErrors == Validate(f)
  {
    newErrors := FillErrors(RunChecks(f));
  }

  /**
   The error record filled field by field from the outcomes of the checks,
   in the order `handleSubmit` makes them.
   */
  method FillErrors(c: Checks) returns (newErrors: map<Field, string>)
    ensures newErrors == ErrorRecord(c)
  {
    newErrors := map[];
    if c.nameBlank {
      newErrors := newErrors[Name := NameRequired];
    }
    if c.emailBlank {
      newErrors := newErrors[Email := EmailRequired];
    } else if !c.emailShaped {
      newErrors := newErrors[Email := EmailInvalid];
    }
    if c.messageBlank {
      newErrors := newErrors[Message := MessageRequired];
    }
    if c.noContactMethod {
      newErrors := newErrors[ContactMethod := ContactMethodRequired];
    }
    assert newErrors.Keys == ErrorRecord(c).Keys;
    assert forall k | k in newErrors :: newErrors[k] == ErrorRecord(c)[k];
  }
}
