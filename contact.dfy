/**
 * The "Get a Quote" contact form of the marketing page: five text fields, a map
 * from field to error message, and the two flags `isSubmitting` and
 * `isSubmitted`. `Validate` is the form's pure validator; `ContactForm` holds
 * the component state that the change handler, the submit handler, the
 * simulated-submission timer and the "Submit Another Request" button update.
 */
module Contact {
  import opened Wrappers
  import Text
  import EmailPattern

  /** The five named inputs of the form. */
  datatype Field = Name | Email | Company | LicenseType | Message

  /** The form's values, as typed (no trimming is ever stored back). */
  datatype Draft = Draft(name: string, email: string, company: string, licenseType: string, message: string)
  {
    /** The value of input `f`. */
    function Get(f: Field): string {
      match f
      case Name => name
      case Email => email
      case Company => company
      case LicenseType => licenseType
      case Message => message
    }

    /** The draft after input `f` reports the new value `v`: that input holds `v`
        and the other four keep their values. */
    function With(f: Field, v: string): (d: Draft)
      ensures d.Get(f) == v
      ensures forall g :: g != f ==> d.Get(g) == Get(g)
    {
      match f
      case Name => this.(name := v)
      case Email => this.(email := v)
      case Company => this.(company := v)
      case LicenseType => this.(licenseType := v)
      case Message => this.(message := v)
    }
  }

  /** The draft at mount and after a completed submission. */
  const EmptyDraft := Draft("", "", "", "", "")

  /** The six error messages `validateForm` can record. */
  datatype ErrorMessage =
    | NameRequired | EmailRequired | EmailInvalid
    | CompanyRequired | LicenseRequired | MessageRequired
  {
    /** The text shown under the field, as the source words each message. */
    function Text(): string {
      match this
      case NameRequired => "Name is required"
      case EmailRequired => "Email is required"
      case EmailInvalid => "Please enter a valid email address"
      case CompanyRequired => "Company name is required"
      case LicenseRequired => "Please select a license type"
      case MessageRequired => "Message is required"
    }
  }

  /** The values the license-type select offers besides its empty placeholder.
      Validation never consults this list. */
  const LicenseOptions := ["enterprise", "cloud", "security", "productivity", "design", "other"]

  /** The messages that validation can attach to field `f`. */
  function MessagesFor(f: Field): set<ErrorMessage> {
    match f
    case Name => {NameRequired}
    case Email => {EmailRequired, EmailInvalid}
    case Company => {CompanyRequired}
    case LicenseType => {LicenseRequired}
    case Message => {MessageRequired}
  }

  /** A draft every rule accepts: name, company and message are not blank, the
      email matches the format expression, and some license type is chosen. */
  ghost predicate Acceptable(d: Draft) {
    && !Text.AllWs(d.name)
    && EmailPattern.MatchesEmailRegex(d.email)
    && !Text.AllWs(d.company)
    && d.licenseType != ""
    && !Text.AllWs(d.message)
  }

  /** The rule `validateForm` applies to field `f`: the message it records, or
      `None` when the field passes. Blank means "only whitespace" (empty after
      `trim()`); the email is tested for blankness after trimming but for format
      as typed, and the two email messages exclude each other; the license type
      is only tested for being the empty string. */
  function FieldError(d: Draft, f: Field): (e: Option<ErrorMessage>)
    ensures e.Some? ==> e.value in MessagesFor(f)
    ensures f == Name ==> (e.Some? <==> Text.AllWs(d.name))
    ensures f == Email ==> (e.Some? <==> !EmailPattern.MatchesEmailRegex(d.email))
    ensures f == Email && e.Some? ==> (e.value == EmailRequired <==> Text.AllWs(d.email))
    ensures f == Company ==> (e.Some? <==> Text.AllWs(d.company))
    ensures f == LicenseType ==> (e.Some? <==> d.licenseType == "")
    ensures f == Message ==> (e.Some? <==> Text.AllWs(d.message))
  {
    match f
    case Name => if Text.Trim(d.name) == [] then Some(NameRequired) else None
    case Email =>
      EmailPattern.EmailShapeIsRegex(d.email);
      EmailPattern.MatchIsNotBlank(d.email);
      if Text.Trim(d.email) == [] then Some(EmailRequired)
      else if !EmailPattern.EmailShape(d.email) then Some(EmailInvalid)
      else None
    case Company => if Text.Trim(d.company) == [] then Some(CompanyRequired) else None
    case LicenseType => if d.licenseType == "" then Some(LicenseRequired) else None
    case Message => if Text.Trim(d.message) == [] then Some(MessageRequired) else None
  }

  const AllFields: set<Field> := {Name, Email, Company, LicenseType, Message}

  /** `validateForm`'s error map, built from nothing on every call: exactly the
      fields whose rule fails are keys, each with its rule's message, so an
      error left over from an earlier attempt on a field that now passes is
      gone. */
  function Validate(d: Draft): (errs: map<Field, ErrorMessage>)
    ensures forall f :: f in errs <==> FieldError(d, f).Some?
    ensures forall f :: f in errs ==> errs[f] == FieldError(d, f).value
  {
    map f | f in AllFields && FieldError(d, f).Some? :: FieldError(d, f).value
  }

  /** The form is valid (`Object.keys(errors).length === 0`) exactly when every
      rule accepts the draft. */
  lemma ValidIffAcceptable(d: Draft)
    ensures |Validate(d)| == 0 <==> Acceptable(d)
  {
    var errs := Validate(d);
    if Acceptable(d) {
      forall f ensures f !in errs { var _ := FieldError(d, f); }
      assert errs.Keys == {};
    } else {
      var _ := FieldError(d, Name);
      var _ := FieldError(d, Email);
      var _ := FieldError(d, Company);
      var _ := FieldError(d, LicenseType);
      var _ := FieldError(d, Message);
    }
  }

  /** The component state of the form and its four transitions. The submit
      handler runs only while the form is shown and its button enabled, the
      change handler only while the form is shown, completion only while a
      submission is pending, and the reset button only on the confirmation. */
  class ContactForm {
    var draft: Draft
    var errors: map<Field, ErrorMessage>
    var isSubmitting: bool
    var isSubmitted: bool

    /** The states the handlers can reach: never submitting and submitted at
        once; no errors while a submission is pending or confirmed; an empty
        draft on the confirmation; every error one its field's rule produces. */
    ghost predicate Valid()
      reads this
    {
      && !(isSubmitting && isSubmitted)
      && (isSubmitting || isSubmitted ==> errors == map[])
      && (isSubmitted ==> draft == EmptyDraft)
      && (forall f :: f in errors ==> errors[f] in MessagesFor(f))
    }

    /** The state at mount: empty fields, no errors, editing. */
    constructor ()
      ensures Valid()
      ensures draft == EmptyDraft && errors == map[]
      ensures !isSubmitting && !isSubmitted
    {
      draft := EmptyDraft;
      errors := map[];
      isSubmitting := false;
      isSubmitted := false;
    }

    /** `handleChange`: the edited field takes the new value and loses its
        error, if it had one; the other fields and errors stay. Inputs stay
        editable while a submission is pending. */
    method Change(f: Field, v: string)
      requires Valid() && !isSubmitted
      modifies this
      ensures Valid()
      ensures draft == old(draft).With(f, v)
      ensures errors == old(errors) - {f}
      ensures isSubmitting == old(isSubmitting) && isSubmitted == old(isSubmitted)
    {
      draft := draft.With(f, v);
      if f in errors {
        errors := errors - {f};
      }
    }

    /** `handleSubmit`: the error map is replaced by a fresh validation of the
        draft; if it is empty the submission starts, otherwise nothing else
        changes. */
    method Submit() returns (accepted: bool)
      requires Valid() && !isSubmitting && !isSubmitted
      modifies this
      ensures Valid()
      ensures errors == Validate(old(draft))
      ensures accepted <==> Acceptable(old(draft))
      ensures isSubmitting == accepted && !isSubmitted
      ensures draft == old(draft)
    {
      errors := Validate(draft);
      ValidIffAcceptable(draft);
      accepted := |errors| == 0;
      if accepted {
        isSubmitting := true;
      }
    }

    /** The simulated submission's timer: the submission ends, the confirmation
        shows, and every field is emptied, including edits made meanwhile. */
    method Complete()
      requires Valid() && isSubmitting
      modifies this
      ensures Valid()
      ensures !isSubmitting && isSubmitted
      ensures draft == EmptyDraft && errors == map[]
    {
      isSubmitting := false;
      isSubmitted := true;
      draft := EmptyDraft;
    }

    /** "Submit Another Request": back to an empty, error-free form. */
    method Reset()
      requires Valid() && isSubmitted
      modifies this
      ensures Valid()
      ensures !isSubmitting && !isSubmitted
      ensures draft == EmptyDraft && errors == map[]
    {
      isSubmitted := false;
    }
  }
}
