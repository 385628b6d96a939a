/**
 * Concrete inputs run through the contact form's validator and state machine.
 */
module ContactExamples {
  import opened Wrappers
  import Text
  import EmailPattern
  import opened Contact

  /** The example request used throughout: every field filled in. */
  const JaneDoe := Draft("Jane Doe", "jane@x.com", "Acme", "enterprise", "sell these")

  /** `a@b.co` has the email shape: its first `@` is at 1 and `b.co` is one run
      with a dot inside. */
  lemma ShortAddressHasShape()
    ensures EmailPattern.EmailShape("a@b.co")
  {
    assert EmailPattern.IndexOf("a@b.co", '@') == Some(1) by {
      assert "a@b.co"[1] == '@';
    }
    EmailPattern.PrintableRun("a");
    EmailPattern.PrintableRun("b.co");
    assert "a@b.co"[..1] == "a" && "a@b.co"[2..] == "b.co";
    assert "b.co"[1] == '.';
  }

  /** Without an `@`, as in `not-an-email` or the empty string, there is no
      email shape. */
  lemma NoAtSignNoShape()
    ensures !EmailPattern.EmailShape("not-an-email")
    ensures !EmailPattern.EmailShape("")
  {
    assert '@' !in "not-an-email";
  }

  /** ` a@b.co` is not blank, yet its leading space is no `[^\s@]` character. */
  lemma LeadingSpaceAddress()
    ensures !Text.AllWs(" a@b.co")
    ensures !EmailPattern.MatchesEmailRegex(" a@b.co")
  {
    var s := " a@b.co";
    assert !Text.IsWs(s[1]);
    EmailPattern.LeadingWsNeverMatches(s);
  }

  /** A leading space passes the "required" rule (which trims) but fails the
      format rule (which does not), so the form reports the format message,
      whatever the other fields hold. */
  lemma LeadingSpaceEmail(d: Draft)
    requires d.email == " a@b.co"
    ensures Email in Validate(d) && Validate(d)[Email] == EmailInvalid
  {
    LeadingSpaceAddress();
  }

  /** An empty email gets "Email is required", not the format message. */
  lemma EmptyEmail(d: Draft)
    requires d.email == ""
    ensures Email in Validate(d) && Validate(d)[Email] == EmailRequired
    ensures Validate(d)[Email].Text() == "Email is required"
  {
  }

  /** A value of blanks only is required-field empty although it is not "". */
  lemma BlankNameFails(d: Draft)
    requires d.name == " \t\n"
    ensures Name in Validate(d) && Validate(d)[Name] == NameRequired
  {
  }

  /** The license type is checked only for being non-empty: a value that is not
      one of the select's options passes that rule. */
  lemma LicenseTypeOnlyNonEmpty(d: Draft)
    requires d.licenseType == "freeware"
    ensures d.licenseType !in LicenseOptions
    ensures LicenseType !in Validate(d)
  {
  }

  /** The example address splits as `jane`, `@`, `x`, `.`, `com`. */
  lemma JaneEmailMatches()
    ensures EmailPattern.MatchesEmailRegex(JaneDoe.email)
  {
    var s := JaneDoe.email;
    EmailPattern.PrintableRun(s[..4]);
    EmailPattern.PrintableRun(s[5..6]);
    EmailPattern.PrintableRun(s[7..]);
    assert s[4] == '@' && s[6] == '.';
  }

  /** The complete example request passes every rule. */
  lemma JaneDoeIsValid()
    ensures Acceptable(JaneDoe)
    ensures Validate(JaneDoe) == map[]
  {
    assert !Text.IsWs(JaneDoe.name[0]);
    assert !Text.IsWs(JaneDoe.company[0]);
    assert !Text.IsWs(JaneDoe.message[0]);
    JaneEmailMatches();
    ValidIffAcceptable(JaneDoe);
  }

  /** A full pass through the form with any request that passes every rule
      (`JaneDoeIsValid` shows one exists): submitting the empty form is refused,
      editing a field clears that field's error only, a valid submit starts the
      submission, edits made while it is pending are wiped by completion, and
      "Submit Another Request" returns to an empty form. */
  method Scenario(d: Draft)
    requires Acceptable(d)
  {
    var form := new ContactForm();
    var accepted := form.Submit();
    EmptyEmail(EmptyDraft);
    assert !accepted && form.errors[Email] == EmailRequired;

    form.Change(Email, d.email);
    assert Email !in form.errors;
    form.Change(Name, d.name);
    form.Change(Company, d.company);
    form.Change(LicenseType, d.licenseType);
    form.Change(Message, d.message);
    assert form.draft.Get(Name) == d.name && form.draft.Get(Email) == d.email;
    assert form.draft.Get(Company) == d.company && form.draft.Get(LicenseType) == d.licenseType;
    assert form.draft.Get(Message) == d.message;
    assert form.draft == d;

    accepted := form.Submit();
    assert accepted && form.isSubmitting && form.errors == map[];

    form.Change(Message, d.message + d.name);
    form.Complete();
    assert form.isSubmitted && form.draft == EmptyDraft;

    form.Reset();
    assert !form.isSubmitting && !form.isSubmitted;
  }
}
