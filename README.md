# SoftSell marketing page: contact form and scroll reveal, in Dafny

The page is a React single-page site. Two parts of it have state and rules:

- **The "Get a Quote" contact form** (`ContactSection`). It holds five text fields (name, email, company, license type, message), a map from field to error message, and the flags `isSubmitting` and `isSubmitted`.
  - Editing a field stores the value and clears that field's error.
  - Submitting rebuilds the error map from scratch. If the map is empty, a simulated submission starts.
  - When the submission's timer fires, the confirmation is shown and every field is emptied.
  - "Submit Another Request" goes back to the form.
- **The scroll-reveal effect.** Hero, How It Works, Why Choose Us, Testimonials and Contact each mount the same effect. An `IntersectionObserver` watches the section's `.animate-on-scroll` elements. Each entry that reports `isIntersecting` adds `animate-visible` to its target, and nothing ever removes it. On unmount the effect unobserves the elements it captured.

The five copies of the effect are textually identical. The model has one generic class for them:
- `src/components/sections/HeroSection.tsx:7-25`
- `src/components/sections/HowItWorksSection.tsx:32-50`
- `src/components/sections/WhyChooseUsSection.tsx:26-44`
- `src/components/sections/TestimonialsSection.tsx:43-61`
- `src/components/sections/ContactSection.tsx:33-51`

The rows below cite whichever copy fits best.

Files:
- `wrappers.dfy`: `Option`.
- `text.dfy`: whitespace and `trim()`.
- `email.dfy`: the email regular expression.
- `contact.dfy`: fields, drafts, validation and the `ContactForm` class.
- `contact_examples.dfy`: concrete inputs and `Scenario`, a client run of the form.
- `reveal.dfy`: the reveal controller, and `Lifecycle`, a client run of one mount.

Whitespace is one predicate, `Text.IsWs`. It is the union of WhiteSpace and LineTerminator from ECMA-262 (sections 12.2 and 12.3), which is the set that both `String.prototype.trim` and the regex class `\s` use.

The email rule `^[^\s@]+@[^\s@]+\.[^\s@]+$` appears twice:
- as a language, `EmailPattern.MatchesEmailRegex`: a split of the whole string into three `[^\s@]` runs around an `@` and a `.`;
- as a direct check, `EmailPattern.EmailShape`.

`EmailShapeIsRegex` proves the two agree.

The six messages `validateForm` can record are the constructors of `Contact.ErrorMessage`. Its `Text` function gives the wording the form shows. The error map holds these constructors, not the strings.

Some details of the code that the model follows:
- The license type is only checked for being non-empty (`ContactSection.tsx:86-88`). It is not checked against the six select options.
- The email's format is tested on the untrimmed value (`ContactSection.tsx:78`). Only its "required" check trims.
- The code has no submission-failure path, so none is modelled.
- Nothing clears the error map when the timer fires (`ContactSection.tsx:105-117`). It is already empty, because a submission starts only after a validation with no errors, and every method preserves `ContactForm.Valid`.

## Model

| member | source | states |
|---|---|---|
| Text.LeadingWs | src/components/sections/ContactSection.tsx:72 | the count of leading characters that are whitespace: all of them are, and the next character (if any) is not |
| Text.TrailingWsStart | src/components/sections/ContactSection.tsx:72 | where the trailing whitespace begins: everything from there on is whitespace, and the character just before (if any) is not |
| Text.Trim | src/components/sections/ContactSection.tsx:72 | `trim()` is empty exactly when the value is all whitespace (so `!x.trim()` means "blank"). Otherwise both of its ends are non-whitespace. It is one contiguous run of the value, and only whitespace is dropped on either side |
| EmailPattern.IndexOf | src/components/sections/ContactSection.tsx:78 | finds the first `@`: `None` iff there is no `@`; otherwise the position holds `@` and no earlier position does |
| EmailPattern.EmailShapeIsRegex | src/components/sections/ContactSection.tsx:78 | the executable format check accepts exactly the strings in the language of `^[^\s@]+@[^\s@]+\.[^\s@]+$` |
| EmailPattern.ShapeMatches | src/components/sections/ContactSection.tsx:78 | the format check's first `@` and inner dot give a split of the regular expression |
| EmailPattern.MatchHasShape | src/components/sections/ContactSection.tsx:78 | any split of the regular expression puts its `@` first, so the format check accepts the string |
| EmailPattern.MatchIsNotBlank | src/components/sections/ContactSection.tsx:76-80 | a matching address is never blank, so "Email is required" and "Please enter a valid email address" cannot both apply |
| EmailPattern.LeadingWsNeverMatches | src/components/sections/ContactSection.tsx:78 | the regex is tested on the untrimmed value, so a value that starts with whitespace never matches |
| Contact.Draft.With | src/components/sections/ContactSection.tsx:53-58 | editing one field sets that field to the new value and leaves the other four unchanged |
| Contact.FieldError | src/components/sections/ContactSection.tsx:72-92 | the rule for each field. Name, company and message fail iff they are blank. Email fails iff it does not match the regex, with "Email is required" iff it is blank and "Please enter a valid email address" otherwise. License type fails iff it is "". Every message is one the source uses for that field |
| Contact.Validate | src/components/sections/ContactSection.tsx:69-94 | the error map is rebuilt from nothing: its keys are exactly the failing fields, each carrying its rule's message, so stale errors for fields that now pass disappear |
| Contact.ValidIffAcceptable | src/components/sections/ContactSection.tsx:94-95 | validation succeeds (the map has no keys) iff the name, company and message are non-blank, the email matches the regex and a license type is chosen |
| Contact.ContactForm.constructor | src/components/sections/ContactSection.tsx:22-31 | mount state: empty draft, no errors, neither submitting nor submitted |
| Contact.ContactForm.Change | src/components/sections/ContactSection.tsx:53-66 | the edited field takes the value and loses its error. Other fields, other errors and both flags are unchanged. This is allowed while submitting (only the button is disabled) but not on the confirmation |
| Contact.ContactForm.Submit | src/components/sections/ContactSection.tsx:98-103 | only while editing (the button is disabled while submitting, and the form is not rendered once submitted). Errors become the validation of the draft. Accepted iff the draft passes every rule, and then `isSubmitting` is set. A rejected submit changes only the errors. The draft never changes. The invariant is kept |
| Contact.ContactForm.Complete | src/components/sections/ContactSection.tsx:105-117 | the timer body, only while submitting: `isSubmitting` is cleared, `isSubmitted` is set and all five fields are emptied (including edits made meanwhile). Errors are empty |
| Contact.ContactForm.Reset | src/components/sections/ContactSection.tsx:139-140 | "Submit Another Request", only on the confirmation: back to editing with an empty draft and no errors, so submitting and submitted are never both true |
| ContactExamples.ShortAddressHasShape | src/components/sections/ContactSection.tsx:78 | `a@b.co` passes the format check |
| ContactExamples.NoAtSignNoShape | src/components/sections/ContactSection.tsx:78 | `not-an-email` and the empty string fail the format check |
| ContactExamples.LeadingSpaceAddress | src/components/sections/ContactSection.tsx:76-78 | ` a@b.co` is not blank, and it does not match the regex |
| ContactExamples.LeadingSpaceEmail | src/components/sections/ContactSection.tsx:76-80 | an email of ` a@b.co` passes the required check but gets "Please enter a valid email address" |
| ContactExamples.EmptyEmail | src/components/sections/ContactSection.tsx:76-77 | an empty email gets `EmailRequired`, whose text is "Email is required" |
| ContactExamples.BlankNameFails | src/components/sections/ContactSection.tsx:72-74 | a name of blanks only gets "Name is required" |
| ContactExamples.LicenseTypeOnlyNonEmpty | src/components/sections/ContactSection.tsx:86-88 | a license type that is not one of the select's options still passes |
| ContactExamples.JaneEmailMatches | src/components/sections/ContactSection.tsx:78 | `jane@x.com` matches the regex |
| ContactExamples.JaneDoeIsValid | src/components/sections/ContactSection.tsx:69-95 | a fully filled-in request passes every rule and yields an empty error map |
| RevealOnScroll.Intersecting | src/components/sections/HeroSection.tsx:10-13 | an element is a target of the batch's intersecting entries iff some entry names it with `isIntersecting` true |
| RevealOnScroll.Revealed | src/components/sections/HowItWorksSection.tsx:35-38 | after a batch, the revealed set contains the old one (nothing is un-revealed), every intersecting target, and nothing else new |
| RevealOnScroll.RevealedIdempotent | src/components/sections/WhyChooseUsSection.tsx:31 | delivering the same batch again changes nothing, because `classList.add` has set semantics |
| RevealOnScroll.NonIntersectingChangesNothing | src/components/sections/TestimonialsSection.tsx:47-48 | a batch with no intersecting entry leaves the revealed set unchanged |
| RevealOnScroll.RevealedInBatches | src/components/sections/HeroSection.tsx:9-14 | two batches in a row reveal exactly what their concatenation reveals |
| RevealOnScroll.RevealedOrderFree | src/components/sections/HowItWorksSection.tsx:36-37 | any reordering of a batch reveals the same elements |
| RevealOnScroll.RevealController.constructor | src/components/sections/ContactSection.tsx:34-43 | a fresh observer observes nothing and has revealed nothing |
| RevealOnScroll.RevealController.Attach | src/components/sections/WhyChooseUsSection.tsx:38-39 | at mount, exactly the `.animate-on-scroll` elements found under the section are observed; a missing section ref observes nothing; revealed is unchanged |
| RevealOnScroll.RevealController.OnEntries | src/components/sections/TestimonialsSection.tsx:45-50 | the callback on one batch adds exactly the intersecting targets to the revealed set; observation is unchanged; only observed elements are ever revealed |
| RevealOnScroll.RevealController.Detach | src/components/sections/HeroSection.tsx:22-24 | cleanup removes exactly the captured elements from observation, leaving nothing observed; revealed is unchanged; a second call changes nothing |

## Left out

- Rendering: the JSX markup, CSS classes, icons and the `delay-${delay}` class names are presentation only.
- Files outside the model: `src/App.tsx` (dark-mode toggle over `localStorage`), `src/components/layout/Header.tsx` (scroll listener, menu toggle) and `src/components/layout/Footer.tsx` (static markup, the current year). `ScrollToTop` is not part of this model.
- Intersection geometry and the `threshold: 0.1` option. The browser decides `isIntersecting`, and the model takes it as input.
- RevealOnScroll.RevealController.OnEntries: requires every entry's target to be observed. This is the observer's delivery contract, which the model assumes and does not prove. It includes "no entries after `unobserve`".
- The 1500 ms `setTimeout` latency. Completion is an explicit step, `Complete`, that requires a pending submission.
- React's asynchronous state batching and stale closures. Each handler is one atomic step on the current state.
- Contact.ContactForm.Change: `[name]: undefined` leaves the key present with no value. The model removes the key. Rendering treats both the same, and the next validation rebuilds the map anyway.
- Contact.ContactForm.Submit: the browser's handling of the `type="email"` input is not modelled (`ContactSection.tsx:166`, inside a `<form>` without `noValidate` at `:147`). A browser strips leading and trailing whitespace from that input's value. Its constraint validation also blocks the submit event for a non-empty value that is not a valid e-mail address. The model lets `Submit` run on any draft, so it allows more drafts at `Submit` than a browser does. Examples such as ` a@b.co` and `not-an-email` show what `validateForm` does with those values, not what a user can get past the browser.
- Submission failure, unmount during a pending submission and a real backend. The code never calls a backend and has no failure path.
- Strings are sequences of Unicode scalar values. JavaScript strings are UTF-16 code units. Every whitespace code point is in the Basic Multilingual Plane, so `trim()` and `\s` behave the same on both.
