/**
 * The page model driven through concrete forms and lists: the scenarios the
 * registration form is meant to support, and the individual delete as written next
 * to the intended one.
 */
module Scenarios {
  import opened Wrappers
  import opened Text
  import opened EmailPattern
  import opened Validation
  import opened Users
  import opened Registration

  /** "ana@x.com" has the e-mail shape: runs "ana", "x" and "com" around '@' and '.'. */
  lemma AnaEmailValid()
    ensures CheckField(Email, "ana@x.com") == None
  {
    var s := "ana@x.com";
    TrimKeeps(s);
    assert s[..3] == "ana" && s[4..5] == "x" && s[6..] == "com";
    assert SplitsAt(s, 3, 5);
    EmailFormatMatchesPattern(s);
  }

  /** "bad-email" has no '@', so it fails the format check (not the emptiness check). */
  lemma BadEmailRejected()
    ensures CheckField(Email, "bad-email") == Some(EmailMalformed)
  {
    var s := "bad-email";
    TrimKeeps(s);
    NoAtSign(s);
  }

  /** "Ana" is a valid name. */
  lemma AnaNameValid()
    ensures CheckField(Nombre, "Ana") == None
  {
  }

  /** "30" is a valid age, read as 30. */
  lemma ThirtyValid()
    ensures CheckField(Edad, "30") == None && ParseInt(Trim("30")) == Some(30)
  {
    assert ShowNat(30) == "30";
    assert ShowInt(30) + "" == "30";
    AgeReadsLeadingInteger(30, "");
  }

  /** Submitting the empty form raises the empty-form alert and saves nothing. */
  method SubmitEmptyForm() returns (outcome: SubmitOutcome, stored: Option<seq<User>>)
    ensures outcome == EmptyForm && stored == None
  {
    var page := new Page(None);
    outcome := page.Submit();
    stored := page.store;
  }

  const BadEmailForm := FieldValues("Ana", "bad-email", "30")
  const GoodForm := FieldValues("Ana", "ana@x.com", "30")

  /** Only the e-mail of the first form is wrong, and it is wrong in format. */
  lemma BadEmailFormRejected()
    ensures !FormValid(BadEmailForm) && !AllEmpty(BadEmailForm)
    ensures ErrorsFor(BadEmailForm) == FieldValues("", EmailMalformed, "")
  {
    AnaNameValid();
    BadEmailRejected();
    ThirtyValid();
    CheckFieldMeaning(Email, "bad-email");
  }

  /** Every field of the second form is valid. */
  lemma GoodFormAccepted()
    ensures FormValid(GoodForm) && !AllEmpty(GoodForm)
  {
    AnaNameValid();
    AnaEmailValid();
    ThirtyValid();
    CheckFieldMeaning(Nombre, "Ana");
    CheckFieldMeaning(Email, "ana@x.com");
    CheckFieldMeaning(Edad, "30");
  }

  /** The second form makes the user Ana, ana@x.com, 30. */
  lemma GoodFormUser()
    ensures ParseInt(Trim(GoodForm.edad)).Some?
    ensures NewUser(GoodForm) == User("Ana", "ana@x.com", 30)
  {
    ThirtyValid();
    TrimKeeps("Ana");
    TrimKeeps("ana@x.com");
  }

  /** The user fills every input of a freshly loaded page with `form`. */
  method FillForm(form: FieldValues) returns (page: Page)
    ensures fresh(page) && page.Synced()
    ensures page.inputs == form && page.errors == Blank && page.store == None
  {
    page := new Page(None);
    page.EnterInput(Nombre, form.nombre);
    page.EnterInput(Email, form.email);
    page.EnterInput(Edad, form.edad);
  }

  /** A malformed e-mail is the only error shown, and nothing is saved. */
  method SubmitBadEmail() returns (outcome: SubmitOutcome, shown: FieldValues, stored: Option<seq<User>>)
    ensures outcome == Rejected && shown == FieldValues("", EmailMalformed, "") && stored == None
  {
    var page := FillForm(BadEmailForm);
    BadEmailFormRejected();
    outcome := page.Submit();
    shown := page.errors;
    stored := page.store;
  }

  /** A valid form saves exactly one user, with the age as a number, and clears the form. */
  method SubmitValidForm() returns (outcome: SubmitOutcome, stored: Option<seq<User>>, form: FieldValues)
    ensures outcome == Saved && stored == Some([User("Ana", "ana@x.com", 30)]) && form == Blank
  {
    var page := FillForm(GoodForm);
    GoodFormAccepted();
    GoodFormUser();
    outcome := page.Submit();
    stored := page.store;
    form := page.inputs;
    assert [] + [NewUser(GoodForm)] == [User("Ana", "ana@x.com", 30)];
  }

  /** Deleting position 1 of three users keeps the first and the third, in order. */
  method DeleteMiddle(a: User, b: User, c: User) returns (stored: Option<seq<User>>)
    ensures stored == Some([a, c])
  {
    var page := new Page(Some([a, b, c]));
    var _ := page.DeleteUser(1);
    stored := page.store;
    assert RemoveAt([a, b, c], 1) == [a, c];
  }

  /**
   * The individual delete as written: the listing is displayed (its delete buttons can
   * only be clicked then), a user is deleted, and the listing ends up hidden.
   */
  method DeleteAsWrittenHidesListing(a: User, b: User) returns (shownBefore: bool, shownAfter: bool)
    ensures shownBefore && !shownAfter
  {
    var page := new Page(Some([a, b]));
    var _ := page.Toggle();
    shownBefore := page.visible;
    var deleted := page.DeleteUserAsWritten(0);
    shownAfter := page.visible;
  }

  /** The intended individual delete: the listing stays displayed and shows the remaining user as #1. */
  method DeleteRedrawsListing(a: User, b: User) returns (shownAfter: bool, entries: seq<Entry>)
    ensures shownAfter && entries == [Entry(1, b, 0)]
  {
    var page := new Page(Some([a, b]));
    var _ := page.Toggle();
    var deleted := page.DeleteUser(0);
    shownAfter := page.visible;
    entries := page.listing;
    assert RemoveAt([a, b], 0) == [b];
  }
}
