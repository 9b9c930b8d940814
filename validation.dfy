/**
 * The per-field rules of the registration form (`validarCampo`) and what the whole
 * form needs to be accepted.
 */
module Validation {
  import opened Wrappers
  import opened Text
  import opened EmailPattern

  /** The three inputs of the form, in the order `Object.keys(inputs)` lists them. */
  datatype Field = Nombre | Email | Edad

  const FormFields: seq<Field> := [Nombre, Email, Edad]

  /** One string per field: the values of the inputs, or the texts of the error elements. */
  datatype FieldValues = FieldValues(nombre: string, email: string, edad: string) {

    function Get(f: Field): string {
      match f
      case Nombre => nombre
      case Email => email
      case Edad => edad
    }

    function With(f: Field, v: string): (r: FieldValues)
      ensures r.Get(f) == v
      ensures forall g :: g != f ==> r.Get(g) == Get(g)
    {
      match f
      case Nombre => this.(nombre := v)
      case Email => this.(email := v)
      case Edad => this.(edad := v)
    }
  }

  /** Writing a field twice keeps the second value only. */
  lemma WithTwice(v: FieldValues, f: Field, a: string, b: string)
    ensures v.With(f, a).With(f, b) == v.With(f, b)
  {
  }

  /** Every input empty, every error element empty (after `form.reset()` and clearing). */
  const Blank := FieldValues("", "", "")

  const NameRequired := "Debes ingresar tu nombre."
  const EmailRequired := "El email debe ser V\U{E1}lido."
  const EmailMalformed := "El formato del email no es v\U{E1}lido."
  const AgeRequired := "Debes ingresar tu edad."
  const AgeNotPositive := "La edad debe ser un n\U{FA}mero entero positivo (m\U{ED}nimo 1)."

  /** The message shown when the trimmed field is empty. */
  function RequiredMessage(f: Field): string {
    match f
    case Nombre => NameRequired
    case Email => EmailRequired
    case Edad => AgeRequired
  }

  /**
   * The decision of `validarCampo` for one field: the error message its error element
   * shows, or `None` when the field is valid. The raw value is trimmed first; an empty
   * value is checked before its format. A rejected field shows its "required" message
   * exactly when it is empty, and otherwise the e-mail's format message or the age's
   * range message; a name is rejected only when empty.
   */
  function CheckField(f: Field, raw: string): (r: Option<string>)
    ensures r.Some? ==> r.value == if Trim(raw) == "" then RequiredMessage(f)
                                   else if f == Email then EmailMalformed
                                   else AgeNotPositive
    ensures r.None? ==> Trim(raw) != ""
    ensures f == Nombre && r.Some? ==> Trim(raw) == ""
  {
    var value := Trim(raw);
    match f
    case Nombre =>
      if value == "" then Some(NameRequired) else None
    case Email =>
      if value == "" then Some(EmailRequired)
      else if !IsEmailFormat(value) then Some(EmailMalformed)
      else None
    case Edad =>
      var age := ParseInt(value);
      if value == "" then Some(AgeRequired)
      else if age.None? || age.value < 1 then Some(AgeNotPositive)
      else None
  }

  /** The text of an error element: the message, or empty when the field is valid. */
  function ErrorText(message: Option<string>): string {
    message.GetOr("")
  }

  /** What each field must satisfy, stated on the trimmed value. */
  ghost predicate FieldValid(f: Field, raw: string) {
    var value := Trim(raw);
    match f
    case Nombre => value != ""
    case Email => value != "" && MatchesEmailPattern(value)
    case Edad => value != "" && ParseInt(value).Some? && ParseInt(value).value >= 1
  }

  /**
   * `validarCampo` accepts a field exactly when its rule holds; an empty field gets the
   * field's own "required" message (for the e-mail, distinct from the format message),
   * a non-empty rejected age gets the range message, and every message it shows is
   * non-empty, so the error element is visible exactly when the field is invalid.
   */
  lemma CheckFieldMeaning(f: Field, raw: string)
    ensures CheckField(f, raw).None? <==> FieldValid(f, raw)
    ensures Trim(raw) == "" ==> CheckField(f, raw) == Some(RequiredMessage(f))
    ensures f == Email && Trim(raw) != "" && CheckField(f, raw).Some? ==>
              CheckField(f, raw) == Some(EmailMalformed)
    ensures f == Edad && Trim(raw) != "" && CheckField(f, raw).Some? ==>
              CheckField(f, raw) == Some(AgeNotPositive)
    ensures ErrorText(CheckField(f, raw)) == "" <==> CheckField(f, raw).None?
  {
    if f == Email {
      EmailFormatMatchesPattern(Trim(raw));
    }
  }

  /**
   * `parseInt` reads only the leading integer: an age written as an integer followed
   * by anything that does not start with a digit ("2.5", "30abc") is accepted when
   * that integer is at least 1, and rejected otherwise ("0", "-3").
   */
  lemma AgeReadsLeadingInteger(n: int, rest: string)
    requires rest == [] || (!IsDigit(rest[0]) && !IsWhitespace(rest[|rest| - 1]))
    ensures ParseInt(Trim(ShowInt(n) + rest)) == Some(n)
    ensures CheckField(Edad, ShowInt(n) + rest) == if n >= 1 then None else Some(AgeNotPositive)
  {
    TrimKeepsInteger(n, rest);
    ParseShowInt(n, rest);
  }

  /** "2.5" is a valid age, read as 2. */
  lemma AgeWithFraction()
    ensures CheckField(Edad, "2.5") == None && ParseInt("2.5") == Some(2)
  {
  }

  /** Every field of the form satisfies its rule. */
  ghost predicate FormValid(inputs: FieldValues) {
    FieldValid(Nombre, inputs.nombre) && FieldValid(Email, inputs.email) && FieldValid(Edad, inputs.edad)
  }

  /** Every input holds only white space. */
  predicate AllEmpty(inputs: FieldValues) {
    Trim(inputs.nombre) == "" && Trim(inputs.email) == "" && Trim(inputs.edad) == ""
  }

  /** Every error element is hidden. */
  predicate AllHidden(errors: FieldValues) {
    errors.nombre == "" && errors.email == "" && errors.edad == ""
  }

  /** The error elements after every field has been checked. */
  function ErrorsFor(inputs: FieldValues): FieldValues {
    FieldValues(
      ErrorText(CheckField(Nombre, inputs.nombre)),
      ErrorText(CheckField(Email, inputs.email)),
      ErrorText(CheckField(Edad, inputs.edad)))
  }

  // The state of `validarFormulario` after its loop has visited the first `n` fields.

  predicate FirstFieldsAccepted(inputs: FieldValues, n: nat)
    requires n <= |FormFields|
  {
    n == 0 || (FirstFieldsAccepted(inputs, n - 1) && CheckField(FormFields[n - 1], inputs.Get(FormFields[n - 1])).None?)
  }

  predicate FirstFieldsEmpty(inputs: FieldValues, n: nat)
    requires n <= |FormFields|
  {
    n == 0 || (FirstFieldsEmpty(inputs, n - 1) && Trim(inputs.Get(FormFields[n - 1])) == "")
  }

  function FirstFieldsChecked(errors: FieldValues, inputs: FieldValues, n: nat): FieldValues
    requires n <= |FormFields|
  {
    if n == 0 then errors
    else
      var f := FormFields[n - 1];
      FirstFieldsChecked(errors, inputs, n - 1).With(f, ErrorText(CheckField(f, inputs.Get(f))))
  }

  /** Having visited all three fields, the loop has the whole form's verdict. */
  lemma AllFieldsValidated(inputs: FieldValues)
    ensures FirstFieldsAccepted(inputs, |FormFields|) <==> FormValid(inputs)
  {
    assert FirstFieldsAccepted(inputs, 1) <==> CheckField(Nombre, inputs.nombre).None?;
    CheckFieldMeaning(Nombre, inputs.nombre);
    CheckFieldMeaning(Email, inputs.email);
    CheckFieldMeaning(Edad, inputs.edad);
  }

  /** Having visited all three fields, the loop knows whether the form is empty. */
  lemma AllFieldsInspected(inputs: FieldValues)
    ensures FirstFieldsEmpty(inputs, |FormFields|) <==> AllEmpty(inputs)
  {
    assert FirstFieldsEmpty(inputs, 1) <==> Trim(inputs.nombre) == "";
    assert FirstFieldsEmpty(inputs, 2) <==> FirstFieldsEmpty(inputs, 1) && Trim(inputs.email) == "";
  }

  /** Having visited all three fields, the loop has set every error element. */
  lemma AllFieldsChecked(errors: FieldValues, inputs: FieldValues)
    ensures FirstFieldsChecked(errors, inputs, |FormFields|) == ErrorsFor(inputs)
  {
    var expected := ErrorsFor(inputs);
    assert FormFields[0] == Nombre;
    assert FirstFieldsChecked(errors, inputs, 0) == errors;
    var one := FirstFieldsChecked(errors, inputs, 1);
    assert one == errors.With(Nombre, ErrorText(CheckField(Nombre, inputs.Get(Nombre))));
    assert one == errors.With(Nombre, expected.nombre);
    var two := FirstFieldsChecked(errors, inputs, 2);
    assert two == one.With(Email, expected.email);
    assert FirstFieldsChecked(errors, inputs, 3) == two.With(Edad, expected.edad);
  }

  /**
   * What the loop of `validarFormulario` knows once it has visited every field: the
   * form's verdict, whether it is empty (and then invalid), and every error element.
   */
  lemma AllFieldsVisited(errors: FieldValues, inputs: FieldValues)
    ensures FirstFieldsAccepted(inputs, |FormFields|) <==> FormValid(inputs)
    ensures FirstFieldsEmpty(inputs, |FormFields|) <==> AllEmpty(inputs)
    ensures FirstFieldsEmpty(inputs, |FormFields|) ==> !FirstFieldsAccepted(inputs, |FormFields|)
    ensures FirstFieldsChecked(errors, inputs, |FormFields|) == ErrorsFor(inputs)
  {
    AllFieldsValidated(inputs);
    AllFieldsInspected(inputs);
    AllFieldsChecked(errors, inputs);
    if AllEmpty(inputs) {
      EmptyFormInvalid(inputs);
    }
  }

  /**
   * A completely empty form is never valid: the name rule alone rejects it, and every
   * field shows its "required" message.
   */
  lemma EmptyFormInvalid(inputs: FieldValues)
    requires AllEmpty(inputs)
    ensures !FormValid(inputs)
    ensures ErrorsFor(inputs) == FieldValues(NameRequired, EmailRequired, AgeRequired)
  {
  }
}
