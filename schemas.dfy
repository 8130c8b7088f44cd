/**
  The registration form schema: a record of the three submitted fields whose
  construction runs the field validator on the username and then the model
  validator on the passwords; a failed validator makes construction fail.
 */
module Schemas {
  import opened Wrappers
  import opened Strings
  import opened Messages

  datatype RegisterForm = RegisterForm(username: string, password: string, passwordConfirm: string)

  /** Field validator: the username with surrounding whitespace removed, rejected when that is empty. */
  function ValidateUsername(value: string): (r: Result<string, Message>)
    ensures r.Err? <==> SpaceBetween(value, 0, |value|)
    ensures r.Err? ==> r.error == EmptyUsername
    ensures r.Ok? ==> r.value == Strip(value) && r.value != []
  {
    var cleaned := Strip(value);
    if cleaned == [] then Err(EmptyUsername) else Ok(cleaned)
  }

  /** A username that passed validation passes again unchanged. */
  lemma ValidateUsernameIdempotent(value: string)
    requires ValidateUsername(value).Ok?
    ensures ValidateUsername(ValidateUsername(value).value) == ValidateUsername(value)
  {
  }

  /** Model validator, run after the field validators: the form is kept as it is when the passwords agree. */
  function ValidatePasswords(form: RegisterForm): (r: Result<RegisterForm, Message>)
    ensures r.Ok? <==> form.password == form.passwordConfirm
    ensures r.Ok? ==> r.value == form
    ensures r.Err? ==> r.error == PasswordsDiffer
  {
    if form.password != form.passwordConfirm then Err(PasswordsDiffer) else Ok(form)
  }

  /**
    Building the form from the three submitted fields: the fields reach the
    record unchanged apart from the username cleaning, the form is accepted
    exactly when the stripped username is non-empty and the passwords agree,
    and the username is checked first.
   */
  function AsForm(username: string, password: string, passwordConfirm: string): (r: Result<RegisterForm, Message>)
    ensures r.Ok? <==> Strip(username) != [] && password == passwordConfirm
    ensures r.Ok? ==> r.value == RegisterForm(Strip(username), password, passwordConfirm)
    ensures r.Err? ==> r.error == if Strip(username) == [] then EmptyUsername else PasswordsDiffer
  {
    match ValidateUsername(username)
    case Err(e) => Err(e)
    case Ok(cleaned) => ValidatePasswords(RegisterForm(cleaned, password, passwordConfirm))
  }
}
