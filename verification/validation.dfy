/** Request bodies and the input validation the serializers perform.
    The framework's own per-field checks (types, maximum lengths, e-mail
    syntax) arrive as `shape`, the errors it found; the model adds what the
    core code itself declares (required fields and the password policy
    attached to the password column) and what the serializer field that
    `ModelSerializer` builds for a `CharField`, `EmailField` or `TextField`
    does with the value: it strips surrounding whitespace, and, since none
    of these columns allows blank values, rejects a value that is empty
    once stripped before any validator sees it. */
module Validation {
  import opened Wrappers
  import opened Records
  import Passwords
  import opened Whitespace

  /** Field name to messages, the `details` / `errors` object of a 400. */
  type FieldErrors = map<string, seq<string>>

  const Required := "This field is required."

  /** A character field's value after conversion: stripped when present. */
  function Trim(v: Option<string>): (r: Option<string>)
    ensures r.Some? <==> v.Some?
    ensures r.Some? ==> r.value == Strip(v.value) && Trimmed(r.value)
  {
    if v.None? then None else Some(Strip(v.value))
  }

  /** A user-shaped JSON body, with every column a client might send, as
      sent. */
  datatype UserFields = UserFields(
    id: Option<int>,
    name: Option<string>,
    surname: Option<string>,
    age: Option<int>,
    email: Option<string>,
    password: Option<string>,
    image: Option<string>,
    otp: Option<string>,
    isActive: Option<bool>)

  /** A todo-shaped JSON body, with every column a client might send, as
      sent. */
  datatype TodoFields = TodoFields(
    id: Option<int>,
    title: Option<string>,
    createdAt: Option<Time>,
    deadline: Option<Time>,
    isFinished: Option<bool>,
    isUrgent: Option<bool>,
    owner: Option<int>)

  /** Validated registration data: the writable columns of `UserCreateSerializer`. */
  datatype Registration = Registration(
    name: Option<string>, surname: Option<string>, age: Option<int>,
    email: string, password: Option<string>)

  /** Validated login data (`LoginSerializer`: email, password). */
  datatype Credentials = Credentials(email: string, password: Option<string>)

  /** Validated create data (`TodoCreateSerizalizer`: title, deadline, is_urgent). */
  datatype NewTodo = NewTodo(title: string, deadline: Option<Time>, isUrgent: Option<bool>)

  /** Validated partial edit (`TodoEditSerializer`: title, deadline). */
  datatype TodoPatch = TodoPatch(title: Option<string>, deadline: Option<Time>)

  function AddError(errs: FieldErrors, field: string, msg: string): (r: FieldErrors)
    ensures r.Keys == errs.Keys + {field}
    ensures msg in r[field]
    ensures forall f :: f in errs && f != field ==> r[f] == errs[f]
  {
    errs[field := (if field in errs then errs[field] else []) + [msg]]
  }

  const Blank := "This field may not be blank."

  /** A converted value the framework rejects as blank: present, and empty
      once stripped. */
  predicate IsBlank(v: Option<string>) {
    v.Some? && v.value == ""
  }

  /** The blank check of a character field whose column does not allow
      blank values: a blank value adds `Blank` under `field`, anything
      else adds nothing. */
  function BlankCheck(errs: FieldErrors, field: string, v: Option<string>): (r: FieldErrors)
    ensures IsBlank(v) ==> r.Keys == errs.Keys + {field} && Blank in r[field]
    ensures !IsBlank(v) ==> r == errs
    ensures forall f :: f in errs && f != field ==> r[f] == errs[f]
  {
    if IsBlank(v) then AddError(errs, field, Blank) else errs
  }

  /** The checks both user serializers make on the converted email and
      password: the email column has no default and so is required; a
      blank email or password is rejected before any validator runs; a
      non-blank password runs through the policy; the password column's
      default makes it optional. */
  function CredentialErrors(email: Option<string>, password: Option<string>, shape: FieldErrors): (errs: FieldErrors)
    ensures shape.Keys <= errs.Keys
    ensures errs == map[] <==>
              shape == map[] && email.Some? && email.value != "" &&
              (password.Some? ==> Passwords.ValidatePassword(password.value).Pass?)
    ensures email.None? ==> "email" in errs && Required in errs["email"]
    ensures IsBlank(email) ==> "email" in errs && Blank in errs["email"]
    ensures IsBlank(password) ==>
              "password" in errs &&
              errs["password"] == (if "password" in shape then shape["password"] else []) + [Blank]
    ensures password.Some? && password.value != "" && Passwords.ValidatePassword(password.value).Fail? ==>
              "password" in errs && Passwords.ValidatePassword(password.value).error in errs["password"]
  {
    var e1 := if email.None? then AddError(shape, "email", Required) else BlankCheck(shape, "email", email);
    if IsBlank(password) then AddError(e1, "password", Blank)
    else if password.Some? && Passwords.ValidatePassword(password.value).Fail?
    then AddError(e1, "password", Passwords.ValidatePassword(password.value).error)
    else e1
  }

  /** The blank checks on registration's name and surname, on top of the
      framework's other findings. */
  function NameErrors(body: UserFields, shape: FieldErrors): (errs: FieldErrors)
    ensures errs == map[] <==> shape == map[] && !IsBlank(Trim(body.name)) && !IsBlank(Trim(body.surname))
    ensures shape.Keys <= errs.Keys
  {
    BlankCheck(BlankCheck(shape, "name", Trim(body.name)), "surname", Trim(body.surname))
  }

  /** `UserCreateSerializer(data=...).is_valid()`: the policy sees the
      stripped password, and the stripped values are what is kept. */
  function ValidateRegistration(body: UserFields, shape: FieldErrors): (r: Result<Registration, FieldErrors>)
    ensures r.Success? <==>
              && shape == map[] && body.email.Some? && Strip(body.email.value) != ""
              && !IsBlank(Trim(body.name)) && !IsBlank(Trim(body.surname))
              && (body.password.Some? ==> Passwords.ValidatePassword(Strip(body.password.value)).Pass?)
    ensures r.Success? ==>
              r.value == Registration(Trim(body.name), Trim(body.surname), body.age,
                                      Strip(body.email.value), Trim(body.password))
    ensures r.Failure? ==>
              r.error == CredentialErrors(Trim(body.email), Trim(body.password), NameErrors(body, shape)) && r.error != map[]
  {
    var errs := CredentialErrors(Trim(body.email), Trim(body.password), NameErrors(body, shape));
    if errs == map[] then
      Success(Registration(Trim(body.name), Trim(body.surname), body.age, Strip(body.email.value), Trim(body.password)))
    else Failure(errs)
  }

  /** `LoginSerializer(data=...).is_valid()`: a model serializer over the
      same two columns, so the password policy applies to login input too. */
  function ValidateLogin(body: UserFields, shape: FieldErrors): (r: Result<Credentials, FieldErrors>)
    ensures r.Success? <==>
              && shape == map[] && body.email.Some? && Strip(body.email.value) != ""
              && (body.password.Some? ==> Passwords.ValidatePassword(Strip(body.password.value)).Pass?)
    ensures r.Success? ==> r.value == Credentials(Strip(body.email.value), Trim(body.password))
    ensures r.Failure? ==> r.error == CredentialErrors(Trim(body.email), Trim(body.password), shape) && r.error != map[]
  {
    var errs := CredentialErrors(Trim(body.email), Trim(body.password), shape);
    if errs == map[] then Success(Credentials(Strip(body.email.value), Trim(body.password))) else Failure(errs)
  }

  /** `TodoCreateSerizalizer(data=...).is_valid()`: title has no default
      and is required, and may not be blank; deadline and is_urgent have
      defaults. */
  function ValidateTodoCreate(body: TodoFields, shape: FieldErrors): (r: Result<NewTodo, FieldErrors>)
    ensures r.Success? <==> shape == map[] && body.title.Some? && Strip(body.title.value) != ""
    ensures r.Success? ==> r.value == NewTodo(Strip(body.title.value), body.deadline, body.isUrgent)
    ensures r.Failure? ==> shape.Keys <= r.error.Keys && r.error != map[]
    ensures body.title.None? ==> r.Failure? && "title" in r.error && Required in r.error["title"]
    ensures IsBlank(Trim(body.title)) ==> r.Failure? && "title" in r.error && Blank in r.error["title"]
  {
    var errs := if body.title.None? then AddError(shape, "title", Required) else BlankCheck(shape, "title", Trim(body.title));
    if errs == map[] then Success(NewTodo(Strip(body.title.value), body.deadline, body.isUrgent)) else Failure(errs)
  }

  /** `TodoEditSerializer(instance, data=..., partial=True).is_valid()`:
      nothing is required; a supplied title may not be blank. */
  function ValidateTodoEdit(body: TodoFields, shape: FieldErrors): (r: Result<TodoPatch, FieldErrors>)
    ensures r.Success? <==> shape == map[] && !IsBlank(Trim(body.title))
    ensures r.Success? ==> r.value == TodoPatch(Trim(body.title), body.deadline)
    ensures r.Failure? ==> r.error == BlankCheck(shape, "title", Trim(body.title)) && r.error != map[]
  {
    var errs := BlankCheck(shape, "title", Trim(body.title));
    if errs == map[] then Success(TodoPatch(Trim(body.title), body.deadline)) else Failure(errs)
  }

  /** A password that is all whitespace is blank once stripped: the
      serializer reports only the blank error for it, and the policy never
      runs, at login and at registration alike. */
  lemma BlankPasswordSkipsPolicy(body: UserFields, shape: FieldErrors, pad: string)
    requires AllSpace(pad) && body.password == Some(pad)
    requires "password" !in shape
    ensures ValidateLogin(body, shape).Failure?
    ensures "password" in ValidateLogin(body, shape).error
    ensures ValidateLogin(body, shape).error["password"] == [Blank]
    ensures ValidateRegistration(body, shape).Failure?
    ensures "password" in ValidateRegistration(body, shape).error
    ensures ValidateRegistration(body, shape).error["password"] == [Blank]
  {
    assert Trim(body.password) == Some("");
    assert "password" !in NameErrors(body, shape);
  }

  /** Whitespace around a password changes nothing: the policy and the
      stored value both see the stripped text. */
  lemma PasswordPaddingIgnored(body: UserFields, shape: FieldErrors, lead: string, pw: string, trail: string)
    requires AllSpace(lead) && AllSpace(trail) && Trimmed(pw)
    ensures ValidateRegistration(body.(password := Some(lead + pw + trail)), shape)
         == ValidateRegistration(body.(password := Some(pw)), shape)
    ensures ValidateLogin(body.(password := Some(lead + pw + trail)), shape)
         == ValidateLogin(body.(password := Some(pw)), shape)
  {
    var b1 := body.(password := Some(lead + pw + trail));
    var b2 := body.(password := Some(pw));
    SameTrimmedPassword(lead, pw, trail);
    assert Trim(b1.password) == Trim(b2.password);
    ConvertedValuesDecide(b1, b2, shape);
  }

  lemma SameTrimmedPassword(lead: string, pw: string, trail: string)
    requires AllSpace(lead) && AllSpace(trail) && Trimmed(pw)
    ensures Trim(Some(lead + pw + trail)) == Trim(Some(pw))
  {
    StripPadded(lead, pw, trail);
    StripPadded("", pw, "");
    assert "" + pw + "" == pw;
  }

  /** Both user serializers look at their fields only after conversion:
      bodies whose converted columns agree validate alike. */
  lemma ConvertedValuesDecide(b1: UserFields, b2: UserFields, shape: FieldErrors)
    requires Trim(b1.name) == Trim(b2.name) && Trim(b1.surname) == Trim(b2.surname) && b1.age == b2.age
    requires Trim(b1.email) == Trim(b2.email) && Trim(b1.password) == Trim(b2.password)
    ensures ValidateRegistration(b1, shape) == ValidateRegistration(b2, shape)
    ensures ValidateLogin(b1, shape) == ValidateLogin(b2, shape)
  {
  }

  /** " abc123 " has eight characters but six after stripping, so it gets
      the length message. */
  lemma PaddedShortPasswordRejected(body: UserFields, shape: FieldErrors)
    requires body.password == Some(" abc123 ")
    ensures |body.password.value| == Passwords.MinLength
    ensures ValidateRegistration(body, shape).Failure?
    ensures "password" in ValidateRegistration(body, shape).error
    ensures Passwords.TooShort in ValidateRegistration(body, shape).error["password"]
  {
    assert " abc123 " == " " + "abc123" + " ";
    assert IsSpace(' ');
    assert !IsSpace('a') && !IsSpace('3');
    StripPadded(" ", "abc123", " ");
  }
}
