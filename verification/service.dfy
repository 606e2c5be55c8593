/** One request end to end: authentication where the view asks for it
    (`authentication_classes = [CustomUserJWTAuthentication]`), then the
    handler, as the URL tables of users/urls.py and todos/urls.py route it. */
module Service {
  import opened Wrappers
  import opened Records
  import opened Validation
  import opened Http
  import opened Authentication
  import Otp
  import Accounts
  import Todos

  /** A routed request with its decoded body. `shape` is what the
      framework's field checks found in the body. */
  datatype Request =
    | LoginRequest(credentials: UserFields, shape: FieldErrors)
    | RegisterRequest(registration: UserFields, shape: FieldErrors)
    | MyInfoRequest
    | VerifyRequest(otp: Option<Otp.Scalar>)
    | ListRequest
    | RetrieveRequest(pk: TodoId)
    | CreateRequest(todo: TodoFields, shape: FieldErrors)
    | FinishRequest(pk: TodoId)
    | DeleteRequest(pk: TodoId)
    | EditRequest(pk: TodoId, todo: TodoFields, shape: FieldErrors)

  /** What a request sees of the outside world: its Authorization header,
      the token library's verdicts, the password checker and the clock. */
  datatype Context = Context(
    header: Option<string>,
    tokens: string -> TokenVerdict,
    checkPassword: (User, string) -> bool,
    now: Time)

  /** Login and registration declare no authentication class. */
  predicate NeedsAuthentication(req: Request) {
    !(req.LoginRequest? || req.RegisterRequest?)
  }

  /** The user a request acts as: the authenticated principal, if the view
      authenticates and authentication succeeds. */
  function Caller(st: Store, ctx: Context, req: Request): Option<UserId>
    requires Valid(st)
  {
    if !NeedsAuthentication(req) then None
    else match Authenticate(ctx.header, ctx.tokens, st.users)
      case Authenticated(u) => Some(u.id)
      case _ => None
  }

  /** The handler of an authenticated request. */
  function Dispatch(st: Store, ctx: Context, principal: UserId, req: Request): (h: Handled)
    requires Valid(st)
    requires NeedsAuthentication(req)
    ensures Valid(h.store)
  {
    match req
    case MyInfoRequest => Accounts.MyInfo(st, principal)
    case VerifyRequest(otp) => Accounts.Verify(st, principal, otp)
    case ListRequest => Todos.ListTodos(st, principal)
    case RetrieveRequest(pk) => Todos.Retrieve(st, principal, pk)
    case CreateRequest(body, shape) => Todos.Create(st, principal, body, shape, ctx.now)
    case FinishRequest(pk) => Todos.Finish(st, principal, pk)
    case DeleteRequest(pk) => Todos.Delete(st, principal, pk)
    case EditRequest(pk, body, shape) => Todos.Edit(st, principal, pk, body, shape)
  }

  /** A request from arrival to reply. `AuthenticationFailed` becomes a 403
      with the failure text: the authenticator does not override
      `authenticate_header`, so the framework answers 403 rather than 401.
      Every request leaves the store in a state the database allows. */
  function Serve(st: Store, ctx: Context, req: Request): (h: Handled)
    requires Valid(st)
    ensures Valid(h.store)
    ensures NeedsAuthentication(req) && Caller(st, ctx, req).None? ==> h.store == st
    ensures NeedsAuthentication(req) && Authenticate(ctx.header, ctx.tokens, st.users).Failed? ==>
              h.outcome == Responded(Reply(403, Detail(FailureMessage(Authenticate(ctx.header, ctx.tokens, st.users).failure))))
  {
    match req
    case LoginRequest(body, shape) => Accounts.Login(st, body, shape, ctx.checkPassword)
    case RegisterRequest(body, shape) => Accounts.Register(st, body, shape)
    case _ =>
      match Authenticate(ctx.header, ctx.tokens, st.users)
      case Failed(f) => Respond(403, Detail(FailureMessage(f)), st)
      case Escaped(e) => Handled(Raised(e), st)
      case Authenticated(u) => Dispatch(st, ctx, u.id, req)
  }

  /** Ownership isolation across the whole interface: a request never
      changes or removes a todo that is not its caller's, and every todo it
      adds belongs to its caller. */
  lemma OthersTodosUntouched(st: Store, ctx: Context, req: Request)
    requires Valid(st)
    ensures var st' := Serve(st, ctx, req).store;
            var caller := Caller(st, ctx, req);
            && (forall id :: id in st.todos && Some(st.todos[id].owner) != caller ==>
                  id in st'.todos && st'.todos[id] == st.todos[id])
            && (forall id :: id in st'.todos && id !in st.todos ==> Some(st'.todos[id].owner) == caller)
  {
  }

  /** `created_at` is written once, when the row is inserted: no request
      changes the creation time of a todo that survives it. */
  lemma CreatedAtFixed(st: Store, ctx: Context, req: Request)
    requires Valid(st)
    ensures var st' := Serve(st, ctx, req).store;
            forall id :: id in st.todos && id in st'.todos ==> st'.todos[id].createdAt == st.todos[id].createdAt
  {
  }

  /** Mail is sent only by a successful registration, one message to the
      new user's address carrying that user's code. */
  lemma MailOnlyOnRegistration(st: Store, ctx: Context, req: Request)
    requires Valid(st)
    ensures var h := Serve(st, ctx, req);
            if req.RegisterRequest? && ValidateRegistration(req.registration, req.shape).Success? then
              var u := h.store.users[st.nextUserId];
              h.store.outbox == st.outbox + [Mail(u.email, Accounts.MailSubject, Accounts.MailPrefix + u.otp)]
            else
              h.store.outbox == st.outbox
  {
  }
}
