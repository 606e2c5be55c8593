/** The todo handlers of todos/views.py. Every lookup goes through
    `Lookup`, the single predicate `id == pk && owner == principal`, so a
    todo of another user and a missing todo produce the same reply. */
module Todos {
  import opened Wrappers
  import opened Records
  import opened Projections
  import opened Validation
  import opened Whitespace
  import opened Http

  const RetrieveNotFound := "Does not exist or not authenticated"
  const FinishNotFound := "Todo does not exist or unauthorized"
  const NotOwned := "Does not exist or the object does not belong to the user"
  const Finished := "Todo is finished"
  const Deleted := "Deleted successfully"
  const Edited := "Edited"

  /** `TodoModel.objects.filter(user_id=principal)`: the ids of the
      principal's todos, in storage order. */
  function OwnedIds(st: Store, principal: UserId): (ids: seq<TodoId>)
    requires Valid(st)
    ensures forall i :: 0 <= i < |ids| ==> Owns(st, principal, ids[i])
    ensures forall id :: Owns(st, principal, id) ==> id in ids
    ensures forall i, j :: 0 <= i < j < |ids| ==> ids[i] < ids[j]
  {
    SelectBelow(st.todos, (t: Todo) => t.owner == principal, st.nextTodoId)
  }

  /** `TodoListView.get`: every todo of the principal and nothing else,
      each shown through `TodoModelSerializer`. */
  function ListTodos(st: Store, principal: UserId): (h: Handled)
    requires Valid(st)
    ensures h.store == st
    ensures h.outcome.Responded? && h.outcome.reply.status == 200 && h.outcome.reply.body.Listing?
    ensures var items := h.outcome.reply.body.items;
            && (forall i :: 0 <= i < |items| ==>
                  Owns(st, principal, items[i].id) &&
                  items[i] == ListItemOf(st.todos[items[i].id], st.users[principal]))
            && (forall id :: Owns(st, principal, id) ==> exists i :: 0 <= i < |items| && items[i].id == id)
            && (forall i, j :: 0 <= i < j < |items| ==> items[i].id < items[j].id)
  {
    var ids := OwnedIds(st, principal);
    var items := seq(|ids|, i requires 0 <= i < |ids| => ListItemOf(st.todos[ids[i]], st.users[principal]));
    assert forall i :: 0 <= i < |ids| ==> items[i].id == ids[i];
    Respond(200, Listing(items), st)
  }

  /** `TodoRetrieveView.get`. */
  function Retrieve(st: Store, principal: UserId, pk: TodoId): (h: Handled)
    requires Valid(st)
    ensures h.store == st
    ensures Owns(st, principal, pk) ==> h.outcome == Responded(Reply(200, Retrieved(DetailOf(st.todos[pk]))))
    ensures !Owns(st, principal, pk) ==> h.outcome == Responded(Reply(404, Error(RetrieveNotFound)))
  {
    match Lookup(st, pk, principal)
    case Some(t) => Respond(200, Retrieved(DetailOf(t)), st)
    case None => Respond(404, Error(RetrieveNotFound), st)
  }

  /** `IsFinishedSetTrueView.patch`: sets the flag of the owned todo and
      touches nothing else. */
  function Finish(st: Store, principal: UserId, pk: TodoId): (h: Handled)
    requires Valid(st)
    ensures Valid(h.store)
    ensures Owns(st, principal, pk) ==>
              && h.outcome == Responded(Reply(200, Message(Finished)))
              && h.store == st.(todos := st.todos[pk := st.todos[pk].(isFinished := true)])
    ensures !Owns(st, principal, pk) ==> h == Respond(404, Error(FinishNotFound), st)
  {
    match Lookup(st, pk, principal)
    case Some(t) => Respond(200, Message(Finished), st.(todos := st.todos[pk := t.(isFinished := true)]))
    case None => Respond(404, Error(FinishNotFound), st)
  }

  /** `DeleteApiView.delete`: removes exactly the owned todo. */
  function Delete(st: Store, principal: UserId, pk: TodoId): (h: Handled)
    requires Valid(st)
    ensures Valid(h.store)
    ensures Owns(st, principal, pk) ==>
              && h.outcome == Responded(Reply(200, Message(Deleted)))
              && h.store == RemoveTodo(st, pk)
    ensures !Owns(st, principal, pk) ==> h == Respond(404, Error(NotOwned), st)
  {
    match Lookup(st, pk, principal)
    case Some(_) => Respond(200, Message(Deleted), RemoveTodo(st, pk))
    case None => Respond(404, Error(NotOwned), st)
  }

  /** `TodoCreateView.post` with `TodoCreateSerizalizer.create`: the owner
      is the principal, `created_at` is the clock reading `now`, `deadline`
      defaults to `now`, `is_urgent` to false, `is_finished` is false. A
      principal without a user row violates the foreign key. */
  function Create(st: Store, principal: UserId, body: TodoFields, shape: FieldErrors, now: Time): (h: Handled)
    requires Valid(st)
    ensures Valid(h.store)
    ensures ValidateTodoCreate(body, shape).Failure? ==>
              h == Respond(400, ErrorDetails(SerializerMistake, ValidateTodoCreate(body, shape).error), st)
    ensures ValidateTodoCreate(body, shape).Success? && principal !in st.users ==>
              h == Handled(Raised(IntegrityError), st)
    ensures ValidateTodoCreate(body, shape).Success? && principal in st.users ==>
              var id := st.nextTodoId;
              && id !in st.todos
              && h.store.todos.Keys == st.todos.Keys + {id}
              && (forall other :: other in st.todos ==> h.store.todos[other] == st.todos[other])
              && h.store.users == st.users
              && var t := h.store.todos[id];
                 && t == Todo(id, Strip(body.title.value), now, body.deadline.GetOr(now), false, body.isUrgent.GetOr(false), principal)
                 && h.outcome == Responded(Reply(201, Created(CreatedView(t.title, t.deadline, t.isUrgent))))
  {
    match ValidateTodoCreate(body, shape)
    case Failure(errs) => Respond(400, ErrorDetails(SerializerMistake, errs), st)
    case Success(nt) =>
      if principal !in st.users then Handled(Raised(IntegrityError), st)
      else
        var t := Todo(st.nextTodoId, nt.title, now, nt.deadline.GetOr(now), false, nt.isUrgent.GetOr(false), principal);
        Respond(201, Created(CreatedViewOf(t)),
                st.(todos := st.todos[t.id := t], nextTodoId := st.nextTodoId + 1))
  }

  /** `EditTodoApiView.put`: the ownership lookup comes first, then the
      partial validation; only a supplied title or deadline changes. */
  function Edit(st: Store, principal: UserId, pk: TodoId, body: TodoFields, shape: FieldErrors): (h: Handled)
    requires Valid(st)
    ensures Valid(h.store)
    ensures !Owns(st, principal, pk) ==> h == Respond(404, Error(NotOwned), st)
    ensures Owns(st, principal, pk) && ValidateTodoEdit(body, shape).Failure? ==>
              h == Respond(400, ErrorDetails(SerializerMistake, ValidateTodoEdit(body, shape).error), st)
    ensures Owns(st, principal, pk) && ValidateTodoEdit(body, shape).Success? ==>
              var old_ := st.todos[pk];
              && h.outcome == Responded(Reply(200, Message(Edited)))
              && h.store == st.(todos := st.todos[pk := old_.(title := Trim(body.title).GetOr(old_.title),
                                                             deadline := body.deadline.GetOr(old_.deadline))])
  {
    match Lookup(st, pk, principal)
    case None => Respond(404, Error(NotOwned), st)
    case Some(t) =>
      match ValidateTodoEdit(body, shape)
      case Failure(errs) => Respond(400, ErrorDetails(SerializerMistake, errs), st)
      case Success(patch) =>
        var t' := t.(title := patch.title.GetOr(t.title), deadline := patch.deadline.GetOr(t.deadline));
        Respond(200, Message(Edited), st.(todos := st.todos[pk := t']))
  }

  /** A todo owned by someone else is indistinguishable from a missing one:
      every id-based handler replies exactly as if the row were absent, and
      changes nothing. */
  lemma ForeignTodoLooksAbsent(st: Store, principal: UserId, pk: TodoId, body: TodoFields, shape: FieldErrors)
    requires Valid(st)
    requires pk in st.todos && st.todos[pk].owner != principal
    ensures var absent := RemoveTodo(st, pk);
            && Retrieve(st, principal, pk).outcome == Retrieve(absent, principal, pk).outcome
            && Finish(st, principal, pk).outcome == Finish(absent, principal, pk).outcome
            && Delete(st, principal, pk).outcome == Delete(absent, principal, pk).outcome
            && Edit(st, principal, pk, body, shape).outcome == Edit(absent, principal, pk, body, shape).outcome
            && Finish(st, principal, pk).store == st
            && Delete(st, principal, pk).store == st
            && Edit(st, principal, pk, body, shape).store == st
  {
  }

  /** Finishing twice is the same as finishing once, in reply and in store. */
  lemma FinishIdempotent(st: Store, principal: UserId, pk: TodoId)
    requires Valid(st)
    ensures var once := Finish(st, principal, pk);
            Finish(once.store, principal, pk) == once
  {
  }

  /** Create reads only title, deadline and is_urgent: `is_finished`,
      `created_at`, the owner and the id cannot be set by the client. */
  lemma CreateIgnoresUnwritable(st: Store, principal: UserId, b1: TodoFields, b2: TodoFields, shape: FieldErrors, now: Time)
    requires Valid(st)
    requires Trim(b1.title) == Trim(b2.title) && b1.deadline == b2.deadline && b1.isUrgent == b2.isUrgent
    ensures Create(st, principal, b1, shape, now) == Create(st, principal, b2, shape, now)
  {
  }

  /** Edit reads only title and deadline. */
  lemma EditIgnoresUnwritable(st: Store, principal: UserId, pk: TodoId, b1: TodoFields, b2: TodoFields, shape: FieldErrors)
    requires Valid(st)
    requires Trim(b1.title) == Trim(b2.title) && b1.deadline == b2.deadline
    ensures Edit(st, principal, pk, b1, shape) == Edit(st, principal, pk, b2, shape)
  {
  }

  /** An edit never changes the creation time, the flags or the owner. */
  lemma EditKeepsFixedColumns(st: Store, principal: UserId, pk: TodoId, body: TodoFields, shape: FieldErrors)
    requires Valid(st)
    requires pk in st.todos
    ensures var st' := Edit(st, principal, pk, body, shape).store;
            && pk in st'.todos
            && st'.todos[pk].id == st.todos[pk].id
            && st'.todos[pk].createdAt == st.todos[pk].createdAt
            && st'.todos[pk].isFinished == st.todos[pk].isFinished
            && st'.todos[pk].isUrgent == st.todos[pk].isUrgent
            && st'.todos[pk].owner == st.todos[pk].owner
  {
  }

  /** The deadline default is a callable, evaluated per row: two todos
      created without a deadline at different times get different
      deadlines. The source reads the clock once for `deadline` and once
      more for `created_at`; `Create` takes a single reading `now` for
      both, which is why each deadline equals its own creation time here. */
  lemma DeadlineDefaultPerRow(st: Store, principal: UserId, body: TodoFields, shape: FieldErrors, t1: Time, t2: Time)
    requires Valid(st)
    requires principal in st.users
    requires ValidateTodoCreate(body, shape).Success? && body.deadline.None?
    requires t1 != t2
    ensures var h1 := Create(st, principal, body, shape, t1);
            var h2 := Create(h1.store, principal, body, shape, t2);
            var a := h2.store.todos[st.nextTodoId];
            var b := h2.store.todos[st.nextTodoId + 1];
            a.deadline == a.createdAt == t1 && b.deadline == b.createdAt == t2 && a.deadline != b.deadline
  {
  }
}
