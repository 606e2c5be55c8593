/** The two tables of the system (users/models.py `UserModel`,
    todos/models.py `TodoModel`) and the store that holds them. */
module Records {
  import opened Wrappers
  import Otp

  type UserId = nat
  type TodoId = nat
  /** A wall-clock reading; the clock itself is outside the model. */
  type Time = int

  /** A row of the `users` table. `image` is the stored file reference. */
  datatype User = User(
    id: UserId,
    name: string,
    surname: string,
    age: int,
    email: string,
    password: string,
    image: string,
    otp: string,
    isActive: bool)

  /** A row of the `todos` table; `owner` is the `user_id` foreign key. */
  datatype Todo = Todo(
    id: TodoId,
    title: string,
    createdAt: Time,
    deadline: Time,
    isFinished: bool,
    isUrgent: bool,
    owner: UserId)

  /** A message handed to the mail collaborator. */
  datatype Mail = Mail(recipient: string, subject: string, body: string)

  /** Both tables, their auto-increment counters, the OTP default fixed when
      the user model was loaded, and every mail sent so far. */
  datatype Store = Store(
    users: map<UserId, User>,
    todos: map<TodoId, Todo>,
    nextUserId: UserId,
    nextTodoId: TodoId,
    otpDefault: string,
    outbox: seq<Mail>)

  /** Every user row sits under its own primary key. */
  predicate KeyedById(users: map<UserId, User>) {
    forall id :: id in users ==> users[id].id == id
  }

  /** What the database guarantees: rows sit under their own id, ids lie
      below the counters, and every todo's owner exists. Nothing ties a
      stored code to `otpDefault`: rows written by an earlier process, or
      by another worker, carry that process's draw. */
  predicate Valid(st: Store) {
    && KeyedById(st.users)
    && (forall id :: id in st.users ==> id < st.nextUserId)
    && (forall id :: id in st.todos ==>
          st.todos[id].id == id && id < st.nextTodoId && st.todos[id].owner in st.users)
  }

  /** A first process over an empty database. `otp = CharField(default=create_otp())`
      calls `create_otp` once, when the class is defined, so the one draw
      made here is the default of every user this process creates. */
  function Boot(draw: int): (st: Store)
    requires Otp.Low <= draw <= Otp.High
    ensures Valid(st)
    ensures st.users == map[] && st.todos == map[] && st.outbox == []
    ensures st.otpDefault == Otp.CreateOtp(draw)
  {
    Store(map[], map[], 0, 0, Otp.CreateOtp(draw), [])
  }

  /** A new process (a restart, or another worker) over an existing
      database: the class is defined again, so `create_otp` is drawn again;
      the stored rows, pending users' codes included, stay as they were. */
  function Restart(st: Store, draw: int): (st': Store)
    requires Otp.Low <= draw <= Otp.High
    ensures Valid(st) ==> Valid(st')
    ensures st'.users == st.users && st'.todos == st.todos
    ensures st'.nextUserId == st.nextUserId && st'.nextTodoId == st.nextTodoId && st'.outbox == st.outbox
    ensures st'.otpDefault == Otp.CreateOtp(draw)
  {
    st.(otpDefault := Otp.CreateOtp(draw))
  }

  /** The ownership predicate every todo lookup filters by. */
  predicate Matches(t: Todo, pk: TodoId, owner: UserId) {
    t.id == pk && t.owner == owner
  }

  /** The principal owns the todo stored under `pk`. */
  predicate Owns(st: Store, principal: UserId, pk: TodoId) {
    pk in st.todos && st.todos[pk].owner == principal
  }

  /** `TodoModel.objects.get(pk=pk, user_id=owner)`: the row matching both
      the id and the owner, if there is one. */
  function Lookup(st: Store, pk: TodoId, owner: UserId): (r: Option<Todo>)
    requires Valid(st)
    ensures r.Some? <==> exists t :: t in st.todos.Values && Matches(t, pk, owner)
    ensures r.Some? ==> r.value in st.todos.Values && Matches(r.value, pk, owner)
    ensures r.Some? <==> Owns(st, owner, pk)
    ensures r.Some? ==> r.value == st.todos[pk]
  {
    if pk in st.todos && Matches(st.todos[pk], pk, owner) then Some(st.todos[pk])
    else
      assert forall t :: t in st.todos.Values ==> !Matches(t, pk, owner);
      None
  }

  /** `user.delete()`: the user row goes, and the foreign key's
      `on_delete=CASCADE` takes every todo of that user with it. */
  function DeleteUser(st: Store, uid: UserId): (st': Store)
    ensures st'.users.Keys == st.users.Keys - {uid}
    ensures forall id :: id in st'.users ==> st'.users[id] == st.users[id]
    ensures forall id :: id in st'.todos <==> id in st.todos && st.todos[id].owner != uid
    ensures forall id :: id in st'.todos ==> st'.todos[id] == st.todos[id]
    ensures st'.nextUserId == st.nextUserId && st'.nextTodoId == st.nextTodoId
    ensures st'.otpDefault == st.otpDefault && st'.outbox == st.outbox
    ensures Valid(st) ==> Valid(st')
  {
    st.(users := st.users - {uid},
        todos := map id | id in st.todos && st.todos[id].owner != uid :: st.todos[id])
  }

  /** A todo row removed by id. */
  function RemoveTodo(st: Store, pk: TodoId): (st': Store)
    ensures st'.todos.Keys == st.todos.Keys - {pk}
    ensures forall id :: id in st'.todos ==> st'.todos[id] == st.todos[id]
    ensures st'.users == st.users
    ensures Valid(st) ==> Valid(st')
  {
    st.(todos := st.todos - {pk})
  }

  /** The ids below `k` whose rows satisfy `keep`, in increasing order: the
      rows a filtered query returns, in storage order. */
  function SelectBelow<V>(m: map<nat, V>, keep: V -> bool, k: nat): (ids: seq<nat>)
    ensures forall i :: 0 <= i < |ids| ==> ids[i] < k && ids[i] in m && keep(m[ids[i]])
    ensures forall id :: id < k && id in m && keep(m[id]) ==> id in ids
    ensures forall i, j :: 0 <= i < j < |ids| ==> ids[i] < ids[j]
    decreases k
  {
    if k == 0 then []
    else SelectBelow(m, keep, k - 1) + (if k - 1 in m && keep(m[k - 1]) then [k - 1] else [])
  }

  /** When no row satisfies `keep`, the query returns nothing. */
  lemma {:induction false} SelectBelowNone<V>(m: map<nat, V>, keep: V -> bool, k: nat)
    requires forall id :: id in m ==> !keep(m[id])
    ensures SelectBelow(m, keep, k) == []
    decreases k
  {
    if k > 0 {
      SelectBelowNone(m, keep, k - 1);
    }
  }
}
