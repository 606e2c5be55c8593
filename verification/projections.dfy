/** What the response serializers expose (users/serializers.py,
    todos/serializers.py): each view is a datatype holding exactly the
    declared fields, so a field left out of the list cannot appear. */
module Projections {
  import opened Records

  /** `UserProfileSerializer`: id, name, surname. */
  datatype Profile = Profile(id: UserId, name: string, surname: string)

  /** `MyInfoSerializer`: id, name, surname, email, age, image. */
  datatype MyInfo = MyInfo(id: UserId, name: string, surname: string, email: string, age: int, image: string)

  /** `TodoModelSerializer`: id, title, created_at, deadline and the owner
      embedded as a profile. */
  datatype ListItem = ListItem(id: TodoId, title: string, createdAt: Time, deadline: Time, owner: Profile)

  /** `TodoRertrieveSerializer` with `fields = "__all__"`: every column, the
      owner as its key. */
  datatype TodoDetail = TodoDetail(
    id: TodoId, title: string, createdAt: Time, deadline: Time,
    isFinished: bool, isUrgent: bool, owner: UserId)

  /** `TodoCreateSerizalizer` output: title, deadline, is_urgent. */
  datatype CreatedView = CreatedView(title: string, deadline: Time, isUrgent: bool)

  function ProfileOf(u: User): Profile {
    Profile(u.id, u.name, u.surname)
  }

  function MyInfoOf(u: User): MyInfo {
    MyInfo(u.id, u.name, u.surname, u.email, u.age, u.image)
  }

  function ListItemOf(t: Todo, owner: User): ListItem {
    ListItem(t.id, t.title, t.createdAt, t.deadline, ProfileOf(owner))
  }

  function DetailOf(t: Todo): TodoDetail {
    TodoDetail(t.id, t.title, t.createdAt, t.deadline, t.isFinished, t.isUrgent, t.owner)
  }

  function CreatedViewOf(t: Todo): CreatedView {
    CreatedView(t.title, t.deadline, t.isUrgent)
  }

  /** The profile depends on id, name and surname only. */
  lemma ProfileExposesOnly(u: User, v: User)
    ensures ProfileOf(u) == ProfileOf(v) <==> u.id == v.id && u.name == v.name && u.surname == v.surname
  {
  }

  /** Two users show the same my-info exactly when they agree on the six
      public fields; password, OTP and activation never show. */
  lemma MyInfoExposesOnly(u: User, v: User)
    ensures MyInfoOf(u) == MyInfoOf(v) <==>
              && u.id == v.id && u.name == v.name && u.surname == v.surname
              && u.email == v.email && u.age == v.age && u.image == v.image
  {
  }

  lemma MyInfoHidesSecrets(u: User, password: string, otp: string, isActive: bool)
    ensures MyInfoOf(u.(password := password, otp := otp, isActive := isActive)) == MyInfoOf(u)
  {
  }

  /** A list entry does not reveal the finished or urgent flag. */
  lemma ListItemHidesFlags(t: Todo, owner: User, isFinished: bool, isUrgent: bool)
    ensures ListItemOf(t.(isFinished := isFinished, isUrgent := isUrgent), owner) == ListItemOf(t, owner)
  {
  }

  /** The detail view loses nothing: equal details mean equal rows. */
  lemma DetailExposesAll(t: Todo, u: Todo)
    ensures DetailOf(t) == DetailOf(u) <==> t == u
  {
  }
}
