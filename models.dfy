/** The two tables, `users` and `tasks`, their records and the rules the database keeps about them. */
module Models {
  import opened Wrappers
  import opened Uuids

  /** A point in time, in whole seconds. */
  type Timestamp = int

  const EmailMaxLength: nat := 255
  const TitleMaxLength: nat := 255
  const DescriptionMaxLength: nat := 2000

  /** A row of `users`. */
  datatype User = User(id: Uuid, email: string, hashedPassword: string, createdAt: Timestamp, updatedAt: Timestamp)

  /** A row of `tasks`. */
  datatype Task = Task(
    id: Uuid,
    title: string,
    description: Option<string>,
    isCompleted: bool,
    userId: Uuid,
    createdAt: Timestamp,
    updatedAt: Timestamp)

  /** `User(email=..., hashed_password=...)`: both timestamps default to the current time. */
  function NewUser(id: Uuid, email: string, hashedPassword: string, now: Timestamp): (u: User)
    ensures u.id == id && u.email == email && u.hashedPassword == hashedPassword
    ensures u.createdAt == now && u.updatedAt == now
  {
    User(id, email, hashedPassword, now, now)
  }

  /** `Task(title=..., user_id=...)`: not completed, no description unless one is given,
      both timestamps the current time. */
  function NewTask(id: Uuid, title: string, userId: Uuid, now: Timestamp, description: Option<string> := None): (t: Task)
    ensures !t.isCompleted
    ensures t.id == id && t.title == title && t.description == description && t.userId == userId
    ensures t.createdAt == now && t.updatedAt == now
  {
    Task(id, title, description, false, userId, now, now)
  }

  /** Every user row is stored under its own primary key. */
  ghost predicate UsersKeyedById(users: map<Uuid, User>)
  {
    forall id :: id in users ==> users[id].id == id
  }

  /** Every task row is stored under its own primary key. */
  ghost predicate TasksKeyedById(tasks: map<Uuid, Task>)
  {
    forall id :: id in tasks ==> tasks[id].id == id
  }

  /** `email` is unique: no two users share one. */
  ghost predicate UniqueEmails(users: map<Uuid, User>)
  {
    forall a, b :: a in users && b in users && users[a].email == users[b].email ==> a == b
  }

  /** The column bounds: email up to 255 characters, title up to 255, description up to 2000. */
  ghost predicate WithinColumnBounds(users: map<Uuid, User>, tasks: map<Uuid, Task>)
  {
    (forall id :: id in users ==> |users[id].email| <= EmailMaxLength)
    && (forall id :: id in tasks ==> |tasks[id].title| <= TitleMaxLength)
    && (forall id :: id in tasks && tasks[id].description.Some? ==> |tasks[id].description.value| <= DescriptionMaxLength)
  }

  /** The foreign key: every task's `user_id` names a stored user. */
  ghost predicate OwnersExist(users: map<Uuid, User>, tasks: map<Uuid, Task>)
  {
    forall id :: id in tasks ==> tasks[id].userId in users
  }

  /** Everything the database guarantees about its two tables. */
  ghost predicate WellFormed(users: map<Uuid, User>, tasks: map<Uuid, Task>)
  {
    UsersKeyedById(users) && TasksKeyedById(tasks) && UniqueEmails(users) && WithinColumnBounds(users, tasks) && OwnersExist(users, tasks)
  }

  /** Storing a task row under its own id, owned by a stored user and within the column bounds, keeps the
      tables well formed. */
  lemma PutTaskKeepsWellFormed(users: map<Uuid, User>, tasks: map<Uuid, Task>, t: Task)
    requires WellFormed(users, tasks) && t.userId in users
    requires |t.title| <= TitleMaxLength && (t.description.Some? ==> |t.description.value| <= DescriptionMaxLength)
    ensures WellFormed(users, tasks[t.id := t])
  {
  }

  /** Deleting a task row keeps the tables well formed. */
  lemma DeleteTaskKeepsWellFormed(users: map<Uuid, User>, tasks: map<Uuid, Task>, id: Uuid)
    requires WellFormed(users, tasks)
    ensures WellFormed(users, tasks - {id})
  {
  }

  /** The ids of the tasks `owner` owns. */
  function OwnedIds(tasks: map<Uuid, Task>, owner: Uuid): set<Uuid>
  {
    set id | id in tasks && tasks[id].userId == owner
  }

  /** Deleting a user row: `ondelete="CASCADE"` deletes every task of that user with it. */
  function DeleteUser(users: map<Uuid, User>, tasks: map<Uuid, Task>, uid: Uuid): (r: (map<Uuid, User>, map<Uuid, Task>))
    requires WellFormed(users, tasks)
    ensures WellFormed(r.0, r.1)
    ensures r.0.Keys == users.Keys - {uid} && forall id :: id in r.0 ==> r.0[id] == users[id]
    ensures r.1.Keys == tasks.Keys - OwnedIds(tasks, uid)
    ensures forall id :: id in r.1 ==> r.1[id] == tasks[id]
  {
    (users - {uid}, map id | id in tasks && tasks[id].userId != uid :: tasks[id])
  }

  /** The database itself: the two tables, updated in place by the route handlers. */
  class Db {
    var users: map<Uuid, User>
    var tasks: map<Uuid, Task>

    ghost predicate Valid()
      reads this
    {
      WellFormed(users, tasks)
    }

    /** An empty database. */
    constructor ()
      ensures Valid() && users == map[] && tasks == map[]
    {
      users := map[];
      tasks := map[];
    }
  }
}
