/** The request bodies with their field constraints, and the response shapes. */
module Schemas {
  import opened Wrappers
  import opened Uuids
  import opened Models
  import Text

  datatype SignupRequest = SignupRequest(email: string, password: string)
  datatype SigninRequest = SigninRequest(email: string, password: string)
  datatype TaskCreate = TaskCreate(title: string, description: Option<string>)
  datatype TaskUpdate = TaskUpdate(title: Option<string>, description: Option<string>)

  /** What the model keeps of `EmailStr`: an address holds an '@' and is at most 254 characters long. */
  predicate ValidEmail(email: string)
  {
    '@' in email && |email| <= 254
  }

  /** `SignupRequest`: a valid email and a password of 8 to 128 characters. */
  predicate ValidSignupRequest(r: SignupRequest)
  {
    ValidEmail(r.email) && 8 <= |r.password| <= 128
  }

  /** `SigninRequest`: a valid email and any password at all. */
  predicate ValidSigninRequest(r: SigninRequest)
  {
    ValidEmail(r.email)
  }

  /** `TaskCreate`: a title of 1 to 255 characters and, if present, a description of at most 2000. */
  predicate ValidTaskCreate(d: TaskCreate)
  {
    1 <= |d.title| <= 255 && (d.description.Some? ==> |d.description.value| <= 2000)
  }

  /** `TaskUpdate`: both fields optional, each bounded as in `TaskCreate` when present. */
  predicate ValidTaskUpdate(d: TaskUpdate)
  {
    (d.title.Some? ==> 1 <= |d.title.value| <= 255)
    && (d.description.Some? ==> |d.description.value| <= 2000)
  }

  /** The title as stored: the validated title with surrounding whitespace removed. */
  function StoredTitle(title: string): (r: string)
    ensures |r| <= |title|
  {
    Text.StripWhitespace(title)
  }

  /** Lengths are checked before trimming, and trimming never lengthens: whatever passes validation fits
      the title and description columns once stored. */
  lemma CreateFitsColumns(d: TaskCreate)
    requires ValidTaskCreate(d)
    ensures |StoredTitle(d.title)| <= TitleMaxLength
    ensures d.description.Some? ==> |d.description.value| <= DescriptionMaxLength
  {
  }

  /** An all-whitespace title passes validation and is stored as the empty string. */
  lemma BlankTitleStoredEmpty(title: string)
    requires 1 <= |title| <= 255
    requires forall i :: 0 <= i < |title| ==> title[i] in Text.Whitespace
    ensures ValidTaskCreate(TaskCreate(title, None))
    ensures StoredTitle(title) == []
  {
    Text.StripAllStripped(title, Text.Whitespace);
  }

  /** Worked examples at the length limits: empty and 256-character titles, a 2001-character description
      and a 5-character signup password are rejected; 255 and 2000 characters pass; a sign-in password has
      no length bound. */
  lemma Boundaries(e: string, p: string)
    requires ValidEmail(e)
    ensures !ValidTaskCreate(TaskCreate("", None))
    ensures ValidTaskCreate(TaskCreate(seq(255, _ => 'x'), Some(seq(2000, _ => 'x'))))
    ensures !ValidTaskCreate(TaskCreate(seq(256, _ => 'x'), None))
    ensures !ValidTaskCreate(TaskCreate("Valid", Some(seq(2001, _ => 'x'))))
    ensures !ValidTaskUpdate(TaskUpdate(Some(seq(256, _ => 'x')), None))
    ensures ValidTaskUpdate(TaskUpdate(None, None))
    ensures !ValidSignupRequest(SignupRequest(e, "short"))
    ensures ValidSigninRequest(SigninRequest(e, p))
  {
  }

  /** A title given in an update is bounded exactly as a title given at creation, and so is a description. */
  lemma UpdateBoundsMatchCreate(title: string, description: Option<string>)
    ensures ValidTaskUpdate(TaskUpdate(Some(title), description)) <==> ValidTaskCreate(TaskCreate(title, description))
    ensures ValidTaskUpdate(TaskUpdate(None, description)) <==> ValidTaskCreate(TaskCreate("x", description))
  {
  }

  /** Every valid sign-up body is also a valid sign-in body, so a user can always sign in with the
      credentials they signed up with. */
  lemma SignupBodySignsIn(r: SignupRequest)
    requires ValidSignupRequest(r)
    ensures ValidSigninRequest(SigninRequest(r.email, r.password))
  {
  }

  datatype UserResponse = UserResponse(id: Uuid, email: string)
  datatype AuthResponse = AuthResponse(user: UserResponse, accessToken: string)

  /** `TaskResponse`: every field of a task except its owner. */
  datatype TaskResponse = TaskResponse(
    id: Uuid,
    title: string,
    description: Option<string>,
    isCompleted: bool,
    createdAt: Timestamp,
    updatedAt: Timestamp)

  /** `TaskListResponse`: a page of tasks and the total number of the caller's tasks. */
  datatype TaskListResponse = TaskListResponse(tasks: seq<TaskResponse>, total: nat)

  /** Serialising a task through `TaskResponse`. */
  function ToTaskResponse(t: Task): (r: TaskResponse)
  {
    TaskResponse(t.id, t.title, t.description, t.isCompleted, t.createdAt, t.updatedAt)
  }

  /** A task response tells one stored row apart from others, but not its owner: tasks that differ only in
      `user_id` serialise identically, and any other difference shows. */
  lemma ResponseHidesOnlyOwner(t1: Task, t2: Task)
    ensures ToTaskResponse(t1) == ToTaskResponse(t2) <==> t1 == t2.(userId := t1.userId)
  {
  }
}
