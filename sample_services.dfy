/**
 * The sample application services: a user's login state, the status line
 * and the undo guards, each a singleton-backed service whose state is one
 * record value held by a singleton repository.
 */
module SampleServices {
  import opened Wrappers
  import opened Changes
  import opened Repositories
  import opened Services

  /** DateTimeOffset and TimeSpan, as a count of ticks. */
  type Instant = int

  /** User(Name, LogInTime); a default record has a null Name, None here. */
  datatype User = User(name: Option<string>, logInTime: Instant)

  datatype StatusCode = Good | Warning | Critical

  /** Status(Message, Code). */
  datatype Status = Status(message: Option<string>, code: StatusCode)

  /** UndoItem(RepoId, ModelId, OldValue, NewValue). */
  datatype UndoItem = UndoItem(repoId: Guid, modelId: Guid, oldValue: Option<string>, newValue: Option<string>)

  /** UndoState(CurrentIndex, UndoItems); a default record has a null list, None here. */
  datatype UndoState = UndoState(currentIndex: int, undoItems: Option<seq<UndoItem>>)

  /** The state `default(UndoState)` the singleton repository starts from when it is given no value. */
  const DefaultUndoState := UndoState(0, None)

  /** char.IsWhiteSpace: the Unicode space, line and paragraph separators, and U+0009..U+000D and U+0085. */
  predicate IsWhiteSpace(c: char) {
    || '\U{9}' <= c <= '\U{D}'
    || c == '\U{20}' || c == '\U{85}' || c == '\U{A0}' || c == '\U{1680}'
    || '\U{2000}' <= c <= '\U{200A}'
    || c == '\U{2028}' || c == '\U{2029}' || c == '\U{202F}' || c == '\U{205F}' || c == '\U{3000}'
  }

  /** string.IsNullOrWhiteSpace: null, empty, or white space only. */
  predicate IsNullOrWhiteSpace(s: Option<string>) {
    s.None? || forall i :: 0 <= i < |s.value| ==> IsWhiteSpace(s.value[i])
  }

  /** A user is logged in when the name holds something other than white space. */
  predicate IsLoggedIn(u: User) {
    !IsNullOrWhiteSpace(u.name)
  }

  /** The record LogIn writes: the new name and the time of login. */
  function LoggedInAs(u: User, name: string, now: Instant): (v: User)
    ensures v.name == Some(name) && v.logInTime == now
  {
    u.(name := Some(name), logInTime := now)
  }

  /** The record LogOut writes: the name emptied, the login time kept. */
  function LoggedOut(u: User): (v: User)
    ensures !IsLoggedIn(v)
    ensures v.logInTime == u.logInTime
  {
    u.(name := Some(""))
  }

  /** Logging in with a usable name is what makes the user logged in. */
  lemma LogInMakesLoggedIn(u: User, name: string, now: Instant)
    ensures IsLoggedIn(LoggedInAs(u, name, now)) <==> !IsNullOrWhiteSpace(Some(name))
  {
  }

  /** Logging in and then out leaves the login time of the session behind. */
  lemma LogInThenOut(u: User, name: string, now: Instant)
    ensures LoggedOut(LoggedInAs(u, name, now)) == User(Some(""), now)
    ensures !IsLoggedIn(LoggedOut(LoggedInAs(u, name, now)))
  {
  }

  /** The default record has no user logged in. */
  lemma DefaultUserLoggedOut(u: User)
    requires u.name.None?
    ensures !IsLoggedIn(u)
  {
  }

  /** TimeLoggedIn at `now`: the time since login, zero when nobody is logged in. */
  function SessionLength(u: User, now: Instant): (t: Instant)
    ensures !IsLoggedIn(u) ==> t == 0
    ensures IsLoggedIn(u) ==> t + u.logInTime == now
  {
    if IsLoggedIn(u) then now - u.logInTime else 0
  }

  /** CanUndo on a state: there is an item at or below the current index. */
  function CanUndoState(s: UndoState): (b: bool)
    ensures b <==> s.currentIndex >= 0
  {
    s.currentIndex >= 0
  }

  /** CanRedo on a state: there is an item above the current index; a null list throws. */
  function CanRedoState(s: UndoState): (r: Result<bool>)
    ensures r.Failure? <==> s.undoItems.None?
    ensures r.Failure? ==> r.error == NullReference
    ensures r.Success? ==> (r.value <==> s.currentIndex < |s.undoItems.value| - 1)
  {
    match s.undoItems
    case None => Failure(NullReference)
    case Some(items) => Success(s.currentIndex < |items| - 1)
  }

  /** In a non-empty history with the index at an item or just below the first, one of the two is possible. */
  lemma UndoOrRedoPossible(s: UndoState)
    requires s.undoItems.Some? && |s.undoItems.value| > 0
    requires -1 <= s.currentIndex < |s.undoItems.value|
    ensures CanUndoState(s) || CanRedoState(s) == Success(true)
  {
  }

  /** At the newest item nothing can be redone; below the first nothing can be undone. */
  lemma UndoRedoAtTheEnds(s: UndoState)
    requires s.undoItems.Some?
    ensures s.currentIndex == |s.undoItems.value| - 1 ==> CanRedoState(s) == Success(false)
    ensures s.currentIndex == -1 ==> !CanUndoState(s)
    ensures s.currentIndex == -1 && s.undoItems.value == [] ==> CanRedoState(s) == Success(false)
  {
  }

  /** The default state claims there is something to undo, and CanRedo throws on it. */
  lemma DefaultUndoStateGuards()
    ensures CanUndoState(DefaultUndoState)
    ensures CanRedoState(DefaultUndoState) == Failure(NullReference)
  {
  }

  /** UserService: login state over the singleton repository of User. */
  class UserService {
    const base: SingletonModelBackedService<User>

    ghost predicate Valid()
      reads this, base, base.repository
    {
      base.Valid()
    }

    constructor (repository: Repository<User>)
      requires repository.Valid() && repository.singletonModel.Some?
      modifies repository`listeners, repository`nextListener
      ensures Valid() && base.repository == repository
      ensures repository.listeners == old(repository.listeners) + [base.listener]
    {
      base := new SingletonModelBackedService(repository);
    }

    /** LoggedIn: the current user's name is not null or white space. */
    function LoggedIn(): (r: Result<bool>)
      requires Valid()
      reads this, base, base.repository
      ensures r.Success? <==> base.Value().Success?
      ensures r.Failure? ==> r.error == base.Value().error
      ensures r.Success? ==> (r.value <==> IsLoggedIn(base.Value().value))
    {
      var u :- base.Value();
      Success(IsLoggedIn(u))
    }

    /** CanLogIn: exactly when nobody is logged in. */
    function CanLogIn(): (r: Result<bool>)
      requires Valid()
      reads this, base, base.repository
      ensures r.Success? <==> LoggedIn().Success?
      ensures r.Success? ==> r.value == !LoggedIn().value
    {
      var b :- LoggedIn();
      Success(!b)
    }

    /** CanLogOut: exactly when somebody is logged in. */
    function CanLogOut(): (r: Result<bool>)
      requires Valid()
      reads this, base, base.repository
      ensures r == LoggedIn()
      ensures r.Success? && CanLogIn().Success? ==> r.value != CanLogIn().value
    {
      LoggedIn()
    }

    /** TimeLoggedIn at the instant `now`. */
    function TimeLoggedIn(now: Instant): (r: Result<Instant>)
      requires Valid()
      reads this, base, base.repository
      ensures r.Success? <==> base.Value().Success?
      ensures r.Success? ==> r.value == SessionLength(base.Value().value, now)
      ensures LoggedIn() == Success(false) ==> r == Success(0)
    {
      var u :- base.Value();
      Success(SessionLength(u, now))
    }

    /**
     * LogIn at the instant `now`: refused when somebody is logged in already,
     * which is checked first, and then when the name is null or white space;
     * otherwise the name and the login time are written through Model.Value.
     */
    method LogIn(name: Option<string>, now: Instant) returns (r: Result<()>)
      requires Valid()
      modifies base.repository`dict, base.repository.log`trace
      ensures Valid()
      ensures old(LoggedIn()).Failure? ==> r == Failure(old(LoggedIn()).error)
      ensures old(LoggedIn()) == Success(true) ==> r == Failure(AlreadyLoggedIn)
      ensures old(LoggedIn()) == Success(false) && IsNullOrWhiteSpace(name) ==> r == Failure(InvalidName)
      ensures r.Success? <==> old(LoggedIn()) == Success(false) && !IsNullOrWhiteSpace(name)
      ensures r.Failure? ==> base.repository.dict == old(base.repository.dict) && base.repository.log.trace == old(base.repository.log.trace)
      ensures r.Success? && base.repository.Validate(LoggedInAs(old(base.Value()).value, name.value, now)) == Success(true) ==>
        base.Value() == Success(LoggedInAs(old(base.Value()).value, name.value, now)) && LoggedIn() == Success(true)
      ensures r.Success? && base.repository.Validate(LoggedInAs(old(base.Value()).value, name.value, now)) == Success(false) ==>
        base.Value() == old(base.Value()) && LoggedIn() == Success(false)
    {
      var loggedIn :- LoggedIn();
      if loggedIn {
        return Failure(AlreadyLoggedIn);
      }
      if IsNullOrWhiteSpace(name) {
        return Failure(InvalidName);
      }
      var u := base.Value().value;
      LogInMakesLoggedIn(u, name.value, now);
      var written := base.SetValue(LoggedInAs(u, name.value, now));
      r := Success(());
    }

    /** LogOut: the name becomes "" through Model.Value; the login time is kept. */
    method LogOut() returns (r: Result<()>)
      requires Valid()
      modifies base.repository`dict, base.repository.log`trace
      ensures Valid()
      ensures r.Success? <==> old(base.Value()).Success?
      ensures r.Failure? ==> r.error == old(base.Value()).error
      ensures r.Failure? ==> base.repository.dict == old(base.repository.dict) && base.repository.log.trace == old(base.repository.log.trace)
      ensures r.Success? && base.repository.Validate(LoggedOut(old(base.Value()).value)) == Success(true) ==>
        base.Value() == Success(LoggedOut(old(base.Value()).value)) && LoggedIn() == Success(false)
      ensures r.Success? && base.repository.Validate(LoggedOut(old(base.Value()).value)) == Success(false) ==>
        base.Value() == old(base.Value())
    {
      var current :- base.Value();
      var written := base.SetValue(LoggedOut(current));
      r := Success(());
    }
  }

  /** StatusService: the status line over the singleton repository of Status. */
  class StatusService {
    const base: SingletonModelBackedService<Status>

    ghost predicate Valid()
      reads this, base, base.repository
    {
      base.Valid()
    }

    constructor (repository: Repository<Status>)
      requires repository.Valid() && repository.singletonModel.Some?
      modifies repository`listeners, repository`nextListener
      ensures Valid() && base.repository == repository
      ensures repository.listeners == old(repository.listeners) + [base.listener]
    {
      base := new SingletonModelBackedService(repository);
    }

    /** The Status getter: the current message. */
    function Status(): (r: Result<Option<string>>)
      requires Valid()
      reads this, base, base.repository
      ensures r.Success? <==> base.Value().Success?
      ensures r.Success? ==> r.value == base.Value().value.message
    {
      var s :- base.Value();
      Success(s.message)
    }

    /** The Status setter: a new message, the code kept. */
    method SetStatus(message: Option<string>) returns (r: Result<()>)
      requires Valid()
      modifies base.repository`dict, base.repository.log`trace
      ensures Valid()
      ensures r.Success? <==> old(base.Value()).Success?
      ensures r.Failure? ==> r.error == old(base.Value()).error
      ensures r.Failure? ==> base.repository.dict == old(base.repository.dict) && base.repository.log.trace == old(base.repository.log.trace)
      ensures r.Success? && base.repository.Validate(old(base.Value()).value.(message := message)) == Success(true) ==>
        Status() == Success(message) && base.Value().value.code == old(base.Value()).value.code
      ensures r.Success? && base.repository.Validate(old(base.Value()).value.(message := message)) == Success(false) ==>
        base.Value() == old(base.Value())
    {
      var current :- base.Value();
      var written := base.SetValue(current.(message := message));
      r := Success(());
    }
  }

  /** UndoService: the undo guards over the singleton repository of UndoState. */
  class UndoService {
    const base: SingletonModelBackedService<UndoState>

    ghost predicate Valid()
      reads this, base, base.repository
    {
      base.Valid()
    }

    constructor (repository: Repository<UndoState>)
      requires repository.Valid() && repository.singletonModel.Some?
      modifies repository`listeners, repository`nextListener
      ensures Valid() && base.repository == repository
      ensures repository.listeners == old(repository.listeners) + [base.listener]
    {
      base := new SingletonModelBackedService(repository);
    }

    /** CanUndo: the current index is not below the first item. */
    function CanUndo(): (r: Result<bool>)
      requires Valid()
      reads this, base, base.repository
      ensures r.Success? <==> base.Value().Success?
      ensures r.Success? ==> (r.value <==> base.Value().value.currentIndex >= 0)
    {
      var s :- base.Value();
      Success(CanUndoState(s))
    }

    /** CanRedo: the current index is below the newest item; a null item list throws. */
    function CanRedo(): (r: Result<bool>)
      requires Valid()
      reads this, base, base.repository
      ensures r.Success? <==> base.Value().Success? && base.Value().value.undoItems.Some?
      ensures base.Value().Success? && base.Value().value.undoItems.None? ==> r == Failure(NullReference)
      ensures r.Success? ==> (r.value <==> base.Value().value.currentIndex < |base.Value().value.undoItems.value| - 1)
    {
      var s :- base.Value();
      CanRedoState(s)
    }
  }
}
