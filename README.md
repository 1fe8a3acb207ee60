# Domo, modelled in Dafny

Domo is an in-process reactive entity store for .NET. A **repository** holds the state of one value type. An aggregate repository holds any number of entries and a singleton repository holds one. Each entry is a value together with a **model**, a handle whose id never changes and which raises `PropertyChanged` when its value is replaced. `Repository.Update` applies a change in a fixed order:

1. read the old value;
2. compute the new one;
3. return early when the two are equal;
4. validate the new value;
5. commit it, notify the model, then raise `RepositoryChanged`.

A rejected value raises `RepositoryChanged` with kind `ModelInvalid` and commits nothing.

A **named command** pairs an action with a guard. It re-raises `CanExecuteChanged` on every event of the repository it watches. **Services** keep a dictionary of such commands and sit on a singleton or an aggregate repository. The **data store** owns one repository per value type. The sample application adds a user service (log in, log out), a status line and the undo guards.

The model is written in the source's own form:

- Classes with mutable fields: `Repository`, `Model`, `NamedCommand`, `Service`, the model-backed services, `DataStore` and the sample services.
- Loops where the source loops or enumerates:
  - raising an event over its subscribers;
  - disposing every model;
  - `DeleteAllRepositories`.
- Pure functions for the getters and predicates.

How .NET mechanisms are represented:

- **Exceptions** become `Result.Failure` with an `Error` kind.
  - `KeyNotFound`: a dictionary indexer missed.
  - `NullReference`: the repository's dictionary or validator was nulled by `Dispose`, or a guard delegate is null.
  - `DuplicateKey`: `Dictionary.Add` with an existing key.
  - `SingletonHasModel`: a second `Add` on a singleton.
  - `AlreadyLoggedIn` and `InvalidName`: the user service's own exceptions.
- **Multicast events** become ordered subscriber sequences. Each invocation of a handler is appended to the repository's `EventLog.trace`. The order in which a change reaches the model and the repository's subscribers is therefore part of what the contracts state.
- **`Guid.NewGuid`** becomes a counter. A ghost set records every id issued, so a fresh id is provably new.
- **`System.Type`** becomes a `TypeTag` string attached to each repository. The store holds repositories of one Dafny value type.

Files:

- `wrappers.dfy`: `Option`, `Result` and the error kinds.
- `seqs.dfy`: the sequence facts used by the ordered collections.
- `changes.dfy`: the change kinds, the event arguments, the invocation log and lemmas that count deliveries.
- `repositories.dfy`: `Model` and `Repository`. They share one module because each calls the other.
- `commands.dfy`: delegates and `NamedCommand`.
- `services.dfy`: `Service` and the singleton- and aggregate-backed services.
- `datastores.dfy`: the `IDataStore` contract and the `DomoExtensions` methods.
- `sample_services.dfy`: the sample user, status and undo services.

Where the code does less than its own declarations and doc comments suggest, or less than a natural design would, the model follows the code:

- **Singleton delete.** One could expect a singleton's only entry to be protected from deletion. The code has no such guard: `Delete` removes it, and `Value` then fails with `KeyNotFound`. The code does guard against a second `Add` on a singleton.
- **Events from Add and Delete.** `RepositoryChangeType` declares `ModelAdded` and `ModelRemoved` (Domo/Interfaces.cs:12-13), and `IRepository` declares `Clear` (Domo/Interfaces.cs:140). The code emits nothing on `Add` or `Delete`, implements no `Clear` and never raises `CollectionChanged`.
- **Singleton model id.** The doc comment of `ISingletonRepository` (Domo/Interfaces.cs:180-183) says the model's Guid equals the repository's. The code mints a fresh id.
- **Guard.** A command built without a guard could be expected to be executable. The code calls the null delegate and throws.
- **`RepositoryChangeArgs.Repository`** is never assigned, so it is `None` in every event.
- **Validation on Add.** `Add` does not validate, and neither does the singleton constructor when it adds the initial value.
- **Dispose twice.** A second `Dispose` of a repository throws, because the first one nulled the dictionary.
- **RegisterCommand with a duplicate name.** The new command has already subscribed to the repository when the duplicate name makes `Dictionary.Add` throw.

`Domo.Sample.Services/Classes.cs` repeats `NamedCommand`, `Service` and the services with two differences: the constructors take an `IDataStore` instead of an `IRepositoryManager`, and its `Service` has no `GetCommands`. The rows below citing `Domo/NamedCommand.cs` and `Domo/Services.cs` cover both copies (NamedCommand.cs:19-32 matches Classes.cs:8-21, Services.cs:37-45 matches Classes.cs:37-45, and Services.cs:51-98 matches Classes.cs:48-95), except the `GetCommands` row, which covers `Domo/Services.cs` only.

## Model

| member | source | states |
|---|---|---|
| Seqs.RemoveLast | Domo/Model.cs:11 | `-=` on an event removes one occurrence of the handler: one fewer element, the multiset less that one handler; a handler not subscribed leaves the list alone |
| Seqs.RemoveLastDropsLast | Domo/Model.cs:11 | the occurrence removed is the last one, and the handlers before and after it keep their order |
| Changes.Ordinal | Domo/Interfaces.cs:8-16 | each change kind has its declared value, below 6, and `FromOrdinal` maps it back |
| Changes.FromOrdinal | Domo/Interfaces.cs:8-16 | exactly the values 0..5 name a change kind |
| Changes.OrdinalInjective | Domo/Interfaces.cs:8-16 | distinct change kinds have distinct values |
| Changes.Deliveries | Domo/Repository.cs:60 | raising RepositoryChanged invokes every subscriber once, in subscription order, each with the same arguments |
| Changes.Notifications | Domo/Model.cs:40-41 | raising PropertyChanged invokes every subscriber once, in order, with the empty property name |
| Changes.DeliveredOnce | Domo/Repository.cs:65 | one raise of RepositoryChanged reaches each distinct subscriber exactly once, and no one else |
| Changes.NotificationsAreNoEvents | Domo/Model.cs:40-41 | model notifications are never counted as repository events |
| Repositories.Model.constructor | Domo/Model.cs:8-9 | the handle keeps the id and repository it is given and starts with no subscribers |
| Repositories.Model.Dispose | Domo/Model.cs:13-16 | disposing a model removes all its PropertyChanged handlers |
| Repositories.Model.AddPropertyChangedHandler | Domo/Model.cs:11 | `+=` appends the handler |
| Repositories.Model.RemovePropertyChangedHandler | Domo/Model.cs:11 | `-=` removes the handler's last occurrence |
| Repositories.Model.TriggerChangeNotification | Domo/Model.cs:40-41 | the log grows by exactly one PropertyChanged("") to each subscriber, in order |
| Repositories.Model.ValueType | Domo/Model.cs:32-33 | the model's value type is its repository's |
| Repositories.Model.Value | Domo/Model.cs:20-22 | the getter, corrected: the value stored under the model's id; it fails with KeyNotFound once the entry is deleted and with NullReference once the repository is disposed |
| Repositories.Model.SetValue | Domo/Model.cs:23 | the setter is Update with a constant function. Equal value: nothing happens. Rejected value: one ModelInvalid event carrying both values. Otherwise: the value is replaced, the handle kept, the model's subscribers notified, then one ModelUpdated event. Failure changes nothing |
| Repositories.ValueGetterAsWritten | Domo/Model.cs:22 | the getter as written never returns a value |
| Repositories.ValueGetterOverflows | Domo/Model.cs:22 | as written, the getter on a live id overflows the stack at every depth; on a missing id or a disposed repository it throws |
| Repositories.GetterDiscrepancy | Domo/Model.cs:20-22 | on a live model the corrected getter returns the stored value, which the as-written getter never does |
| Repositories.Repository.Aggregate | Domo/Repository.cs:117-121 | a new aggregate repository is empty and not disposed, with no subscribers and with the given id, version and validator |
| Repositories.Repository.Singleton | Domo/Repository.cs:128-134 | a new singleton repository holds exactly one entry, the given value with a fresh handle, and that handle is `Model`; the value is not validated |
| Repositories.Repository.Subscribe | Domo/Repository.cs:88 | `RepositoryChanged +=` appends a handler not subscribed before |
| Repositories.Repository.Emit | Domo/Repository.cs:65 | the log grows by exactly one delivery of the arguments to each subscriber, in order |
| Repositories.Repository.Validate | Domo/Repository.cs:69-73 | the validator's verdict; without a validator every value is valid (Repository.cs:120); after Dispose it throws |
| Repositories.Repository.GetModel | Domo/Repository.cs:90-91 | the handle stored under the id, and that handle carries this id and this repository; a missing id is KeyNotFound |
| Repositories.Repository.GetValue | Domo/Repository.cs:93-94 | the value stored under the id; a missing id is KeyNotFound |
| Repositories.Repository.UntypedGetValueAsWritten | Domo/Repository.cs:37-38 | the untyped GetValue as written returns the model, not the value |
| Repositories.Repository.UntypedGetValue | Domo/Interfaces.cs:97-100 | the untyped GetValue as documented returns the stored value |
| Repositories.Repository.ModelExists | Domo/Repository.cs:108-109 | true exactly when GetModel succeeds, false exactly when GetModel misses the key |
| Repositories.Repository.GetModels | Domo/Repository.cs:85-86 | a new list of exactly the live handles, in enumeration order, without repetition |
| Repositories.Repository.Add | Domo/Repository.cs:75-83 | a singleton that already holds an entry refuses; otherwise one new entry under an id never issued before, holding the state and a new handle; nothing is emitted |
| Repositories.Repository.Update | Domo/Repository.cs:40-67 | missing id: KeyNotFound, nothing changes. Equal value: false, no change, no event. Rejected value: false, no change, one ModelInvalid event with old and new value. Otherwise: true, only that entry's value replaced and its handle kept; its subscribers are notified before one ModelUpdated event |
| Repositories.Repository.Delete | Domo/Repository.cs:102-106 | disposes that entry's handle and removes only that entry; a missing id is KeyNotFound; afterwards ModelExists is not true; nothing is emitted |
| Repositories.Repository.Dispose | Domo/Repository.cs:26-32 | every owned model loses its handlers and the repository ends empty and disposed; a second Dispose throws |
| Commands.DynamicInvokeAsWritten | Domo/NamedCommand.cs:28-32 | `DynamicInvoke(parameter)` as written: one argument always, so a parameterless delegate throws |
| Commands.Invoke | Domo/NamedCommand.cs:28-32 | the intended call: no argument for a parameterless delegate, the parameter for a one-parameter delegate |
| Commands.CallOf | Domo/NamedCommand.cs:31-32 | the recorded call names the delegate's method and carries the parameter exactly when the delegate takes one |
| Commands.NoArgDelegatesFailAsWritten | Domo/NamedCommand.cs:29 | every parameterless delegate fails as written, while the intended call runs its body |
| Commands.OneArgDelegatesAgree | Domo/NamedCommand.cs:29 | for a one-parameter delegate the written and the intended call agree |
| Commands.NamedCommand.constructor | Domo/NamedCommand.cs:19-26 | the name is the action's method name, and the command subscribes one new handler to the repository |
| Commands.NamedCommand.CanExecute | Domo/NamedCommand.cs:28-29 | false exactly when the guard returns literal false; true when it returns true or null; a null guard throws |
| Commands.NamedCommand.Execute | Domo/NamedCommand.cs:31-32 | the action's method is called once, with the parameter exactly when it declares one |
| Commands.ResignalledOncePerEvent | Domo/NamedCommand.cs:24-25 | each raise of the watched repository's event, of any kind, raises CanExecuteChanged exactly once, including an Update's model notifications followed by its event |
| Services.Service.constructor | Domo/Services.cs:30-35 | a service starts with no commands |
| Services.Service.RegisterCommand | Domo/Services.cs:37-42 | a duplicate name throws DuplicateKey and leaves the dictionary unchanged, after the new command has subscribed; otherwise GetCommand of the name returns the new command |
| Services.Service.GetCommand | Domo/Services.cs:44-45 | the command registered under the name; an unknown name is KeyNotFound |
| Services.Service.GetCommands | Domo/Services.cs:47-48 | exactly the registered commands, in registration order |
| Services.SingletonModelBackedService.constructor | Domo/Services.cs:53-58 | the service subscribes one new handler to its singleton repository and starts with no commands |
| Services.SingletonModelBackedService.Model | Domo/Services.cs:70 | the repository's singleton handle |
| Services.SingletonModelBackedService.Value | Domo/Services.cs:74 | the value of the singleton entry |
| Services.SingletonModelBackedService.SetValue | Domo/Services.cs:75 | round trip: after a write the validator accepts, Value is the value written; after a rejected write it is unchanged; true exactly when the value differed and was accepted |
| Services.SingletonModelBackedService.AddPropertyChangedHandler | Domo/Services.cs:65 | subscribing to the service subscribes to its model |
| Services.SingletonModelBackedService.RemovePropertyChangedHandler | Domo/Services.cs:66 | unsubscribing from the service unsubscribes from its model |
| Services.AggregateModelBackedService.constructor | Domo/Services.cs:81-86 | the service subscribes one new handler to its aggregate repository |
| Services.AggregateModelBackedService.Models | Domo/Services.cs:98 | mirrors GetModels: every live handle of the repository and nothing else |
| DataStores.DataStore.constructor | Domo/Interfaces.cs:32-34 | a new store holds no repositories |
| DataStores.DataStore.AddRepository | Domo/Interfaces.cs:35-39 | the store keeps the repository, appended to those it holds; one for a value type already held is refused and nothing changes (that refusal is a modelling choice, see Left out) |
| DataStores.DataStore.GetRepositories | Domo/Interfaces.cs:41-45 | a copy of exactly the repositories held at the moment |
| DataStores.DataStore.GetRepository | Domo/Interfaces.cs:52-55 | the held repository of that value type; NotFound exactly when none is held |
| DataStores.DataStore.DeleteRepository | Domo/Interfaces.cs:47-50 | a held repository is removed (the others kept in order) and disposed, its dictionary emptied and every model it owned unsubscribed; disposing one already disposed is the NullReference of a second Dispose; a repository not held is NotFound (a modelling choice, see Left out) and nothing changes, neither the repository nor its models; the frame leaves its subscribers, counters and log alone in every case |
| DataStores.DataStore.Dispose | Domo/Interfaces.cs:27-33 | disposing the store deletes every repository it holds, as DeleteAllRepositories does: if none had been disposed before it succeeds, and then the store is empty, every repository disposed and every model they owned unsubscribed |
| DataStores.GetRepositoryOf | Domo/DomoExtensions.cs:8-9 | the store's repository for the type, or NotFound when the store holds none |
| DataStores.DeleteAllRepositories | Domo/DomoExtensions.cs:11-15 | DeleteRepository is called on each repository of the entry snapshot in order; if none had been disposed before it succeeds; on success the store ends empty with every repository disposed and every model they owned unsubscribed; a failure is the NullReference of a second Dispose |
| SampleServices.LoggedInAs | Domo.Sample.Services/Services.cs:91 | the record a login writes has the new name and the login time |
| SampleServices.LoggedOut | Domo.Sample.Services/Services.cs:100-101 | the record a logout writes is logged out and keeps the login time |
| SampleServices.LogInMakesLoggedIn | Domo.Sample.Services/Services.cs:103-104 | after a login the user is logged in exactly when the name is not null or white space |
| SampleServices.LogInThenOut | Domo.Sample.Services/Services.cs:100-104 | logging in then out leaves an empty name and the session's login time; nobody is logged in |
| SampleServices.DefaultUserLoggedOut | Domo.Sample.Services/Services.cs:103-104 | the default record, with a null name, is logged out |
| SampleServices.SessionLength | Domo.Sample.Services/Services.cs:106-107 | the time since login while logged in, zero otherwise |
| SampleServices.CanUndoState | Domo.Sample.Services/Services.cs:158-159 | undo is possible exactly when the current index is at least 0 |
| SampleServices.CanRedoState | Domo.Sample.Services/Services.cs:161-162 | redo is possible exactly when the current index is below the last item; a null item list throws |
| SampleServices.UndoOrRedoPossible | Domo.Sample.Services/Services.cs:158-162 | in a non-empty history with the index in range, undo or redo is possible |
| SampleServices.UndoRedoAtTheEnds | Domo.Sample.Services/Services.cs:158-162 | at the newest item redo is impossible; below the first, undo is impossible |
| SampleServices.DefaultUndoStateGuards | Domo.Sample.Services/Services.cs:158-162 | on the default state undo is possible and the redo guard throws |
| SampleServices.UserService.constructor | Domo.Sample.Services/Services.cs:82-83 | the service is set up over the singleton User repository |
| SampleServices.UserService.LoggedIn | Domo.Sample.Services/Services.cs:103-104 | logged in exactly when the stored name is not null or white space |
| SampleServices.UserService.CanLogIn | Domo.Sample.Services/Services.cs:94-95 | CanLogIn is the negation of LoggedIn |
| SampleServices.UserService.CanLogOut | Domo.Sample.Services/Services.cs:97-98 | CanLogOut equals LoggedIn and so is the opposite of CanLogIn |
| SampleServices.UserService.TimeLoggedIn | Domo.Sample.Services/Services.cs:106-107 | the session length at the given instant, zero when nobody is logged in |
| SampleServices.UserService.LogIn | Domo.Sample.Services/Services.cs:85-92 | an existing login is refused before the name is checked; a null or white-space name is refused; refusals change nothing; otherwise the name and time are written and, if accepted, LoggedIn afterwards holds |
| SampleServices.UserService.LogOut | Domo.Sample.Services/Services.cs:100-101 | the name becomes "" with the login time kept, and LoggedIn afterwards is false |
| SampleServices.StatusService.constructor | Domo.Sample.Services/Services.cs:62-66 | the service is set up over the singleton Status repository |
| SampleServices.StatusService.Status | Domo.Sample.Services/Services.cs:70 | the getter returns the stored message |
| SampleServices.StatusService.SetStatus | Domo.Sample.Services/Services.cs:71 | the setter replaces only the message: once accepted the getter returns it and the code is unchanged |
| SampleServices.UndoService.constructor | Domo.Sample.Services/Services.cs:142-147 | the service is set up over the singleton UndoState repository |
| SampleServices.UndoService.CanUndo | Domo.Sample.Services/Services.cs:158-159 | CanUndo holds exactly when CurrentIndex >= 0 |
| SampleServices.UndoService.CanRedo | Domo.Sample.Services/Services.cs:161-162 | CanRedo holds exactly when CurrentIndex < UndoItems.Count - 1; a null list throws |

## Left out

- `IRepository.Clear`, `IAggregateRepository.Count` and its indexer, and `AggregateRepository.CollectionChanged` are declared, but no class shown implements them or raises the event. They are not modelled.
- The data store's `RepositoryChanged` event and the `RepositoryChanging` event of the `Domo/Classes.cs` stub (Domo/Classes.cs:72): the stub throws `NotImplementedException`, so the store is modelled from the `IDataStore` contract only. That contract documents `RepositoryChanged` only as raised after a change to a repository (Domo/Interfaces.cs:57-60). It does not say which operations count as such a change or what arguments the event carries, and it does not mention `RepositoryChanging`. Neither event is modelled. The store's `Dispose` is modelled from the contract's doc comment (Domo/Interfaces.cs:29).
- DataStores.DataStore.AddRepository: refusing a second repository for a value type already held is a modelling choice. `IDataStore` does not say what happens then; the choice keeps `GetRepository(Type)` (Domo/Interfaces.cs:52-55), which returns one repository per type, well defined.
- DataStores.DataStore.DeleteRepository: reporting NotFound for a repository the store does not hold is a modelling choice. `IDataStore` (Domo/Interfaces.cs:47-50) does not say what happens then.
- DataStores.DataStore.GetRepository: reporting NotFound for a value type the store does not hold is a modelling choice. `IDataStore.GetRepository(Type)` (Domo/Interfaces.cs:52-55) does not say what happens then, and the stub throws `NotImplementedException`. `DataStores.GetRepositoryOf`, the cast of Domo/DomoExtensions.cs:9, inherits the choice; in .NET a null result would pass through that cast as null.
- Commands.NamedCommand.constructor and Services.Service.RegisterCommand: the command's action and guard take a parameter of the watched repository's value type `T`, and `RegisterCommand` accepts only a `Repository<T>`. In the source the parameter is `object` (Domo/NamedCommand.cs:28, 31) and `RegisterCommand` takes any `IRepository` (Domo/Services.cs:37). A command whose parameter type differs from the type of the repository it watches is therefore not modelled.
- The services get their repository from `IRepositoryManager.GetSingletonRepository`/`GetAggregateRepository`, which is not part of this model. The services' constructors take the repository directly.
- `OnModelChanged`, used by `StatusService`, `LogService` and `ApplicationEventService`, is not part of this model. Neither are `LogService.Log`, `ApplicationEventService` and `Repository.Create`.
- SampleServices.UndoService.constructor: leaves out the store-wide `RepositoryChanged` subscription and the `RegisterCommand(Undo, () => CanUndo)` call. The guard reads the service's mutable state, and the delegates of this model are heap-independent functions.
- `UndoService.Undo`, `Redo`, `UndoCommand` and `RedoCommand`: Undo and Redo throw `NotImplementedException`, and the command properties rely on the registration above.
- SampleServices.UserService.LogIn and SampleServices.UserService.TimeLoggedIn: `DateTimeOffset.Now` becomes the parameter `now`, in ticks. `TimeSpan` arithmetic is unbounded.
- Casts through `object` (`Update(Func<object, object>)`, `Add(object)`, the untyped `IModel.Value`) are not modelled. With one Dafny type per repository they cannot fail.
- `Version` is stored but never compared, and `ValueType` is a tag rather than a reflected type.
- `DynamicModel`, `ModelReference`, `ServiceRegistry`, the WPF utilities and the sample record registrations are outside the modelled core.
- Enumeration order of `Dictionary` is unspecified in .NET. The model enumerates in insertion order, which is what .NET's implementation gives when nothing has been removed.
- Reentrancy is not modelled: a handler that calls back into the repository during an event. Handlers are recorded in the log and not executed.
- Repositories.Repository.Update: reads the old value with the corrected getter. As written, `model.Value` at Domo/Repository.cs:43 is the getter of Domo/Model.cs:22, which calls itself, so every Update on a live id overflows the stack before the values are compared (see Findings). So does every other path through that getter, all of which the model sends through the corrected read: the `Model.Value` setter (Domo/Model.cs:23), `SingletonModelBackedService.Value` (Domo/Services.cs:74-75), and in the sample services `LoggedIn`, `LogIn` and `LogOut` (Domo.Sample.Services/Services.cs:87, 91, 101, 104), the `Status` getter and setter (70-71) and `CanUndo`/`CanRedo` (159, 162).
- Repositories.Repository.Update: compares the old and the new value with Dafny's structural `==`. The source calls `oldVal.Equals(newVal)` (Domo/Repository.cs:45). For a record whose fields include references, such as the `IReadOnlyList<UndoItem>` of `UndoState` (Domo.SampleModels/ModelRegistration.cs:49), .NET compares those fields by reference, so two equal-looking values can differ there. A null old value makes `Equals` throw `NullReferenceException` in .NET; the model has no null values and so no such failure.
- Repositories.Model.Value: this is the corrected getter. The getter as written is `ValueGetterAsWritten` (see Findings).
- Commands.NamedCommand.CanExecute and Commands.NamedCommand.Execute: these use the corrected `Invoke` rather than the as-written `DynamicInvoke` (see Findings).

## Findings

| source | as written | input that shows it | evidently intended | confidence | as-written member | corrected member |
|---|---|---|---|---|---|---|
| Domo/Model.cs:22 | the getter `Repository.GetModel(Id).Value` reads `Value` of the same handle again, since GetModel returns this model | any live model: the getter calls itself until the stack overflows; so does any Update or Value write on a live id, since Update reads the old value through it (Domo/Repository.cs:43) | `Repository.GetValue(Id)` | high, not executed | Repositories.ValueGetterOverflows | Repositories.Model.Value |
| Domo/Repository.cs:37-38 | the untyped `IRepository.GetValue` returns `GetModel(modelId)` | any live id: the result is the model handle, not the value | `GetValue(modelId)`, as the interface documents | high, not executed | Repositories.Repository.UntypedGetValueAsWritten | Repositories.Repository.UntypedGetValue |
| Domo/NamedCommand.cs:29 | `DynamicInvoke(parameter)` always passes one argument | a parameterless action or guard, such as `Undo` and `() => CanUndo` in Domo.Sample.Services/Services.cs:146: a TargetParameterCountException | invoke a parameterless delegate without arguments | high, not executed | Commands.NoArgDelegatesFailAsWritten | Commands.Invoke |
