/**
 * Service: a dictionary of named commands; and the services backed by a
 * singleton or an aggregate repository, which subscribe a handler to the
 * repository's RepositoryChanged and otherwise delegate to it.
 */
module Services {
  import opened Wrappers
  import opened Seqs
  import opened Changes
  import opened Repositories
  import opened Commands

  class Service<T(==)> {
    /** The Commands dictionary. */
    var commands: map<string, NamedCommand<T>>
    /** Its keys, in the order they were added; nothing is ever removed. */
    var names: seq<string>

    ghost predicate Valid()
      reads this
    {
      && Distinct(names)
      && (forall n :: n in commands ==> n in names)
      && (forall n :: n in names ==> n in commands)
    }

    constructor ()
      ensures Valid() && commands == map[] && names == []
    {
      commands, names := map[], [];
    }

    /**
     * RegisterCommand: builds the command (which subscribes to the repository)
     * and then adds it under its name; a name already present throws, after
     * the subscription has happened.
     */
    method RegisterCommand(execute: Action<T>, canExecute: Option<Guard<T>>, repository: Repository<T>)
      returns (r: Result<NamedCommand<T>>)
      requires Valid() && repository.Valid()
      modifies this, repository`listeners, repository`nextListener
      ensures Valid() && repository.Valid()
      ensures |repository.listeners| == |old(repository.listeners)| + 1
      ensures repository.listeners[..|old(repository.listeners)|] == old(repository.listeners)
      ensures r.Failure? <==> execute.methodName in old(commands)
      ensures r.Failure? ==> r.error == DuplicateKey && commands == old(commands) && names == old(names)
      ensures r.Success? ==> fresh(r.value) && r.value.name == execute.methodName && r.value.repository == repository
      ensures r.Success? ==> r.value.executeDelegate == execute && r.value.canExecuteDelegate == canExecute
      ensures r.Success? ==> r.value.listener == repository.listeners[|repository.listeners| - 1]
      ensures r.Success? ==> commands == old(commands)[r.value.name := r.value] && names == old(names) + [r.value.name]
      ensures r.Success? ==> GetCommand(r.value.name) == Success(r.value)
    {
      var c := new NamedCommand(execute, canExecute, repository);
      if c.name in commands {
        return Failure(DuplicateKey);
      }
      commands := commands[c.name := c];
      names := names + [c.name];
      r := Success(c);
    }

    /** GetCommand: the command registered under `name`; an unknown name makes the indexer throw. */
    function GetCommand(name: string): (r: Result<NamedCommand<T>>)
      reads this
      ensures r.Success? <==> name in commands
      ensures r.Success? ==> r.value == commands[name]
      ensures r.Failure? ==> r.error == KeyNotFound
    {
      if name in commands then Success(commands[name]) else Failure(KeyNotFound)
    }

    /** GetCommands: a snapshot of exactly the registered commands, in registration order. */
    function GetCommands(): (r: seq<NamedCommand<T>>)
      requires Valid()
      reads this
      ensures |r| == |names|
      ensures forall i :: 0 <= i < |r| ==> r[i] == commands[names[i]]
      ensures forall n :: n in commands ==> commands[n] in r
    {
      var ns, cs := names, commands;
      var r: seq<NamedCommand<T>> := seq(|ns|, i requires 0 <= i < |ns| => cs[ns[i]]);
      assert forall n :: n in commands ==> commands[n] in r by {
        forall n | n in commands ensures commands[n] in r {
          var i :| 0 <= i < |names| && names[i] == n;
          assert r[i] == commands[n];
        }
      }
      r
    }
  }

  /** SingletonModelBackedService<T>: a Service over the store's singleton repository of T. */
  class SingletonModelBackedService<T(==)> {
    const service: Service<T>
    const repository: Repository<T>
    /** The OnRepositoryChanged handler, which does nothing. */
    const listener: ListenerId

    ghost predicate Valid()
      reads this, repository
    {
      repository.Valid() && repository.singletonModel.Some?
    }

    constructor (repository: Repository<T>)
      requires repository.Valid() && repository.singletonModel.Some?
      modifies repository`listeners, repository`nextListener
      ensures Valid() && this.repository == repository && fresh(service)
      ensures service.commands == map[] && service.Valid()
      ensures listener !in old(repository.listeners) && repository.listeners == old(repository.listeners) + [listener]
    {
      service := new Service();
      this.repository := repository;
      var l := repository.Subscribe();
      listener := l;
    }

    /** Model: the repository's Model, the handle of its single entry. */
    function Model(): (m: Model<T>)
      requires Valid()
      reads this, repository
      ensures m.repository == repository
      ensures Some(m) == repository.singletonModel
    {
      repository.singletonModel.value
    }

    /** The Value getter: Model.Value. */
    function Value(): (r: Result<T>)
      requires Valid()
      reads this, repository
      ensures r.Success? <==> !repository.disposed && Model().id in repository.dict
      ensures r.Success? ==> r.value == repository.dict[Model().id].value
    {
      Model().Value()
    }

    /**
     * The Value setter: `Model.Value = value`. When the write succeeds and the
     * validator accepts the value, the getter gives it back.
     */
    method SetValue(value: T) returns (r: Result<bool>)
      requires Valid()
      modifies repository`dict, repository.log`trace
      ensures Valid()
      ensures r.Success? <==> old(Value()).Success?
      ensures r.Failure? ==> repository.dict == old(repository.dict) && repository.log.trace == old(repository.log.trace)
      ensures r.Success? && repository.Validate(value) == Success(true) ==> Value() == Success(value)
      ensures r.Success? && repository.Validate(value) == Success(false) ==> Value() == old(Value()) && !r.value
      ensures r.Success? && r.value ==> old(Value()) != Success(value)
      ensures r.Success? && r.value ==> repository.Validate(value) == Success(true)
      ensures r.Success? && old(Value()) != Success(value) && repository.Validate(value) == Success(true) ==> r.value
    {
      r := Model().SetValue(value);
    }

    /** The PropertyChanged add accessor: it subscribes to the model. */
    method AddPropertyChangedHandler(l: ListenerId)
      requires Valid()
      modifies Model()
      ensures Model().subscribers == old(Model().subscribers) + [l]
    {
      Model().AddPropertyChangedHandler(l);
    }

    /** The PropertyChanged remove accessor: it unsubscribes from the model. */
    method RemovePropertyChangedHandler(l: ListenerId)
      requires Valid()
      modifies Model()
      ensures Model().subscribers == RemoveLast(old(Model().subscribers), l)
    {
      Model().RemovePropertyChangedHandler(l);
    }
  }

  /** AggregateModelBackedService<T>: a Service over the store's aggregate repository of T. */
  class AggregateModelBackedService<T(==)> {
    const service: Service<T>
    const repository: Repository<T>
    /** The OnRepositoryChanged handler, which does nothing. */
    const listener: ListenerId

    constructor (repository: Repository<T>)
      requires repository.Valid() && !repository.isSingleton
      modifies repository`listeners, repository`nextListener
      ensures repository.Valid() && this.repository == repository && fresh(service)
      ensures service.commands == map[] && service.Valid()
      ensures listener !in old(repository.listeners) && repository.listeners == old(repository.listeners) + [listener]
    {
      service := new Service();
      this.repository := repository;
      var l := repository.Subscribe();
      listener := l;
    }

    /** Models: what Repository.GetModels() returns, exactly the live handles. */
    function Models(): (r: Result<seq<Model<T>>>)
      requires repository.Valid()
      reads this, repository
      ensures r.Success? <==> !repository.disposed
      ensures r.Success? ==> forall g :: g in repository.dict ==> repository.dict[g].model in r.value
      ensures r.Success? ==> forall m :: m in r.value ==> m.repository == repository && m.id in repository.dict
    {
      repository.GetModels()
    }
  }
}
