/**
 * NamedCommand: an action and a guard, named after the action's method, that
 * re-signals CanExecuteChanged on every RepositoryChanged event of the
 * repository it watches.
 */
module Commands {
  import opened Wrappers
  import opened Seqs
  import opened Changes
  import opened Repositories

  /** A delegate of one of the two arities the commands use, with its method's name. */
  datatype Delegate<!A, R> =
    | NoArg(methodName: string, body0: () -> R)
    | OneArg(methodName: string, body1: A -> R)

  /** An action: its return value is void. */
  type Action<!T> = Delegate<Option<T>, ()>

  /** A guard: it returns a `bool?`, None standing for null. */
  type Guard<!T> = Delegate<Option<T>, Option<bool>>

  /** One invocation of a delegate: the method and the arguments it received. */
  datatype Call<A> = Call(methodName: string, arguments: seq<A>)

  /**
   * `DynamicInvoke(parameter)` as written: the C# compiler wraps the single
   * `object` argument in a one-element array, so the delegate always receives
   * exactly one argument and a parameterless one throws.
   */
  function DynamicInvokeAsWritten<A, R>(d: Delegate<A, R>, argument: A): (r: Result<R>)
    ensures r.Failure? <==> d.NoArg?
    ensures r.Failure? ==> r.error == ParameterCountMismatch
    ensures d.OneArg? ==> r == Success(d.body1(argument))
  {
    match d
    case NoArg(_, _) => Failure(ParameterCountMismatch)
    case OneArg(_, f) => Success(f(argument))
  }

  /** The invocation evidently intended: a parameterless delegate is called without the argument. */
  function Invoke<A, R>(d: Delegate<A, R>, argument: A): (r: R)
    ensures d.NoArg? ==> r == d.body0()
    ensures d.OneArg? ==> r == d.body1(argument)
  {
    match d
    case NoArg(_, f) => f()
    case OneArg(_, f) => f(argument)
  }

  /** The call `Invoke` performs: no arguments for a parameterless delegate, the one parameter otherwise. */
  function CallOf<A, R>(d: Delegate<A, R>, argument: A): (c: Call<A>)
    ensures c.methodName == d.methodName
    ensures |c.arguments| <= 1
    ensures c.arguments == [] <==> d.NoArg?
    ensures c.arguments != [] ==> c.arguments[0] == argument
  {
    Call(d.methodName, if d.NoArg? then [] else [argument])
  }

  /** Where the two differ: every parameterless delegate, which as written can never run. */
  lemma NoArgDelegatesFailAsWritten<A, R>(d: Delegate<A, R>, argument: A)
    requires d.NoArg?
    ensures DynamicInvokeAsWritten(d, argument) == Failure(ParameterCountMismatch)
    ensures Invoke(d, argument) == d.body0()
  {
  }

  /** Where they agree: a one-parameter delegate receives the parameter either way. */
  lemma OneArgDelegatesAgree<A, R>(d: Delegate<A, R>, argument: A)
    requires d.OneArg?
    ensures DynamicInvokeAsWritten(d, argument) == Success(Invoke(d, argument))
  {
  }

  /** The guard rule `(bool?)result != false`: only a literal false disables. */
  predicate Enables(result: Option<bool>) {
    result != Some(false)
  }

  class NamedCommand<T(==)> {
    const executeDelegate: Action<T>
    /** Name: the execute delegate's method name. */
    const name: string := executeDelegate.methodName
    /** None stands for a null guard delegate. */
    const canExecuteDelegate: Option<Guard<T>>
    const repository: Repository<T>
    /** The handler the constructor added to the repository's RepositoryChanged. */
    const listener: ListenerId

    constructor (execute: Action<T>, canExecute: Option<Guard<T>>, repository: Repository<T>)
      requires repository.Valid()
      modifies repository`listeners, repository`nextListener
      ensures repository.Valid()
      ensures name == execute.methodName
      ensures executeDelegate == execute && canExecuteDelegate == canExecute && this.repository == repository
      ensures listener !in old(repository.listeners) && repository.listeners == old(repository.listeners) + [listener]
    {
      executeDelegate := execute;
      canExecuteDelegate := canExecute;
      this.repository := repository;
      var l := repository.Subscribe();
      listener := l;
    }

    /** CanExecute: false only when the guard returns literal false; a null guard throws. */
    function CanExecute(parameter: Option<T>): (r: Result<bool>)
      ensures r.Failure? <==> canExecuteDelegate.None?
      ensures r.Failure? ==> r.error == NullReference
      ensures r == Success(false) <==> canExecuteDelegate.Some? && Invoke(canExecuteDelegate.value, parameter) == Some(false)
      ensures r == Success(true) <==>
        canExecuteDelegate.Some?
        && (Invoke(canExecuteDelegate.value, parameter).None? || Invoke(canExecuteDelegate.value, parameter).value)
    {
      match canExecuteDelegate
      case None => Failure(NullReference)
      case Some(g) => Success(Enables(Invoke(g, parameter)))
    }

    /** Execute: the action is invoked exactly once, with the parameter it declares. */
    function Execute(parameter: Option<T>): (c: Call<Option<T>>)
      ensures c.methodName == name
      ensures executeDelegate.OneArg? ==> c.arguments == [parameter]
      ensures executeDelegate.NoArg? ==> c.arguments == []
    {
      CallOf(executeDelegate, parameter)
    }

    /** How many times this command has raised CanExecuteChanged. */
    function CanExecuteChangedCount(): nat
      reads repository.log
    {
      EventsTo(repository.log.trace, listener)
    }
  }

  /**
   * Every raise of the watched repository's RepositoryChanged, of any kind,
   * raises CanExecuteChanged exactly once; the model notifications an Update
   * performs before it raise nothing.
   */
  lemma {:induction false} ResignalledOncePerEvent<T>(before: seq<Signal<T>>, subscribers: seq<ListenerId>, modelId: Guid,
                                                       listeners: seq<ListenerId>, args: ChangeArgs<T>, l: ListenerId)
    requires Distinct(listeners) && l in listeners
    ensures EventsTo(before + Deliveries(listeners, args), l) == EventsTo(before, l) + 1
    ensures EventsTo(before + Notifications(subscribers, modelId) + Deliveries(listeners, args), l) == EventsTo(before, l) + 1
  {
    DeliveredOnce(listeners, args, l);
    NotificationsAreNoEvents<T>(subscribers, modelId, l);
    EventsToAppend(before, Deliveries(listeners, args), l);
    EventsToAppend(before, Notifications(subscribers, modelId), l);
    EventsToAppend(before + Notifications(subscribers, modelId), Deliveries(listeners, args), l);
  }
}
