/**
 * The change-event vocabulary of the store: the six kinds of change, the
 * argument record a RepositoryChanged handler receives, and the log in which
 * the model records, in order, every handler invocation that a .NET multicast
 * event would perform.
 */
module Changes {
  import opened Wrappers
  import opened Seqs

  /** A System.Guid; fresh ones are minted by the repository that owns them. */
  type Guid = nat

  /** One subscription to an event: it stands for the delegate that was added. */
  type ListenerId = nat

  /** The kinds of change, in the order (and so with the values 0..5) the enum declares them. */
  datatype ChangeType =
    | RepositoryAdded
    | RepositoryDeleted
    | ModelAdded
    | ModelRemoved
    | ModelUpdated
    | ModelInvalid

  /** The underlying value of an enum member. */
  function Ordinal(k: ChangeType): (n: nat)
    ensures n < 6
    ensures FromOrdinal(n) == Some(k)
  {
    match k
    case RepositoryAdded => 0
    case RepositoryDeleted => 1
    case ModelAdded => 2
    case ModelRemoved => 3
    case ModelUpdated => 4
    case ModelInvalid => 5
  }

  /** The enum member with a given underlying value, if any: exactly six values name a kind. */
  function FromOrdinal(n: nat): (k: Option<ChangeType>)
    ensures k.Some? <==> n < 6
  {
    if n == 0 then Some(RepositoryAdded)
    else if n == 1 then Some(RepositoryDeleted)
    else if n == 2 then Some(ModelAdded)
    else if n == 3 then Some(ModelRemoved)
    else if n == 4 then Some(ModelUpdated)
    else if n == 5 then Some(ModelInvalid)
    else None
  }

  /** Distinct kinds have distinct values. */
  lemma OrdinalInjective(a: ChangeType, b: ChangeType)
    requires Ordinal(a) == Ordinal(b)
    ensures a == b
  {
    assert FromOrdinal(Ordinal(a)) == Some(a);
  }

  /**
   * RepositoryChangeArgs: the repository (by its id; None stands for the null
   * the code leaves there), the model id, the old and new values, and the kind.
   */
  datatype ChangeArgs<T> = ChangeArgs(
    repository: Option<Guid>,
    modelId: Guid,
    oldValue: T,
    newValue: T,
    changeType: ChangeType)

  /** One handler invocation. */
  datatype Signal<T> =
    | RepositoryChanged(listener: ListenerId, args: ChangeArgs<T>)
    | PropertyChanged(listener: ListenerId, modelId: Guid, propertyName: string)

  /** Raising RepositoryChanged: every subscriber in subscription order receives `args`. */
  function Deliveries<T>(listeners: seq<ListenerId>, args: ChangeArgs<T>): (r: seq<Signal<T>>)
    ensures |r| == |listeners|
    ensures forall i :: 0 <= i < |r| ==> r[i] == RepositoryChanged(listeners[i], args)
  {
    seq(|listeners|, i requires 0 <= i < |listeners| => RepositoryChanged(listeners[i], args))
  }

  /** Raising a model's PropertyChanged: every subscriber in order, with an empty property name. */
  function Notifications<T>(subscribers: seq<ListenerId>, modelId: Guid): (r: seq<Signal<T>>)
    ensures |r| == |subscribers|
    ensures forall i :: 0 <= i < |r| ==> r[i] == PropertyChanged(subscribers[i], modelId, "")
  {
    seq(|subscribers|, i requires 0 <= i < |subscribers| => PropertyChanged(subscribers[i], modelId, ""))
  }

  /** How many RepositoryChanged invocations of `l` a trace holds. */
  function EventsTo<T>(trace: seq<Signal<T>>, l: ListenerId): nat {
    if trace == [] then 0
    else (if trace[0].RepositoryChanged? && trace[0].listener == l then 1 else 0) + EventsTo(trace[1..], l)
  }

  lemma {:induction false} EventsToAppend<T>(a: seq<Signal<T>>, b: seq<Signal<T>>, l: ListenerId)
    ensures EventsTo(a + b, l) == EventsTo(a, l) + EventsTo(b, l)
  {
    if a != [] {
      assert (a + b)[1..] == a[1..] + b;
      EventsToAppend(a[1..], b, l);
    } else {
      assert a + b == b;
    }
  }

  /** One raise of RepositoryChanged reaches each subscriber exactly once, whatever the kind of change. */
  lemma {:induction false} DeliveredOnce<T>(listeners: seq<ListenerId>, args: ChangeArgs<T>, l: ListenerId)
    requires Distinct(listeners)
    ensures EventsTo(Deliveries(listeners, args), l) == if l in listeners then 1 else 0
  {
    if listeners != [] {
      var d := Deliveries(listeners, args);
      assert d[1..] == Deliveries(listeners[1..], args);
      assert listeners[0] !in listeners[1..];
      assert forall y :: y in listeners <==> y == listeners[0] || y in listeners[1..];
      DeliveredOnce(listeners[1..], args, l);
    }
  }

  /** A model's property notifications are not repository events. */
  lemma {:induction false} NotificationsAreNoEvents<T>(subscribers: seq<ListenerId>, modelId: Guid, l: ListenerId)
    ensures EventsTo(Notifications<T>(subscribers, modelId), l) == 0
  {
    if subscribers != [] {
      var n := Notifications<T>(subscribers, modelId);
      assert n[1..] == Notifications<T>(subscribers[1..], modelId);
      NotificationsAreNoEvents<T>(subscribers[1..], modelId, l);
    }
  }

  /** The record of every handler invocation made on behalf of one repository and its models. */
  class EventLog<T> {
    var trace: seq<Signal<T>>

    constructor ()
      ensures trace == []
    {
      trace := [];
    }
  }
}
