/**
 * Repository<T> with its aggregate and singleton variants, and the Model<T>
 * handle. The two live in one module because each calls the other.
 *
 * A repository owns a dictionary from model id to (value, model handle). The
 * dictionary is `dict`; `order` lists its keys in the order they were added,
 * which is the order GetModels and Dispose enumerate them. Every handler that
 * the repository's RepositoryChanged event or a model's PropertyChanged event
 * invokes is appended to `log.trace`, in invocation order.
 */
module Repositories {
  import opened Wrappers
  import opened Seqs
  import opened Changes

  /** System.Version, as far as the repository uses it (it only stores it). */
  datatype Version = Version(major: nat, minor: nat, build: nat, revision: nat)

  /** A System.Type: the value type a repository stores. */
  type TypeTag = string

  /** A dictionary entry: the tuple (T, Model<T>). */
  datatype Entry<T> = Entry(value: T, model: Model<T>)

  /** What the `object` returned through the untyped IRepository interface holds. */
  datatype Boxed<T> = ValueObject(value: T) | ModelObject(model: Model<T>)

  /** How a call of the Value getter as written ends, on a stack with room for `depth` more frames. */
  datatype GetterOutcome<T> = Returned(value: T) | Threw(error: Error) | StackOverflow

  /**
   * A handle with a fixed id. It owns its PropertyChanged subscribers and no
   * value: reads and writes go through the repository.
   */
  class Model<T(==)> {
    const id: Guid
    const repository: Repository<T>
    var subscribers: seq<ListenerId>

    constructor (id: Guid, repository: Repository<T>)
      ensures this.id == id && this.repository == repository
      ensures subscribers == []
    {
      this.id := id;
      this.repository := repository;
      subscribers := [];
    }

    /** Drops every PropertyChanged subscriber; the repository entry stays. */
    method Dispose()
      modifies this
      ensures subscribers == []
    {
      subscribers := [];
    }

    /** `PropertyChanged += handler`. */
    method AddPropertyChangedHandler(l: ListenerId)
      modifies this
      ensures subscribers == old(subscribers) + [l]
    {
      subscribers := subscribers + [l];
    }

    /** `PropertyChanged -= handler`: the last occurrence of the handler goes. */
    method RemovePropertyChangedHandler(l: ListenerId)
      modifies this
      ensures subscribers == RemoveLast(old(subscribers), l)
    {
      subscribers := RemoveLast(subscribers, l);
    }

    /** Invokes each current subscriber once, in order, with an empty property name. */
    method TriggerChangeNotification()
      modifies repository.log`trace
      ensures repository.log.trace == old(repository.log.trace) + Notifications(subscribers, id)
    {
      var log := repository.log;
      ghost var before := log.trace;
      var i := 0;
      while i < |subscribers|
        invariant 0 <= i <= |subscribers|
        invariant log.trace == before + Notifications(subscribers[..i], id)
      {
        assert Notifications<T>(subscribers[..i + 1], id) == Notifications<T>(subscribers[..i], id) + [PropertyChanged(subscribers[i], id, "")];
        log.trace := log.trace + [PropertyChanged(subscribers[i], id, "")];
        i := i + 1;
      }
      assert subscribers[..i] == subscribers;
    }

    /** The type of the value: the repository's value type. */
    function ValueType(): (t: TypeTag)
      ensures t == repository.valueType
    {
      repository.valueType
    }

    /** The Value getter as intended: the value the repository stores under this id, read afresh. */
    function Value(): (r: Result<T>)
      reads repository
      ensures r.Success? <==> !repository.disposed && id in repository.dict
      ensures r.Success? ==> r.value == repository.dict[id].value
      ensures r.Failure? ==> r.error == if repository.disposed then NullReference else KeyNotFound
    {
      repository.GetValue(id)
    }

    /** The Value setter: `Repository.Update(Id, _ => value)`, whose boolean the setter drops. */
    method SetValue(value: T) returns (r: Result<bool>)
      requires repository.Valid()
      modifies repository`dict, repository.log`trace
      ensures repository.Valid()
      ensures r.Success? <==> !repository.disposed && id in old(repository.dict)
      ensures r.Failure? ==> repository.dict == old(repository.dict) && repository.log.trace == old(repository.log.trace)
      ensures r == Success(true) ==> old(repository.dict[id].value) != value && repository.Validate(value) == Success(true)
      // writing the current value: nothing happens
      ensures r.Success? && old(repository.dict[id].value) == value ==>
        !r.value && repository.dict == old(repository.dict) && repository.log.trace == old(repository.log.trace)
      // writing a value the validator rejects: one ModelInvalid event, no notification, no change
      ensures r.Success? && old(repository.dict[id].value) != value && repository.Validate(value) == Success(false) ==>
        !r.value && repository.dict == old(repository.dict) &&
        repository.log.trace == old(repository.log.trace) +
          Deliveries(repository.listeners, ChangeArgs(None, id, old(repository.dict[id].value), value, ModelInvalid))
      // otherwise the value is replaced, the handle's subscribers are notified, then one ModelUpdated event
      ensures r.Success? && old(repository.dict[id].value) != value && repository.Validate(value) == Success(true) ==>
        r.value && repository.dict == old(repository.dict)[id := Entry(value, old(repository.dict[id].model))] &&
        repository.log.trace == old(repository.log.trace) + Notifications(old(repository.dict[id].model.subscribers), id) +
          Deliveries(repository.listeners, ChangeArgs(None, id, old(repository.dict[id].value), value, ModelUpdated))
    {
      r := repository.Update(id, _ => value);
    }
  }

  /**
   * The Value getter as written: `Repository.GetModel(Id).Value`. The model the
   * repository returns for this id has this id and this repository, so the call
   * is the same call again, one stack frame deeper.
   */
  function ValueGetterAsWritten<T(==)>(repo: Repository<T>, id: Guid, depth: nat): (r: GetterOutcome<T>)
    requires repo.Valid()
    reads repo
    ensures !r.Returned?
    decreases depth
  {
    match repo.GetModel(id)
    case Failure(e) => Threw(e)
    case Success(m) =>
      if depth == 0 then StackOverflow else ValueGetterAsWritten(m.repository, m.id, depth - 1)
  }

  /** On a live id the getter as written never returns: whatever the stack depth, it overflows. */
  lemma {:induction false} ValueGetterOverflows<T>(repo: Repository<T>, id: Guid, depth: nat)
    requires repo.Valid()
    ensures !repo.disposed && id in repo.dict ==> ValueGetterAsWritten(repo, id, depth) == StackOverflow
    ensures repo.disposed || id !in repo.dict ==> ValueGetterAsWritten(repo, id, depth).Threw?
  {
    if depth > 0 && !repo.disposed && id in repo.dict {
      ValueGetterOverflows(repo, id, depth - 1);
    }
  }

  /** The intended getter returns what the as-written one never does: the stored value. */
  lemma GetterDiscrepancy<T>(m: Model<T>, depth: nat)
    requires m.repository.Valid() && !m.repository.disposed && m.id in m.repository.dict
    ensures m.Value() == Success(m.repository.dict[m.id].value)
    ensures !ValueGetterAsWritten(m.repository, m.id, depth).Returned?
  {
    ValueGetterOverflows(m.repository, m.id, depth);
  }

  class Repository<T(==)> {
    const repositoryId: Guid
    const version: Version
    const valueType: TypeTag
    /** IsSingleton: false for AggregateRepository, true for SingletonRepository. */
    const isSingleton: bool
    const log: EventLog<T>

    /** The validatorFunc given to the subclass constructor; None stands for null. */
    var validator: Option<T -> bool>
    var dict: map<Guid, Entry<T>>
    var order: seq<Guid>
    /** Stands for Guid.NewGuid: every id minted so far is below it. */
    var nextId: Guid
    ghost var issued: set<Guid>
    /** The RepositoryChanged subscribers, in subscription order. */
    var listeners: seq<ListenerId>
    var nextListener: ListenerId
    /** Dispose has set `_dict` and `_validatorFunc` to null. */
    var disposed: bool
    /** SingletonRepository.Model; None on an aggregate repository. */
    var singletonModel: Option<Model<T>>

    ghost predicate Valid()
      reads this
    {
      && (forall g :: g in dict ==> dict[g].model.id == g && dict[g].model.repository == this)
      && dict.Keys <= issued
      && (forall g :: g in issued ==> g < nextId)
      && Distinct(order)
      && (forall g :: g in dict ==> g in order)
      && (forall g :: g in order ==> g in dict)
      && Distinct(listeners)
      && (forall l :: l in listeners ==> l < nextListener)
      && (disposed ==> dict == map[] && order == [] && validator == None)
      && (singletonModel.Some? ==> isSingleton && singletonModel.value.repository == this)
    }

    /** The models the dictionary holds. */
    ghost function ModelSet(): set<Model<T>>
      reads this
    {
      set g | g in dict :: dict[g].model
    }

    /** AggregateRepository(id, version, validatorFunc). */
    constructor Aggregate(id: Guid, version: Version, valueType: TypeTag, validator: Option<T -> bool>)
      ensures Valid() && fresh(log) && log.trace == []
      ensures repositoryId == id && this.version == version && this.valueType == valueType
      ensures !isSingleton && this.validator == validator && singletonModel == None
      ensures dict == map[] && order == [] && issued == {} && listeners == [] && !disposed
    {
      repositoryId, this.version, this.valueType, isSingleton := id, version, valueType, false;
      log := new EventLog();
      this.validator := validator;
      dict, order, nextId, issued := map[], [], 0, {};
      listeners, nextListener, disposed, singletonModel := [], 0, false, None;
    }

    /**
     * SingletonRepository(id, version, value, validatorFunc): adds the initial
     * value (Add does not validate it) and keeps the new handle as Model.
     */
    constructor Singleton(id: Guid, version: Version, valueType: TypeTag, value: T, validator: Option<T -> bool>)
      ensures Valid() && fresh(log) && log.trace == []
      ensures repositoryId == id && this.version == version && this.valueType == valueType
      ensures isSingleton && this.validator == validator && listeners == [] && !disposed
      ensures singletonModel.Some? && fresh(singletonModel.value) && singletonModel.value.subscribers == []
      ensures order == [singletonModel.value.id]
      ensures dict == map[singletonModel.value.id := Entry(value, singletonModel.value)]
    {
      repositoryId, this.version, this.valueType, isSingleton := id, version, valueType, true;
      log := new EventLog();
      this.validator := validator;
      dict, order, nextId, issued := map[], [], 0, {};
      listeners, nextListener, disposed, singletonModel := [], 0, false, None;
      new;
      var r := Add(value);
      singletonModel := Some(r.value);
    }

    /** `RepositoryChanged += handler`, the handler being a fresh listener. */
    method Subscribe() returns (l: ListenerId)
      requires Valid()
      modifies this`listeners, this`nextListener
      ensures Valid()
      ensures l !in old(listeners) && listeners == old(listeners) + [l]
    {
      l := nextListener;
      listeners := listeners + [l];
      nextListener := nextListener + 1;
    }

    /** `RepositoryChanged?.Invoke(this, args)`: each subscriber, in order, receives `args`. */
    method Emit(args: ChangeArgs<T>)
      modifies log`trace
      ensures log.trace == old(log.trace) + Deliveries(listeners, args)
    {
      ghost var before := log.trace;
      var i := 0;
      while i < |listeners|
        invariant 0 <= i <= |listeners|
        invariant log.trace == before + Deliveries(listeners[..i], args)
      {
        assert Deliveries(listeners[..i + 1], args) == Deliveries(listeners[..i], args) + [RepositoryChanged(listeners[i], args)];
        log.trace := log.trace + [RepositoryChanged(listeners[i], args)];
        i := i + 1;
      }
      assert listeners[..i] == listeners;
    }

    /** Validate: the validator's verdict; a missing validator accepts every value. */
    function Validate(state: T): (r: Result<bool>)
      reads this
      ensures r.Success? <==> !disposed
      ensures r.Failure? ==> r.error == NullReference
      ensures !disposed && validator.None? ==> r == Success(true)
      ensures !disposed && validator.Some? ==> r == Success(validator.value(state))
    {
      if disposed then Failure(NullReference)
      else match validator
        case None => Success(true)
        case Some(f) => Success(f(state))
    }

    /** GetModel: the handle stored under `id`; a missing id makes the indexer throw. */
    function GetModel(id: Guid): (r: Result<Model<T>>)
      reads this
      ensures r.Success? <==> !disposed && id in dict
      ensures r.Success? ==> r.value == dict[id].model
      ensures r.Success? && Valid() ==> r.value.id == id && r.value.repository == this
      ensures r.Failure? ==> r.error == if disposed then NullReference else KeyNotFound
    {
      if disposed then Failure(NullReference)
      else if id !in dict then Failure(KeyNotFound)
      else Success(dict[id].model)
    }

    /** GetValue: the value stored under `id`; a missing id makes the indexer throw. */
    function GetValue(id: Guid): (r: Result<T>)
      reads this
      ensures r.Success? <==> !disposed && id in dict
      ensures r.Success? ==> r.value == dict[id].value
      ensures r.Failure? ==> r.error == if disposed then NullReference else KeyNotFound
    {
      if disposed then Failure(NullReference)
      else if id !in dict then Failure(KeyNotFound)
      else Success(dict[id].value)
    }

    /** IRepository.GetValue as written: it returns the model, not the value. */
    function UntypedGetValueAsWritten(id: Guid): (r: Result<Boxed<T>>)
      reads this
      ensures r.Success? <==> GetValue(id).Success?
      ensures r.Success? ==> r.value.ModelObject? && r.value.model == dict[id].model
    {
      match GetModel(id)
      case Success(m) => Success(ModelObject(m))
      case Failure(e) => Failure(e)
    }

    /** IRepository.GetValue as its doc comment states it: the stored value, boxed. */
    function UntypedGetValue(id: Guid): (r: Result<Boxed<T>>)
      reads this
      ensures r.Success? <==> GetValue(id).Success?
      ensures r.Success? ==> r.value == ValueObject(GetValue(id).value)
    {
      match GetValue(id)
      case Success(v) => Success(ValueObject(v))
      case Failure(e) => Failure(e)
    }

    /** ModelExists: true exactly when `id` is a key of the dictionary. */
    function ModelExists(id: Guid): (r: Result<bool>)
      reads this
      ensures r.Success? <==> !disposed
      ensures r == Success(true) <==> GetModel(id).Success?
      ensures r == Success(false) <==> !disposed && GetModel(id) == Failure(KeyNotFound)
    {
      if disposed then Failure(NullReference) else Success(id in dict)
    }

    /** GetModels: a new list of exactly the live handles, in enumeration order. */
    function GetModels(): (r: Result<seq<Model<T>>>)
      requires Valid()
      reads this
      ensures r.Success? <==> !disposed
      ensures r.Success? ==> |r.value| == |order| && Distinct(r.value)
      ensures r.Success? ==> forall i :: 0 <= i < |order| ==> r.value[i] == dict[order[i]].model
      ensures r.Success? ==> forall g :: g in dict ==> dict[g].model in r.value
      ensures r.Success? ==> forall m :: m in r.value ==> m in ModelSet()
    {
      if disposed then Failure(NullReference)
      else
        var o, d := order, dict;
        var ms: seq<Model<T>> := seq(|o|, i requires 0 <= i < |o| => d[o[i]].model);
        assert forall g :: g in dict ==> dict[g].model in ms by {
          forall g | g in dict ensures dict[g].model in ms {
            var i :| 0 <= i < |order| && order[i] == g;
            assert ms[i] == dict[g].model;
          }
        }
        assert Distinct(ms) by {
          forall i, j | 0 <= i < j < |ms| ensures ms[i] != ms[j] {
            assert ms[i].id == order[i] && ms[j].id == order[j];
          }
        }
        Success(ms)
    }

    /**
     * Add: a singleton that already has an entry throws; otherwise one entry
     * under a fresh id, holding `state` and a new handle. Nothing is emitted.
     */
    method Add(state: T) returns (r: Result<Model<T>>)
      requires Valid()
      modifies this`dict, this`order, this`nextId, this`issued
      ensures Valid()
      ensures r.Success? <==> !old(disposed) && !(isSingleton && |old(dict)| != 0)
      ensures r.Failure? ==> r.error == (if old(disposed) then NullReference else SingletonHasModel)
      ensures r.Failure? ==> dict == old(dict) && order == old(order) && issued == old(issued)
      ensures r.Success? ==> fresh(r.value) && r.value.repository == this && r.value.subscribers == []
      ensures r.Success? ==> r.value.id !in old(issued) && issued == old(issued) + {r.value.id}
      ensures r.Success? ==> dict == old(dict)[r.value.id := Entry(state, r.value)]
      ensures r.Success? ==> order == old(order) + [r.value.id]
    {
      if disposed {
        return Failure(NullReference);
      }
      if isSingleton && |dict| != 0 {
        return Failure(SingletonHasModel);
      }
      var id := nextId;
      nextId := nextId + 1;
      issued := issued + {id};
      var model := new Model(id, this);
      dict := dict[id := Entry(state, model)];
      order := order + [id];
      r := Success(model);
    }

    /**
     * Update: look up, compute the new value, short-circuit on equality,
     * validate, then commit, notify the model and emit ModelUpdated.
     */
    method Update(id: Guid, updateFunc: T -> T) returns (r: Result<bool>)
      requires Valid()
      modifies this`dict, log`trace
      ensures Valid()
      ensures r.Success? <==> !old(disposed) && id in old(dict)
      ensures r.Failure? ==> r.error == (if old(disposed) then NullReference else KeyNotFound)
      ensures r.Failure? ==> dict == old(dict) && log.trace == old(log.trace)
      ensures r == Success(true) ==>
        updateFunc(old(dict[id].value)) != old(dict[id].value) && Validate(updateFunc(old(dict[id].value))) == Success(true)
      // the new value equals the old: no change, no notification, no event
      ensures r.Success? && updateFunc(old(dict[id].value)) == old(dict[id].value) ==>
        !r.value && dict == old(dict) && log.trace == old(log.trace)
      // the validator rejects the new value: one ModelInvalid event with both values, no change
      ensures (r.Success? && updateFunc(old(dict[id].value)) != old(dict[id].value)
               && Validate(updateFunc(old(dict[id].value))) == Success(false)) ==>
        !r.value && dict == old(dict) &&
        log.trace == old(log.trace) +
          Deliveries(listeners, ChangeArgs(None, id, old(dict[id].value), updateFunc(old(dict[id].value)), ModelInvalid))
      // otherwise: only this id's value is replaced, its handle kept; the model is notified, then one ModelUpdated event
      ensures (r.Success? && updateFunc(old(dict[id].value)) != old(dict[id].value)
               && Validate(updateFunc(old(dict[id].value))) == Success(true)) ==>
        r.value && dict == old(dict)[id := Entry(updateFunc(old(dict[id].value)), old(dict[id].model))] &&
        log.trace == old(log.trace) + Notifications(old(dict[id].model.subscribers), id) +
          Deliveries(listeners, ChangeArgs(None, id, old(dict[id].value), updateFunc(old(dict[id].value)), ModelUpdated))
    {
      var found := GetModel(id);
      if found.Failure? {
        return Failure(found.error);
      }
      var model := found.value;
      // the model was found under `id`, so reading its value cannot fail
      var oldVal := model.Value().value;
      var newVal := updateFunc(oldVal);
      if oldVal == newVal {
        // no difference in the values, so no change is triggered
        return Success(false);
      }
      var args := ChangeArgs(None, id, oldVal, newVal, ModelUpdated);
      var valid := Validate(newVal).value;
      if !valid {
        Emit(args.(changeType := ModelInvalid));
        return Success(false);
      }
      dict := dict[id := Entry(newVal, dict[id].model)];
      model.TriggerChangeNotification();
      Emit(args);
      r := Success(true);
    }

    /** The handle a Delete of `id` disposes. */
    ghost function ModelUnder(id: Guid): set<Model<T>>
      reads this
    {
      if id in dict then {dict[id].model} else {}
    }

    /** Delete: disposes the handle and removes only that entry. Nothing is emitted. */
    method Delete(id: Guid) returns (r: Result<()>)
      requires Valid()
      modifies this`dict, this`order, ModelUnder(id)
      ensures Valid()
      ensures r.Success? <==> !old(disposed) && id in old(dict)
      ensures r.Failure? ==> r.error == (if old(disposed) then NullReference else KeyNotFound)
      ensures r.Failure? ==> dict == old(dict) && order == old(order)
      ensures r.Success? ==> dict == old(dict) - {id} && order == Without(old(order), id)
      ensures r.Success? ==> old(dict[id].model).subscribers == []
      ensures ModelExists(id) != Success(true)
    {
      if disposed {
        return Failure(NullReference);
      }
      if id !in dict {
        return Failure(KeyNotFound);
      }
      dict[id].model.Dispose();
      dict := dict - {id};
      order := Without(order, id);
      r := Success(());
    }

    /** Dispose: disposes every owned model, then nulls the dictionary and the validator. */
    method Dispose() returns (r: Result<()>)
      requires Valid()
      modifies this`dict, this`order, this`validator, this`disposed, ModelSet()
      ensures Valid()
      ensures r.Success? <==> !old(disposed)
      ensures r.Failure? ==> r.error == NullReference
      ensures disposed && dict == map[] && order == []
      ensures forall m :: m in old(ModelSet()) ==> m.subscribers == []
    {
      if disposed {
        return Failure(NullReference);
      }
      ghost var models := ModelSet();
      var i := 0;
      while i < |order|
        invariant 0 <= i <= |order|
        invariant dict == old(dict) && order == old(order) && Valid()
        invariant forall j :: 0 <= j < i ==> dict[order[j]].model.subscribers == []
      {
        dict[order[i]].model.Dispose();
        i := i + 1;
      }
      forall m | m in models
        ensures m.subscribers == []
      {
        var g :| g in dict && dict[g].model == m;
        var j :| 0 <= j < |order| && order[j] == g;
      }
      dict, order, validator, disposed := map[], [], None, true;
      r := Success(());
    }
  }
}
