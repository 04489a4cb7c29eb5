/**
 * The typed event bus of Messegers/Messenger.cs.
 *
 * One process-wide table maps an event name to one composed delegate. Every
 * arity class (`Messenger`, `Messenger<T>`, ..., `Messenger<T,U,V,K,Z,X,Y>`)
 * shares that table; here a handler carries its own signature, so one set of
 * operations covers all of them. A broadcast does not call anything: it
 * returns the invocations the composed delegate would perform, in order.
 */
module Messenger {
  import opened Results
  import opened Callback

  datatype MessengerMode = DontRequireListener | RequireListener

  /** The mode used by the Broadcast overloads that take no mode. */
  const DefaultMode: MessengerMode := DontRequireListener

  /** The identity of a delegate target and method: what delegate equality compares. */
  type HandlerId = nat

  /** A single-cast delegate: its identity and its runtime delegate type. */
  datatype Handler = Handler(id: HandlerId, sig: Signature)

  /** One argument value passed by a broadcaster; its contents are never inspected. */
  type Arg = int

  /** One call made by a broadcast: which handler ran, and with which arguments. */
  datatype Invocation = Invocation(handler: HandlerId, args: seq<Arg>)

  /** Why a ListenerException was thrown, one reason per throw site. */
  datatype ListenerFault =
    | AddSignatureMismatch     // OnListenerAdding: chain has another delegate type
    | NullListener             // OnListenerRemoving: the name maps to null
    | RemoveSignatureMismatch  // OnListenerRemoving: chain has another delegate type
    | UnknownEventType         // OnListenerRemoving: the name is not in the table

  /** Why a BroadcastException was thrown. */
  datatype BroadcastFault =
    | NoListener                   // OnBroadcasting in REQUIRE_LISTENER mode
    | BroadcastSignatureMismatch   // the `as` cast of the stored delegate gave null

  datatype Error =
    | ListenerException(listenerFault: ListenerFault)
    | BroadcastException(broadcastFault: BroadcastFault)

  /** Position of the last occurrence of `x` in `hs`, or -1 when there is none. */
  function LastIndexOf(hs: seq<HandlerId>, x: HandlerId): (k: int)
    ensures -1 <= k < |hs|
    ensures k == -1 <==> x !in hs
    ensures k >= 0 ==> hs[k] == x && x !in hs[k + 1..]
  {
    if hs == [] then -1
    else if hs[|hs| - 1] == x then |hs| - 1
    else LastIndexOf(hs[..|hs| - 1], x)
  }

  /**
   * A value of the table: a null reference or a multicast delegate, that is,
   * a delegate type and its invocation list.
   */
  datatype Delegate = Null | Chain(sig: Signature, handlers: seq<HandlerId>) {

    /** `d + h` (Delegate.Combine): null + h is h alone, otherwise h goes last. */
    function Plus(h: Handler): (r: Delegate)
      requires Null? || sig == h.sig
      ensures r.Chain? && r.sig == h.sig && r.handlers != []
      ensures r.handlers[|r.handlers| - 1] == h.id
      ensures r.handlers[..|r.handlers| - 1] == if Null? then [] else handlers
    {
      match this
      case Null => Chain(h.sig, [h.id])
      case Chain(s, hs) => Chain(s, hs + [h.id])
    }

    /**
     * `d - h` (Delegate.Remove): drops the last occurrence of `x` from the
     * invocation list, leaves the delegate as it is when `x` does not occur,
     * and yields null when nothing is left.
     */
    function Minus(x: HandlerId): (r: Delegate)
      ensures Null? ==> r.Null?
      ensures Chain? && x !in handlers ==> r == this
      ensures Chain? && x in handlers ==> (r.Null? <==> |handlers| == 1)
      ensures Chain? && x in handlers && r.Chain? ==> r.sig == sig && |r.handlers| == |handlers| - 1
    {
      match this
      case Null => Null
      case Chain(s, hs) =>
        var k := LastIndexOf(hs, x);
        if k < 0 then this
        else
          var rest := hs[..k] + hs[k + 1..];
          if rest == [] then Null else Chain(s, rest)
    }
  }

  type Table = map<string, Delegate>

  /** Between two operations every registered name holds a non-empty chain. */
  ghost predicate WellFormed(t: Table)
  {
    forall name :: name in t ==> t[name].Chain? && t[name].handlers != []
  }

  /** AddListener on the table as a value: the guard of OnListenerAdding, then `+`. */
  function Subscribe(t: Table, name: string, h: Handler): (r: Result<Table, Error>)
    ensures r.Failure? <==> name in t && t[name].Chain? && t[name].sig != h.sig
    ensures r.Failure? ==> r.error == ListenerException(AddSignatureMismatch)
    ensures r.Success? ==>
      r.value.Keys == t.Keys + {name} &&
      r.value[name].Chain? && r.value[name].sig == h.sig &&
      forall n :: n in t && n != name ==> r.value[n] == t[n]
  {
    var d := if name in t then t[name] else Null;
    if d.Chain? && d.sig != h.sig then Failure(ListenerException(AddSignatureMismatch))
    else Success(t[name := d.Plus(h)])
  }

  /**
   * RemoveListener on the table as a value: the guards of OnListenerRemoving,
   * then `-`, then OnListenerRemoved's clean-up of a null entry.
   */
  function Unsubscribe(t: Table, name: string, h: Handler): (r: Result<Table, Error>)
    ensures name !in t ==> r == Failure(ListenerException(UnknownEventType))
    ensures r.Failure? ==> r.error.ListenerException?
    ensures r.Success? <==> name in t && t[name].Chain? && t[name].sig == h.sig
    ensures r.Success? ==>
      r.value.Keys - {name} == t.Keys - {name} &&
      (name in r.value <==> t[name].Minus(h.id).Chain?) &&
      forall n :: n in t && n != name ==> n in r.value && r.value[n] == t[n]
  {
    if name !in t then Failure(ListenerException(UnknownEventType))
    else if t[name].Null? then Failure(ListenerException(NullListener))
    else if t[name].sig != h.sig then Failure(ListenerException(RemoveSignatureMismatch))
    else
      var d := t[name].Minus(h.id);
      Success(if d.Null? then t - {name} else t[name := d])
  }

  /** What invoking the invocation list `hs` with `args` does, call by call. */
  function Invocations(hs: seq<HandlerId>, args: seq<Arg>): (r: seq<Invocation>)
    ensures |r| == |hs|
    ensures forall i :: 0 <= i < |hs| ==> r[i] == Invocation(hs[i], args)
  {
    if hs == [] then [] else [Invocation(hs[0], args)] + Invocations(hs[1..], args)
  }

  /**
   * Broadcast on the table as a value: OnBroadcasting's mode check, then the
   * lookup and the cast of the stored delegate to the broadcaster's type.
   */
  function Dispatch(t: Table, name: string, sig: Signature, args: seq<Arg>, mode: MessengerMode)
    : (r: Result<seq<Invocation>, Error>)
    requires |args| == |sig|
    ensures r.Failure? ==> r.error.BroadcastException?
    ensures name !in t ==> (r.Success? <==> mode.DontRequireListener?) && (r.Success? ==> r.value == [])
    ensures name in t ==> (r.Success? <==> t[name].Chain? && t[name].sig == sig)
    ensures r.Success? && name in t ==> |r.value| == |t[name].handlers|
  {
    if mode == RequireListener && name !in t then Failure(BroadcastException(NoListener))
    else if name !in t then Success([])
    else if t[name].Chain? && t[name].sig == sig then Success(Invocations(t[name].handlers, args))
    else Failure(BroadcastException(BroadcastSignatureMismatch))
  }

  /**
   * The shared `MessengerInternal.eventTable` together with the operations of
   * the `Messenger<...>` classes, which all read and write it.
   */
  class EventTable {
    var eventTable: Table

    ghost predicate Valid()
      reads this
    {
      WellFormed(eventTable)
    }

    constructor ()
      ensures Valid() && eventTable == map[]
    {
      eventTable := map[];
    }

    /** Makes sure `name` has an entry (null at first), then checks the signature. */
    method OnListenerAdding(name: string, h: Handler) returns (err: Option<Error>)
      modifies this
      ensures eventTable == if name in old(eventTable) then old(eventTable) else old(eventTable)[name := Null]
      ensures err.Some? <==>
        name in old(eventTable) && old(eventTable)[name].Chain? && old(eventTable)[name].sig != h.sig
      ensures err.Some? ==> err.value == ListenerException(AddSignatureMismatch)
    {
      if name !in eventTable {
        eventTable := eventTable[name := Null];
      }
      var d := eventTable[name];
      if d.Chain? && d.sig != h.sig {
        return Some(ListenerException(AddSignatureMismatch));
      }
      return None;
    }

    /** Checks that `name` is known, holds a delegate, and has h's signature. */
    method OnListenerRemoving(name: string, h: Handler) returns (err: Option<Error>)
      ensures err.None? <==> name in eventTable && eventTable[name].Chain? && eventTable[name].sig == h.sig
      ensures name !in eventTable ==> err == Some(ListenerException(UnknownEventType))
      ensures name in eventTable && eventTable[name].Null? ==> err == Some(ListenerException(NullListener))
      ensures name in eventTable && eventTable[name].Chain? && eventTable[name].sig != h.sig ==>
                err == Some(ListenerException(RemoveSignatureMismatch))
    {
      if name in eventTable {
        var d := eventTable[name];
        if d.Null? {
          return Some(ListenerException(NullListener));
        } else if d.sig != h.sig {
          return Some(ListenerException(RemoveSignatureMismatch));
        }
        return None;
      } else {
        return Some(ListenerException(UnknownEventType));
      }
    }

    /** Drops `name` from the table once its delegate has become null. */
    method OnListenerRemoved(name: string)
      requires name in eventTable
      modifies this
      ensures eventTable == if old(eventTable)[name].Null? then old(eventTable) - {name} else old(eventTable)
    {
      if eventTable[name].Null? {
        eventTable := eventTable - {name};
      }
    }

    /** Fails in REQUIRE_LISTENER mode when nobody listens to `name`. */
    method OnBroadcasting(name: string, mode: MessengerMode) returns (err: Option<Error>)
      ensures err.Some? <==> mode == RequireListener && name !in eventTable
      ensures err.Some? ==> err.value == BroadcastException(NoListener)
    {
      if mode == RequireListener && name !in eventTable {
        return Some(BroadcastException(NoListener));
      }
      return None;
    }

    method AddListener(name: string, h: Handler) returns (err: Option<Error>)
      requires Valid()
      modifies this
      ensures Valid()
      ensures err == Subscribe(old(eventTable), name, h).ErrorOrNone()
      ensures eventTable == if err.None? then Subscribe(old(eventTable), name, h).value else old(eventTable)
    {
      err := OnListenerAdding(name, h);
      if err.Some? {
        return;
      }
      eventTable := eventTable[name := eventTable[name].Plus(h)];
    }

    method RemoveListener(name: string, h: Handler) returns (err: Option<Error>)
      requires Valid()
      modifies this
      ensures Valid()
      ensures err == Unsubscribe(old(eventTable), name, h).ErrorOrNone()
      ensures eventTable == if err.None? then Unsubscribe(old(eventTable), name, h).value else old(eventTable)
    {
      err := OnListenerRemoving(name, h);
      if err.Some? {
        return;
      }
      eventTable := eventTable[name := eventTable[name].Minus(h.id)];
      OnListenerRemoved(name);
    }

    /** Broadcast with an explicit mode; the table is left as it is. */
    method Broadcast(name: string, sig: Signature, args: seq<Arg>, mode: MessengerMode)
      returns (r: Result<seq<Invocation>, Error>)
      requires |args| == |sig|
      ensures r == Dispatch(eventTable, name, sig, args, mode)
    {
      var err := OnBroadcasting(name, mode);
      if err.Some? {
        return Failure(err.value);
      }
      if name in eventTable {
        var d := eventTable[name];
        if d.Chain? && d.sig == sig {
          r := Success(Invocations(d.handlers, args));
        } else {
          r := Failure(BroadcastException(BroadcastSignatureMismatch));
        }
      } else {
        r := Success([]);
      }
    }

    /** Broadcast without a mode uses DefaultMode: nobody listening is not an error. */
    method BroadcastDefault(name: string, sig: Signature, args: seq<Arg>)
      returns (r: Result<seq<Invocation>, Error>)
      requires |args| == |sig|
      ensures name !in eventTable ==> r == Success([])
      ensures r == Dispatch(eventTable, name, sig, args, DontRequireListener)
    {
      r := Broadcast(name, sig, args, DefaultMode);
    }
  }
}
